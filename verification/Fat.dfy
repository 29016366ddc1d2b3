/** Reading files from the FAT16 volume: the cluster chains of file.c and of the loader's own
    copy, which differs in how it ends. */
module Fat {
  import opened Common

  const CHAIN_END := 0xfff7
  const NOT_FOUND := 0xffff_ffff
  const DIR_ENTRY_SIZE := 32

  /** The fields of the BPB that matter, and the bytes of the volume from the BPB on. */
  datatype Volume = Volume(
    bytesPerSector: nat,
    sectorsPerCluster: nat,
    reservedSectors: nat,
    fatCount: nat,
    sectorsPerFat: nat,
    rootEntries: nat,
    image: seq<byte>)

  ghost predicate Fields(v: Volume) {
    && v.bytesPerSector < U16 && v.sectorsPerCluster < 256 && v.reservedSectors < U16 && v.fatCount < 256
    && v.sectorsPerFat < U16 && v.rootEntries < U16
    && ClusterSize(v) > 0  // the source divides by it
  }

  function ClusterSize(v: Volume): nat {
    v.bytesPerSector * v.sectorsPerCluster
  }

  function Byte(v: Volume, at: nat): byte {
    if at < |v.image| then v.image[at] else 0
  }

  function Word16(v: Volume, at: nat): nat {
    Byte(v, at) + 256 * Byte(v, at + 1)
  }

  function Word32(v: Volume, at: nat): nat {
    Word16(v, at) + U16 * Word16(v, at + 2)
  }

  function FatOffset(v: Volume, c: nat): nat {
    v.reservedSectors * v.bytesPerSector + 2 * c
  }

  /** get_cluster_value */
  function FatEntry(v: Volume, c: nat): (r: nat)
    ensures r < U16
  {
    Word16(v, FatOffset(v, c))
  }

  /** get_cluster_offset, in 32-bit arithmetic */
  function ClusterOffset(v: Volume, c: nat): (r: nat)
    requires c >= 2
    ensures r < U32
  {
    (v.reservedSectors * v.bytesPerSector + v.fatCount * v.sectorsPerFat * v.bytesPerSector
     + v.rootEntries * DIR_ENTRY_SIZE + (c - 2) * ClusterSize(v)) % U32
  }

  /** c names a cluster whose bytes are on the volume. */
  predicate IsCluster(v: Volume, c: nat) {
    2 <= c < CHAIN_END && ClusterOffset(v, c) + ClusterSize(v) <= |v.image|
  }

  function Cluster(v: Volume, c: nat): seq<byte>
    requires IsCluster(v, c)
  {
    v.image[ClusterOffset(v, c)..ClusterOffset(v, c) + ClusterSize(v)]
  }

  /** The chain from c has at least n clusters. */
  predicate Covers(v: Volume, c: nat, n: nat)
    decreases n
  {
    n == 0 || (IsCluster(v, c) && Covers(v, FatEntry(v, c), n - 1))
  }

  /** The chain from c ends after n clusters. */
  predicate Ends(v: Volume, c: nat, n: nat)
    decreases n
  {
    if n == 0 then c >= CHAIN_END else Ends(v, FatEntry(v, c), n - 1)
  }

  /** The bytes of the first n clusters of the chain from c. */
  function Content(v: Volume, c: nat, n: nat): (r: seq<byte>)
    requires Covers(v, c, n)
    decreases n
  {
    if n == 0 then [] else Cluster(v, c) + Content(v, FatEntry(v, c), n - 1)
  }

  lemma {:induction false} ContentLength(v: Volume, c: nat, n: nat)
    requires Covers(v, c, n)
    ensures |Content(v, c, n)| == n * ClusterSize(v)
    decreases n
  {
    hide ClusterSize, FatEntry, ClusterOffset;
    if n > 0 {
      ContentLength(v, FatEntry(v, c), n - 1);
      NextMultiple(n - 1, ClusterSize(v));
    }
  }

  /** One cluster further along the chain, what is left is what is left of the content. */
  lemma Advance(v: Volume, content: seq<byte>, done: nat, c: nat, m: nat)
    requires Covers(v, c, m) && m > 0 && done <= |content| && content[done..] == Content(v, c, m)
    ensures IsCluster(v, c) && Covers(v, FatEntry(v, c), m - 1)
    ensures done + ClusterSize(v) <= |content| && content[done..done + ClusterSize(v)] == Cluster(v, c)
    ensures content[done + ClusterSize(v)..] == Content(v, FatEntry(v, c), m - 1)
    ensures Ends(v, c, m) <==> Ends(v, FatEntry(v, c), m - 1)
  {
    hide ClusterSize, FatEntry, ClusterOffset;
    var cs, rest := ClusterSize(v), content[done..];
    assert rest == Cluster(v, c) + Content(v, FatEntry(v, c), m - 1);
    assert content[done..done + cs] == rest[..cs];
    assert content[done + cs..] == rest[cs..];
  }

  /** Where m clusters are left: with none left, all content has been passed. */
  lemma Left(v: Volume, content: seq<byte>, done: nat, c: nat, m: nat)
    requires Covers(v, c, m) && done <= |content| && content[done..] == Content(v, c, m)
    ensures m > 0 ==> c < CHAIN_END
    ensures m == 0 ==> done == |content| && (Ends(v, c, m) <==> c >= CHAIN_END)
  {
  }

  function Times(n: nat, c: nat): nat {
    n * c
  }

  lemma TimesNext(k: nat, c: nat)
    ensures Times(0, c) == 0 && Times(k + 1, c) == Times(k, c) + c
  {
    NextMultiple(k, c);
  }

  /** The walk to the cluster that holds position: done bytes of the content lie before it and
      m clusters from it on.  The ASSERT in the loop never fails. */
  method Seek(v: Volume, first: nat, position: nat, ghost n: nat)
    returns (index: nat, offset: nat, ghost done: nat, ghost m: nat)
    requires Fields(v) && Covers(v, first, n) && (position < |Content(v, first, n)| || position == 0)
    ensures (0 < m || position == 0) && Covers(v, index, m) && done + offset == position && offset < ClusterSize(v)
    ensures Content(v, first, n)[done..] == Content(v, index, m)
    ensures Ends(v, first, n) <==> Ends(v, index, m)
  {
    hide ClusterSize, Content, Covers, Ends, FatEntry, ClusterOffset, Times;
    var count := position / ClusterSize(v);
    offset := position % ClusterSize(v);
    PositionInChain(v, first, position, n);
    TimesNext(0, ClusterSize(v));
    index, done := first, 0;
    ghost var content := Content(v, first, n);
    assert content[0..] == content;
    for i := 0 to count
      invariant Covers(v, index, n - i) && done == Times(i, ClusterSize(v)) && done <= |content|
      invariant content[done..] == Content(v, index, n - i)
      invariant Ends(v, first, n) <==> Ends(v, index, n - i)
    {
      Advance(v, content, done, index, n - i);
      index := FatEntry(v, index);
      done := done + ClusterSize(v);
      Left(v, content, done, index, n - i - 1);
      assert index < CHAIN_END;
      TimesNext(i, ClusterSize(v));
    }
    m := n - count;
  }

  lemma PositionInChain(v: Volume, first: nat, position: nat, n: nat)
    requires Fields(v) && Covers(v, first, n) && (position < |Content(v, first, n)| || position == 0)
    ensures var c := ClusterSize(v);
            && 0 <= position / c <= n && (position != 0 ==> position / c < n)
            && 0 <= position % c < c && position == Times(position / c, c) + position % c
  {
    hide ClusterSize, Covers, Content;
    ContentLength(v, first, n);
    var c := ClusterSize(v);
    DivMod(position, c);
    LessMultiple(n, position / c, c);
    ZeroCount(c);
  }

  lemma ZeroCount(c: nat)
    requires c > 0
    ensures 0 / c == 0
  {
  }

  /** The buffer holds r bytes of the content from position on, and behind them what it held. */
  ghost predicate Holds(b: seq<byte>, content: seq<byte>, position: nat, r: nat, b0: seq<byte>) {
    position + r <= |content| && r <= |b0| && b == content[position..position + r] + b0[r..]
  }

  lemma NothingRead(content: seq<byte>, position: nat, b: seq<byte>)
    requires position <= |content|
    ensures Holds(b, content, position, 0, b)
  {
  }

  /** memcpy of the next stretch of the content behind what has been read */
  method CopyNext(buffer: array<byte>, r: nat, data: seq<byte>, ghost content: seq<byte>, ghost position: nat, ghost b0: seq<byte>)
    requires Holds(buffer[..], content, position, r, b0) && r + |data| <= buffer.Length
    requires position + r + |data| <= |content| && data == content[position + r..position + r + |data|]
    modifies buffer
    ensures Holds(buffer[..], content, position, r + |data|, b0)
  {
    ghost var b := buffer[..];
    Copy(buffer, r, data);
    assert b[..r] + data + b[r + |data|..] == content[position..position + r + |data|] + b0[r + |data|..];
  }

  /** The reader stands before the m clusters from index on, and done bytes of the content. */
  ghost predicate At(v: Volume, first: nat, n: nat, index: nat, done: nat, m: nat)
    requires Covers(v, first, n)
  {
    && Covers(v, index, m) && done <= |Content(v, first, n)| && Content(v, first, n)[done..] == Content(v, index, m)
    && (Ends(v, first, n) <==> Ends(v, index, m))
  }

  lemma Step(v: Volume, first: nat, n: nat, index: nat, done: nat, m: nat)
    requires Covers(v, first, n) && At(v, first, n, index, done, m) && m > 0
    ensures IsCluster(v, index) && 2 <= index && At(v, first, n, FatEntry(v, index), done + ClusterSize(v), m - 1)
    ensures var content := Content(v, first, n);
            done + ClusterSize(v) <= |content| && |Cluster(v, index)| == ClusterSize(v)
            && content[done..done + ClusterSize(v)] == Cluster(v, index)
  {
    hide Content, Covers, Ends, FatEntry, ClusterOffset;
    Advance(v, Content(v, first, n), done, index, m);
  }

  lemma Here(v: Volume, first: nat, n: nat, index: nat, done: nat, m: nat)
    requires Covers(v, first, n) && At(v, first, n, index, done, m)
    ensures done <= |Content(v, first, n)| && (m > 0 ==> index < CHAIN_END)
    ensures m == 0 ==> done == |Content(v, first, n)| && (Ends(v, first, n) ==> index >= CHAIN_END)
  {
    hide ClusterOffset, FatEntry;
    Left(v, Content(v, first, n), done, index, m);
  }

  /** The part of the cluster at hand from offset on, or as much of it as is asked for. */
  method ReadPart(v: Volume, first: nat, buffer: array<byte>, position: nat, size: nat, index: nat, offset: nat,
                  ghost n: nat, ghost done: nat, ghost m: nat) returns (readSize: nat)
    requires Covers(v, first, n) && At(v, first, n, index, done, m) && m > 0
    requires done + offset == position && offset < ClusterSize(v) && position + size < U32 && size <= buffer.Length
    modifies buffer
    ensures readSize == Min(size, ClusterSize(v) - offset) && position + readSize <= |Content(v, first, n)|
    ensures Holds(buffer[..], Content(v, first, n), position, readSize, old(buffer[..]))
  {
    hide ClusterSize, Content, Covers, FatEntry, ClusterOffset, Add32, Cluster, IsCluster, Holds, At;
    ghost var content, b0 := Content(v, first, n), buffer[..];
    Step(v, first, n, index, done, m);
    NothingRead(content, position, b0);
    NoWrap(offset, size);
    readSize := if Add32(offset, size) <= ClusterSize(v) then size else ClusterSize(v) - offset;
    var data := Cluster(v, index);
    SliceOfSlice(content, done, data, offset, offset + readSize);
    CopyNext(buffer, 0, data[offset..offset + readSize], content, position, b0);
  }

  /** Whole clusters, and the front part of the last one. */
  method ReadWhole(v: Volume, first: nat, buffer: array<byte>, position: nat, size: nat, start: nat, already: nat,
                   ghost b0: seq<byte>, ghost n: nat, ghost start0: nat, ghost m0: nat) returns (readSize: nat)
    requires Covers(v, first, n) && At(v, first, n, start, start0, m0) && 0 < ClusterSize(v)
    requires already <= size && (already == size || start0 == position + already)
    requires Holds(buffer[..], Content(v, first, n), position, already, b0)
    requires position + size <= |Content(v, first, n)| || Ends(v, first, n)
    requires size + ClusterSize(v) <= U32 && size <= buffer.Length
    modifies buffer
    ensures position <= |Content(v, first, n)| && readSize == Min(size, |Content(v, first, n)| - position)
    ensures Holds(buffer[..], Content(v, first, n), position, readSize, b0)
  {
    hide ClusterSize, Content, Covers, Ends, FatEntry, ClusterOffset, Add32, Cluster, IsCluster, Holds, At;
    ghost var content := Content(v, first, n);
    var clusterSize := ClusterSize(v);
    var index: nat := start;
    ghost var done: nat, m: nat := start0, m0;
    readSize := already;
    while readSize < size && index < CHAIN_END
      invariant readSize <= size && At(v, first, n, index, done, m) && Holds(buffer[..], content, position, readSize, b0)
      invariant readSize == size || done == position + readSize
      decreases m
    {
      Here(v, first, n, index, done, m);
      HoldsMeans(buffer[..], content, position, readSize, b0);
      Step(v, first, n, index, done, m);
      NoWrap(readSize, clusterSize);
      var data := Cluster(v, index);
      if Add32(readSize, clusterSize) >= size {
        SliceOfSlice(content, done, data, 0, size - readSize);
        CopyNext(buffer, readSize, data[0..size - readSize], content, position, b0);
        readSize := size;
        break;
      }
      CopyNext(buffer, readSize, data, content, position, b0);
      readSize := readSize + clusterSize;
      index := FatEntry(v, index);
      done, m := done + clusterSize, m - 1;
    }
    Here(v, first, n, index, done, m);
    HoldsMeans(buffer[..], content, position, readSize, b0);
  }

  lemma HoldsMeans(b: seq<byte>, content: seq<byte>, position: nat, r: nat, b0: seq<byte>)
    requires Holds(b, content, position, r, b0)
    ensures position + r <= |content| && r <= |b0| && |b| == |b0|
  {
  }

  /** read_raw_data of the kernel, on a chain that has n clusters and more, or exactly n.  It
      reads what is asked for, or up to the end of the chain, and no byte beyond. */
  method ReadRawData(v: Volume, first: nat, buffer: array<byte>, position: nat, size: nat, ghost n: nat) returns (readSize: nat)
    requires Fields(v) && Covers(v, first, n) && (position < |Content(v, first, n)| || position == 0)
    requires position + size <= |Content(v, first, n)| || Ends(v, first, n)
    requires position + size < U32 && size + ClusterSize(v) <= U32 && size <= buffer.Length
    modifies buffer
    ensures readSize == Min(size, |Content(v, first, n)| - position)
    ensures Holds(buffer[..], Content(v, first, n), position, readSize, old(buffer[..]))
  {
    hide ClusterSize, Content, Covers, Ends, FatEntry, ClusterOffset, Cluster, IsCluster, Holds;
    ghost var content, b0 := Content(v, first, n), buffer[..];
    var index: nat, offset: nat;
    ghost var done: nat, m: nat;
    index, offset, done, m := Seek(v, first, position, n);
    readSize := 0;
    NothingRead(content, position, b0);
    if offset != 0 {
      readSize := ReadPart(v, first, buffer, position, size, index, offset, n, done, m);
      Step(v, first, n, index, done, m);
      index := FatEntry(v, index);
      done, m := done + ClusterSize(v), m - 1;
    }
    readSize := ReadWhole(v, first, buffer, position, size, index, readSize, b0, n, done, m);
  }

  // -------------------------------------------------------------------------- the loader

  /** The clusters that size bytes take. */
  function ClustersFor(size: nat, c: nat): nat
    requires c > 0
  {
    (size + c - 1) / c
  }

  lemma ClustersForBounds(size: nat, c: nat, n: nat)
    requires c > 0 && size > 0
    ensures ClustersFor(size, c) > 0 && (ClustersFor(size, c) - 1) * c < size <= ClustersFor(size, c) * c
    ensures n * c < size <==> n < ClustersFor(size, c)
  {
    var q := ClustersFor(size, c);
    DivMod(size + c - 1, c);
    LessMultiple(q - 1, q, c);
    NextMultiple(q - 1, c);
    LessMultiple(n, q, c);
    LessMultiple(q, n, c);
  }

  lemma WholeClusters(size: nat, c: nat)
    requires c > 0 && size > 0
    ensures ClustersFor(size, c) * c == size <==> size % c == 0
  {
    var q, d := ClustersFor(size, c), size / c;
    ClustersForBounds(size, c, q);
    hide ClustersFor;
    DivMod(size, c);
    NextMultiple(q - 1, c);
    LessMultiple(d, q, c);
    LessMultiple(q, d, c);
  }

  /** k clusters are the ones that size bytes take. */
  lemma ClustersForIs(size: nat, c: nat, k: nat)
    requires c > 0 && k > 0 && Times(k - 1, c) < size
    ensures k <= ClustersFor(size, c) && (size <= Times(k, c) ==> k == ClustersFor(size, c))
  {
    ClustersForBounds(size, c, k - 1);
    ClustersForBounds(size, c, k);
  }

  /** What the loader's read_raw_data returns for a chain of exactly n clusters. */
  function LoaderResult(v: Volume, first: nat, size: nat, n: nat): nat
    requires ClusterSize(v) > 0
  {
    if first < 2 then NOT_FOUND
    else if size == 0 then 0
    else if n <= ClustersFor(size, ClusterSize(v)) then size
    else Times(ClustersFor(size, ClusterSize(v)), ClusterSize(v))
  }

  lemma LoaderEnds(v: Volume, first: nat, size: nat, n: nat)
    requires ClusterSize(v) > 0
    ensures first < 2 ==> LoaderResult(v, first, size, n) == NOT_FOUND
    ensures first >= 2 && size == 0 ==> LoaderResult(v, first, size, n) == 0
  {
  }

  /** The end of the chain comes with the n-th cluster, before which size has not been reached. */
  lemma LoaderStopsEarly(v: Volume, first: nat, size: nat, n: nat)
    requires ClusterSize(v) > 0 && first >= 2 && n > 0 && Times(n - 1, ClusterSize(v)) < size
    ensures LoaderResult(v, first, size, n) == size
  {
    hide ClusterSize, ClustersFor, Times;
    ClustersForIs(size, ClusterSize(v), n);
  }

  /** size has been reached with the k-th cluster, and the chain goes on. */
  lemma LoaderGoesOn(v: Volume, first: nat, size: nat, n: nat, k: nat)
    requires ClusterSize(v) > 0 && first >= 2 && 0 < k < n
    requires Times(k - 1, ClusterSize(v)) < size <= Times(k, ClusterSize(v))
    ensures LoaderResult(v, first, size, n) == Times(k, ClusterSize(v))
  {
    hide ClusterSize, ClustersFor, Times;
    ClustersForIs(size, ClusterSize(v), k);
  }

  /** len bytes of the volume, whatever they belong to */
  function Bytes(v: Volume, at: nat, len: nat): (r: seq<byte>)
    ensures |r| == len
  {
    seq<byte>(len, i requires 0 <= i => Byte(v, at + i))
  }

  /** memcpy of len bytes from the last cluster on */
  method CopyLast(v: Volume, last: nat, buffer: array<byte>, r: nat, len: nat, ghost content: seq<byte>, ghost b0: seq<byte>)
    requires IsCluster(v, last) && r + len <= buffer.Length && |content| == r + ClusterSize(v)
    requires content[r..r + ClusterSize(v)] == Cluster(v, last) && Holds(buffer[..], content, 0, r, b0)
    modifies buffer
    ensures var good := Min(r + len, |content|); buffer[..good] == content[..good]
  {
    hide ClusterOffset, ClusterSize, Cluster, Holds, Bytes;
    ClusterBytes(v, last, len);
    ghost var b := buffer[..];
    var bytes := Bytes(v, ClusterOffset(v, last), len);
    Copy(buffer, r, bytes);
    FrontCopied(b, b0, content, r, Cluster(v, last), bytes, buffer[..]);
  }

  /** read_raw_data of the loader, on a chain of exactly n clusters.  It may write up to the
      end of the last cluster it reads; where the chain is too short, it takes what follows the
      last cluster on the volume and reports success all the same. */
  method LoaderReadRawData(v: Volume, first: nat, buffer: array<byte>, size: nat, ghost n: nat) returns (readSize: nat)
    requires first >= 2 ==> Covers(v, first, n) && Ends(v, first, n) && (size > 0 ==> n > 0)
    requires first >= 2 ==> size + ClusterSize(v) <= U32 && size + ClusterSize(v) <= buffer.Length
    requires Fields(v)
    modifies buffer
    ensures readSize == LoaderResult(v, first, size, n)
    ensures first < 2 ==> buffer[..] == old(buffer[..])
    ensures first >= 2 ==> var good := Min(size, |Content(v, first, n)|); buffer[..good] == Content(v, first, n)[..good]
  {
    hide ClusterSize, Content, Covers, Ends, FatEntry, ClusterOffset, Add32, Cluster, IsCluster, Holds, At;
    hide ClustersFor, Times, Bytes, LoaderResult;
    LoaderEnds(v, first, size, n);
    var clusterSize := ClusterSize(v);
    assert clusterSize > 0;
    hide Fields;
    readSize := 0;
    var index: nat := first;
    if index < 2 {
      return NOT_FOUND;
    }
    ghost var content, b0 := Content(v, first, n), buffer[..];
    ghost var m: nat, k: nat := n, 0;
    TimesNext(0, clusterSize);
    NothingRead(content, 0, b0);
    AtStart(v, first, n);
    while readSize < size
      invariant m == n - k && readSize == Times(k, clusterSize) && (size > 0 ==> m > 0)
      invariant k > 0 ==> Times(k - 1, clusterSize) < size
      invariant At(v, first, n, index, readSize, m) && Holds(buffer[..], content, 0, readSize, b0)
      decreases m
    {
      Here(v, first, n, index, readSize, m);
      Step(v, first, n, index, readSize, m);
      TimesNext(k, clusterSize);
      var from := index;
      var data := Cluster(v, from);
      index := FatEntry(v, index);
      if index >= CHAIN_END {
        LastCluster(v, first, n, index, readSize + clusterSize, m - 1);
        CopyLast(v, from, buffer, readSize, size - readSize, content, b0);
        LoaderStopsEarly(v, first, size, n);
        readSize := readSize + (size - readSize);
        return;
      }
      NoWrap(readSize, clusterSize);
      CopyNext(buffer, readSize, data, content, 0, b0);
      readSize := readSize + clusterSize;
      k, m := k + 1, m - 1;
      HereNotEnd(v, first, n, index, readSize, m);
    }
    HoldsFront(buffer[..], content, readSize, size, b0);
    if size > 0 {
      LoaderGoesOn(v, first, size, n, k);
    }
  }

  lemma LastCluster(v: Volume, first: nat, n: nat, index: nat, done: nat, m: nat)
    requires Covers(v, first, n) && At(v, first, n, index, done, m) && index >= CHAIN_END
    ensures m == 0 && done == |Content(v, first, n)|
  {
  }

  lemma ClusterBytes(v: Volume, c: nat, len: nat)
    requires IsCluster(v, c)
    ensures var k := Min(len, ClusterSize(v));
            |Cluster(v, c)| == ClusterSize(v) && Bytes(v, ClusterOffset(v, c), len)[..k] == Cluster(v, c)[..k]
  {
    hide ClusterOffset, ClusterSize;
    var k, at := Min(len, ClusterSize(v)), ClusterOffset(v, c);
    forall i | 0 <= i < k
      ensures Bytes(v, at, len)[i] == Cluster(v, c)[i]
    {
    }
  }

  lemma FrontCopied(b: seq<byte>, b0: seq<byte>, content: seq<byte>, r: nat, data: seq<byte>, bytes: seq<byte>, b': seq<byte>)
    requires Holds(b, content, 0, r, b0) && |content| == r + |data| && data == content[r..r + |data|]
    requires var k := Min(|bytes|, |data|); bytes[..k] == data[..k]
    requires r + |bytes| <= |b| && b' == b[..r] + bytes + b[r + |bytes|..]
    ensures var good := Min(r + |bytes|, |content|); good <= |b'| && b'[..good] == content[..good]
  {
    var k := Min(|bytes|, |data|);
    assert content[..r + k] == content[..r] + data[..k];
    assert b'[..r + k] == b[..r] + bytes[..k];
  }

  lemma AtStart(v: Volume, first: nat, n: nat)
    requires Covers(v, first, n)
    ensures At(v, first, n, first, 0, n)
  {
    assert Content(v, first, n)[0..] == Content(v, first, n);
  }

  lemma HereNotEnd(v: Volume, first: nat, n: nat, index: nat, done: nat, m: nat)
    requires Covers(v, first, n) && At(v, first, n, index, done, m) && Ends(v, first, n) && index < CHAIN_END
    ensures m > 0
  {
  }

  lemma HoldsFront(b: seq<byte>, content: seq<byte>, r: nat, size: nat, b0: seq<byte>)
    requires Holds(b, content, 0, r, b0) && size <= r
    ensures size <= |b| && size <= |content| && b[..size] == content[..size]
  {
  }

  /** What the reader returns is the size if and only if the chain ends with the cluster in which
      the size is reached, or before, or the size is a multiple of the cluster size; and for a
      file without clusters if its size is the value that stands for none. */
  lemma LoaderSucceedsIff(v: Volume, first: nat, size: nat, n: nat)
    requires ClusterSize(v) > 0
    ensures LoaderResult(v, first, size, n) == size <==>
            if first < 2 then size == NOT_FOUND else n <= ClustersFor(size, ClusterSize(v)) || size % ClusterSize(v) == 0
  {
    hide ClusterSize, ClustersFor;
    if size > 0 {
      ClustersForBounds(size, ClusterSize(v), n);
      WholeClusters(size, ClusterSize(v));
    }
  }

  /** A chain too short for the file is one of these. */
  lemma ShortChain(v: Volume, first: nat, size: nat, n: nat)
    requires ClusterSize(v) > 0 && Covers(v, first, n) && |Content(v, first, n)| < size
    ensures n <= ClustersFor(size, ClusterSize(v))
  {
    hide ClusterSize, ClustersFor, Covers, Content;
    ContentLength(v, first, n);
    ClustersForBounds(size, ClusterSize(v), n);
  }
}
