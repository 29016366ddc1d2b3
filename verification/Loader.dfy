/** The loader's load_file: which files it loads, and which it only says it has loaded. */
module Loader {
  import opened Common
  import opened Fat
  import opened Directory

  /** load_file reports success for file f, whose chain has n clusters, exactly under this
      condition: the chain ends with the cluster in which the size is reached, or before, or the
      size is a multiple of the cluster size. */
  ghost predicate Accepted(v: Volume, f: FileInfo, n: nat)
    requires ClusterSize(v) > 0
  {
    if f.cluster < 2 then f.fileSize == NOT_FOUND
    else n <= ClustersFor(f.fileSize, ClusterSize(v)) || f.fileSize % ClusterSize(v) == 0
  }

  /** The file's chain has exactly n clusters, all on the volume, and there is room for it. */
  ghost predicate Loadable(v: Volume, f: FileInfo, n: nat, room: nat) {
    f.cluster >= 2 ==>
      && Covers(v, f.cluster, n) && Ends(v, f.cluster, n) && (f.fileSize > 0 ==> n > 0)
      && f.fileSize + ClusterSize(v) <= U32 && f.fileSize + ClusterSize(v) <= room
  }

  /** load_file succeeds exactly if the directory has the file and the file is accepted; as far as
      the file's chain goes, its bytes are then in memory. */
  method LoadFile(v: Volume, path: seq<byte>, buffer: array<byte>, ghost n: nat) returns (ret: int)
    requires Fields(v) && 0 !in path
    requires forall i :: 0 <= i < v.rootEntries && FirstMatching(v, path, i) ==> Loadable(v, InfoAt(v, i), n, buffer.Length)
    modifies buffer
    ensures (ret == 0 || ret == -1) && (!Exists(v, path) ==> buffer[..] == old(buffer[..]))
    ensures ret == 0 <==> exists i :: 0 <= i < v.rootEntries && FirstMatching(v, path, i) && Accepted(v, InfoAt(v, i), n)
    ensures forall i :: 0 <= i < v.rootEntries && FirstMatching(v, path, i) && InfoAt(v, i).cluster >= 2 ==>
              var f := InfoAt(v, i);
              && Covers(v, f.cluster, n)
              && var good := Min(f.fileSize, |Content(v, f.cluster, n)|);
                 good <= buffer.Length && buffer[..good] == Content(v, f.cluster, n)[..good]
  {
    hide InfoAt, Matches, WellFormed, Covers, Ends, Content, ClustersFor, ClusterSize, LoaderResult;
    var index := SearchFile(v, path);
    ret := -1;
    if index != NOT_FOUND {
      OneMatch(v, path, index);
      var f := InfoAt(v, index);
      var readSize := LoaderReadRawData(v, f.cluster, buffer, f.fileSize, n);
      LoaderSucceedsIff(v, f.cluster, f.fileSize, n);
      if readSize == f.fileSize {
        ret := 0;
      }
    }
  }

  lemma OneMatch(v: Volume, path: seq<byte>, index: nat)
    requires FirstMatching(v, path, index)
    ensures index < v.rootEntries && forall i :: 0 <= i < v.rootEntries && FirstMatching(v, path, i) ==> i == index
  {
  }

  /** Loaded right, with success reported and every byte of the file in its chain, is exactly a
      chain that ends with the file's last cluster or a size of whole clusters in a chain that
      holds it. */
  lemma LoadedRightIff(v: Volume, f: FileInfo, n: nat)
    requires ClusterSize(v) > 0 && f.cluster >= 2 && Covers(v, f.cluster, n)
    ensures Accepted(v, f, n) && f.fileSize <= |Content(v, f.cluster, n)| <==>
            n == ClustersFor(f.fileSize, ClusterSize(v)) || (f.fileSize % ClusterSize(v) == 0 && f.fileSize <= n * ClusterSize(v))
  {
    hide ClusterSize, ClustersFor, Covers, Content;
    ContentLength(v, f.cluster, n);
    if f.fileSize > 0 {
      ClustersForBounds(f.fileSize, ClusterSize(v), n);
    } else {
      NoClusters(ClusterSize(v));
      ProductNotNegative(n, ClusterSize(v));
    }
  }

  lemma NoClusters(c: nat)
    requires c > 0
    ensures ClustersFor(0, c) == 0 && 0 % c == 0
  {
  }

  lemma ProductNotNegative(n: nat, c: nat)
    ensures 0 <= n * c
  {
  }

  /** A chain too short for the file is not noticed. */
  lemma ShortFilesAccepted(v: Volume, f: FileInfo, n: nat)
    requires ClusterSize(v) > 0 && f.cluster >= 2 && Covers(v, f.cluster, n) && |Content(v, f.cluster, n)| < f.fileSize
    ensures Accepted(v, f, n)
  {
    ShortChain(v, f.cluster, f.fileSize, n);
  }

  // ------------------------------------------------------------------ a volume to show it

  /** One sector of 512 bytes each: the reserved one; the FAT with the chain of the clusters 2 and
      3; the directory with a long-name entry, a deleted one, and the files A of 100 and B of 2000
      bytes in that chain; and the two clusters, one full of 0x61 and one full of 0x62. */
  function SampleByte(at: nat): byte {
    if at < 1024 then FatByte(at) else if at < 1536 then DirectoryByte((at - 1024) / 32, (at - 1024) % 32)
    else if at < 2048 then 0x61 else 0x62
  }

  function FatByte(at: nat): byte {
    if at == 516 then 3 else if at == 518 then 0xf7 else if at == 519 then 0xff else 0
  }

  function DirectoryByte(i: nat, at: nat): byte {
    if i >= 4 then 0
    else if at == 0 then Letter(i) else if at < 11 then SPACE
    else if at == 11 then (if i == 0 then 0xf else 0)
    else if at == 26 then 2
    else if at == 28 then (if i == 2 then 100 else 0xd0)
    else if at == 29 then (if i == 2 then 0 else 7)
    else 0
  }

  function Letter(i: nat): byte {
    if i == 0 || i == 2 then 0x41 else if i == 1 then 0xe5 else 0x42
  }

  function Sample(): (v: Volume)
    ensures |v.image| == 2560 && forall i :: 0 <= i < 2560 ==> v.image[i] == SampleByte(i)
  {
    Volume(512, 1, 1, 1, 1, 16, seq<byte>(2560, i requires 0 <= i => SampleByte(i)))
  }

  lemma SampleChain(v: Volume)
    requires v == Sample()
    ensures Fields(v) && ClusterSize(v) == 512 && v.rootEntries == 16 && Covers(v, 2, 2) && Ends(v, 2, 2)
    ensures IsCluster(v, 2) && IsCluster(v, 3) && FatEntry(v, 2) == 3
    ensures ClusterOffset(v, 2) == 1536 && ClusterOffset(v, 3) == 2048
  {
    assert FatEntry(v, 2) == 3 && FatEntry(v, 3) == 0xfff7;
    assert IsCluster(v, 2) && IsCluster(v, 3);
    assert ClusterOffset(v, 2) == 1536 && ClusterOffset(v, 3) == 2048;
    hide FatEntry, IsCluster, ClusterSize, Sample, ClusterOffset;
    assert Covers(v, 0xfff7, 0) && Ends(v, 0xfff7, 0);
    assert Covers(v, 3, 1) && Ends(v, 3, 1);
  }

  lemma SampleAt(v: Volume, at: nat)
    requires v == Sample() && at < 2560
    ensures Byte(v, at) == SampleByte(at)
  {
  }

  lemma DirectoryAtByte(v: Volume, i: nat, at: nat)
    requires v == Sample() && i < 16 && at < 32
    ensures Byte(v, 1024 + 32 * i + at) == DirectoryByte(i, at)
  {
    SampleAt(v, 1024 + 32 * i + at);
    assert (32 * i + at) / 32 == i && (32 * i + at) % 32 == at;
  }

  /** The letter of the name, and 10 spaces. */
  lemma SampleName(v: Volume, i: nat)
    requires v == Sample() && i < 4
    ensures Bytes(v, 1024 + 32 * i, 8) == Padded([Letter(i)], 8) && Bytes(v, 1032 + 32 * i, 3) == Padded([], 3)
  {
    var at := 1024 + 32 * i;
    forall x: nat | at <= x < at + 11
      ensures Byte(v, x) == if x == at then Letter(i) else SPACE
    {
      DirectoryAtByte(v, i, x - at);
    }
    hide Byte, Sample, SampleByte, DirectoryByte;
    BytesAre(v, at, Padded([Letter(i)], 8));
    BytesAre(v, at + 8, Padded([], 3));
  }

  lemma BytesAre(v: Volume, at: nat, s: seq<byte>)
    requires forall x: nat :: at <= x < at + |s| ==> Byte(v, x) == s[x - at]
    ensures Bytes(v, at, |s|) == s
  {
    hide Byte;
    forall k | 0 <= k < |s|
      ensures Bytes(v, at, |s|)[k] == s[k]
    {
      assert Byte(v, at + k) == s[at + k - at];
    }
  }

  lemma SampleWords(v: Volume, i: nat)
    requires v == Sample() && i < 4
    ensures Byte(v, 1035 + 32 * i) == (if i == 0 then LONG_NAME else 0) && Word16(v, 1050 + 32 * i) == 2
    ensures Word32(v, 1052 + 32 * i) == if i == 2 then 100 else 2000
  {
    hide Byte, Sample, SampleByte, DirectoryByte;
    DirectoryFields(i);
    DirectoryAtByte(v, i, 11);
    DirectoryAtByte(v, i, 26);
    DirectoryAtByte(v, i, 27);
    DirectoryAtByte(v, i, 28);
    DirectoryAtByte(v, i, 29);
    DirectoryAtByte(v, i, 30);
    DirectoryAtByte(v, i, 31);
  }

  lemma DirectoryFields(i: nat)
    requires i < 4
    ensures DirectoryByte(i, 11) == (if i == 0 then LONG_NAME else 0) && DirectoryByte(i, 26) == 2 && DirectoryByte(i, 27) == 0
    ensures DirectoryByte(i, 28) == (if i == 2 then 100 else 0xd0) && DirectoryByte(i, 29) == (if i == 2 then 0 else 7)
    ensures DirectoryByte(i, 30) == 0 && DirectoryByte(i, 31) == 0
  {
  }

  lemma SampleEntry(v: Volume, i: nat)
    requires v == Sample() && i < 4
    ensures AttributesAt(v, i) == if i == 0 then LONG_NAME else 0
    ensures InfoAt(v, i) == FileInfo(Padded([Letter(i)], 8), Padded([], 3), 2, if i == 2 then 100 else 2000)
  {
    hide Bytes, Byte, Word16, Word32, Padded;
    assert EntryOffset(v, i) == 1024 + 32 * i;
    hide Sample, SampleByte, DirectoryByte;
    SampleName(v, i);
    SampleWords(v, i);
  }

  lemma OneLetter(c: byte)
    requires c != DOT && c != SLASH
    ensures WellFormed([c]) && NameOf([c]) == Padded([c], 8) && ExtOf([c]) == Padded([], 3) && Padded([c], 8)[0] == c
  {
    assert BaseLength([c]) == 1 by { assert [c][1..] == []; }
    assert [c][..1] == [c];
  }

  /** A one-letter file is found in its entry, if no earlier one in use has the letter. */
  lemma FoundAt(v: Volume, c: byte, i: nat)
    requires i < v.rootEntries && c != DOT && c != SLASH && c != ENTRY_EMPTY && c != ENTRY_DELETED
    requires InfoAt(v, i).name == Padded([c], 8) && InfoAt(v, i).ext == Padded([], 3) && AttributesAt(v, i) == 0
    requires forall j :: 0 <= j < i ==> InfoAt(v, j).name[0] != c || AttributesAt(v, j) == LONG_NAME
    ensures FirstMatching(v, [c], i)
  {
    OneLetter(c);
    hide InfoAt, AttributesAt, WellFormed, NameOf, ExtOf, Padded;
  }

  /** A is not found in the long-name entry but in the one behind it; the deleted file is not
      found by its name as it stands. */
  lemma SampleFound(v: Volume)
    requires v == Sample()
    ensures FirstMatching(v, [0x41], 2) && FirstMatching(v, [0x42], 3)
    ensures WellFormed([ENTRY_DELETED]) && InfoAt(v, 1).name == NameOf([ENTRY_DELETED]) && !Matches(v, 1, [ENTRY_DELETED])
  {
    hide Sample, InfoAt, AttributesAt, FirstMatching, Padded, Spaces, Covers, Ends, Fields, ClusterSize, WellFormed, NameOf, ExtOf;
    hide FatEntry, IsCluster, ClusterOffset;
    SampleChain(v);
    SampleEntry(v, 0);
    SampleEntry(v, 1);
    SampleEntry(v, 2);
    SampleEntry(v, 3);
    OneLetter(Letter(0));
    OneLetter(Letter(1));
    FoundAt(v, 0x41, 2);
    FoundAt(v, 0x42, 3);
  }

  /** File A fits its chain but fills less of it than the loader reads, so it is refused; file B
      is longer than its chain and accepted. */
  lemma LoaderFails(v: Volume)
    requires v == Sample()
    ensures Fields(v) && Covers(v, 2, 2) && Ends(v, 2, 2) && |Content(v, 2, 2)| == 1024
    ensures FirstMatching(v, [0x41], 2) && FirstMatching(v, [0x42], 3)
    ensures var a, b := InfoAt(v, 2), InfoAt(v, 3);
            && a.cluster == 2 && a.fileSize == 100 && !Accepted(v, a, 2)
            && b.cluster == 2 && b.fileSize == 2000 && Accepted(v, b, 2)
  {
    hide Sample, InfoAt, FirstMatching, Covers, Ends, Content, FatEntry, ClustersFor, ClusterSize, Padded, IsCluster, ClusterOffset;
    SampleFound(v);
    SampleChain(v);
    SampleEntry(v, 2);
    SampleEntry(v, 3);
    ContentLength(v, 2, 2);
    Counts();
  }

  lemma Counts()
    ensures ClustersFor(100, 512) == 1 && ClustersFor(2000, 512) == 4
  {
  }

  // ------------------------------------------------------------------------- reading it

  lemma SampleContent(v: Volume)
    requires v == Sample()
    ensures Covers(v, 2, 2) && |Content(v, 2, 2)| == 1024
    ensures forall k :: 0 <= k < 1024 ==> Content(v, 2, 2)[k] == if k < 512 then 0x61 else 0x62
  {
    SampleChain(v);
    assert forall k :: 0 <= k < 512 ==> Cluster(v, 2)[k] == 0x61;
    assert forall k :: 0 <= k < 512 ==> Cluster(v, 3)[k] == 0x62;
    hide FatEntry, IsCluster, ClusterSize, Sample, ClusterOffset, Cluster;
    TwoClusters(v);
  }

  lemma TwoClusters(v: Volume)
    requires Covers(v, 2, 2) && FatEntry(v, 2) == 3 && IsCluster(v, 2) && IsCluster(v, 3)
    ensures Content(v, 2, 2) == Cluster(v, 2) + Cluster(v, 3)
  {
    hide FatEntry, IsCluster, Cluster;
    assert Content(v, 3, 1) == Cluster(v, 3) + Content(v, FatEntry(v, 3), 0);
  }

  /** The kernel's reader, at the last byte of the first cluster. */
  method ReadSample(v: Volume) returns (bytes: seq<byte>)
    requires v == Sample()
    ensures bytes == [0x61, 0x62]
  {
    hide Sample, FatEntry, IsCluster, ClusterOffset, Cluster, Covers, Ends, Content, SampleByte;
    SampleChain(v);
    SampleContent(v);
    var buffer := new byte[2](_ => 0);
    var n := ReadRawData(v, 2, buffer, 511, 2, 2);
    ghost var content := Content(v, 2, 2);
    assert content[511..513] == [0x61, 0x62];
    bytes := buffer[..];
  }
}
