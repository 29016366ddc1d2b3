/** The FCB and descriptor tables of file.c and the file pointers of the processes, with every
    place that changes a reference count: open_file, close_file, fork and wait. */
module FileTables {
  import opened Common
  import opened Fat
  import opened Directory
  import opened Scheduler
  import opened FileCounts

  /** The pointers from position c on, n of them, are those from position p on. */
  function WithCopied(files: seq<int>, c: nat, p: nat, n: nat): (r: seq<int>)
    requires c + n <= |files| && p + n <= |files|
    ensures |r| == |files|
  {
    seq(|files|, k requires 0 <= k < |files| => if c <= k < c + n then files[p + (k - c)] else files[k])
  }

  function WithCleared(files: seq<int>, c: nat, n: nat): (r: seq<int>)
    requires c + n <= |files|
    ensures |r| == |files|
  {
    seq(|files|, k requires 0 <= k < |files| => if c <= k < c + n then NULL else files[k])
  }

  lemma CopiedNext(files: seq<int>, c: nat, p: nat, n: nat)
    requires c + n < |files| && p + n < |files|
    ensures WithCopied(files, c, p, 0) == files
    ensures WithCopied(files, c, p, n)[c + n] == files[c + n]
    ensures WithCopied(files, c, p, n + 1) == WithCopied(files, c, p, n)[c + n := files[p + n]]
  {
  }

  lemma CopiedAt(files: seq<int>, c: nat, p: nat, i: nat, n: nat)
    requires i < n && c + n <= |files| && p + n <= |files| && (c + n <= p || p + n <= c)
    ensures WithCopied(files, c, p, n)[c + i] == files[p + i] == WithCopied(files, c, p, i)[p + i]
    ensures WithCopied(files, c, p, i)[c + i] == files[c + i]
  {
  }

  lemma ClearedNext(files: seq<int>, c: nat, n: nat)
    requires c + n < |files|
    ensures WithCleared(files, c, 0) == files
    ensures WithCleared(files, c, n)[c + n] == files[c + n]
    ensures WithCleared(files, c, n + 1) == WithCleared(files, c, n)[c + n := NULL]
  {
  }

  /** The first of process p's file pointers. */
  function First(p: nat): nat {
    p * FILES_PER_PROC
  }

  ghost predicate HasFreePointer(files: seq<int>, p: nat)
    requires First(p) + FILES_PER_PROC <= |files|
  {
    exists k :: First(p) <= k < First(p) + FILES_PER_PROC && files[k] == NULL
  }

  class FileTables {
    const volume: Volume
    const fcbs: array<Fcb>
    const descs: array<Desc>
    /** The file pointers of all processes, 100 for each; a pointer is an index into descs. */
    const files: array<int>

    ghost predicate Sized() {
      fcbs.Length == FCBS && descs.Length == DESCS && files.Length == SLOTS && Fields(volume)
    }

    ghost predicate Valid()
      reads fcbs, descs, files
    {
      Sized() && CountsOk(Infos(volume), fcbs[..], descs[..], files[..])
    }

    /** init_fs, and processes without files */
    constructor (v: Volume)
      requires Fields(v)
      ensures Valid() && volume == v && fresh(fcbs) && fresh(descs) && fresh(files)
      ensures forall k :: 0 <= k < files.Length ==> files[k] == NULL
    {
      volume := v;
      fcbs := new Fcb[FCBS](_ => Fcb(FileInfo([], [], 0, 0), 0, 0));
      descs := new Desc[DESCS](_ => Desc(NULL, 0, 0));
      files := new int[SLOTS](_ => NULL);
      new;
      NothingOpen(Infos(volume), fcbs[..], descs[..], files[..]);
    }

    method GetFcb(index: nat) returns (i: nat)
      requires Sized() && index < volume.rootEntries
      modifies fcbs
      ensures index < fcbs.Length && index < |Infos(volume)| && i == index
      ensures fcbs[..] == old(fcbs[..])[index := if old(fcbs[index]).count == 0 then Fcb(Infos(volume)[index], index, 1)
                                                 else old(fcbs[index]).(count := old(fcbs[index]).count + 1)]
    {
      hide InfoAt;
      if fcbs[index].count == 0 {
        fcbs[index] := fcbs[index].(dirIndex := index, file := InfoAt(volume, index));
      }
      fcbs[index] := fcbs[index].(count := fcbs[index].count + 1);
      i := index;
    }

    /** A descriptor whose fcb is NULL; there always is one. */
    method FindDescriptor() returns (d: int)
      requires Valid()
      ensures 0 <= d < descs.Length && descs[d].fcb == NULL
    {
      d := -1;
      for i := 0 to descs.Length
        invariant d == -1 && forall k :: 0 <= k < i ==> descs[k].fcb != NULL
      {
        if descs[i].fcb == NULL {
          d := i;
          break;
        }
      }
      DescriptorTableNeverFull(Infos(volume), fcbs[..], descs[..], files[..]);
    }

    /** Fails exactly when the process has 100 files open or there is no such file. */
    method OpenFile(p: nat, path: seq<byte>) returns (fd: int)
      requires Valid() && p < NUM_PROC && 0 !in path
      modifies fcbs, descs, files
      ensures Valid()
      ensures fd == -1 <==> !(HasFreePointer(old(files[..]), p) && Exists(volume, path))
      ensures fd == -1 ==> fcbs[..] == old(fcbs[..]) && descs[..] == old(descs[..]) && files[..] == old(files[..])
      ensures fd != -1 ==> OpenGives(volume, path, p, fd, old(descs[..]), old(files[..]), fcbs[..], descs[..], files[..])
    {
      hide InfoAt, Matches, DescsOk, FcbsOk, WellFormed;
      fd := -1;
      for i := 0 to FILES_PER_PROC
        invariant fd == -1 && forall k :: First(p) <= k < First(p) + i ==> files[k] != NULL
      {
        if files[First(p) + i] == NULL {
          fd := i;
          break;
        }
      }
      if fd == -1 {
        return;
      }
      var d := FindDescriptor();
      var index := SearchFile(volume, path);
      if index == NOT_FOUND {
        return -1;
      }
      ghost var fcbs0, descs0, files0 := fcbs[..], descs[..], files[..];
      NotInUse(Infos(volume), fcbs0, descs0, files0, d);
      var x := GetFcb(index);
      descs[d] := Desc(x, 0, 1);
      files[First(p) + fd] := d;
      assert descs[..] == descs0[d := Desc(x, 0, 1)] && files[..] == files0[First(p) + fd := d];
      OpenPointer(Infos(volume), fcbs0, descs0, files0, First(p) + fd, d, x, fcbs[..], descs[..]);
      OpenedSays(Infos(volume), fcbs[..], descs[..], files[..], d);
    }

    /** One pointer more to a descriptor in use. */
    method AddCounts(d: nat, ghost k: nat, ghost counted: seq<int>)
      requires Sized() && CountsOk(Infos(volume), fcbs[..], descs[..], counted)
      requires k < |counted| && counted[k] == NULL && d < descs.Length && 0 <= descs[d].fcb < fcbs.Length
      modifies fcbs, descs
      ensures CountsOk(Infos(volume), fcbs[..], descs[..], counted[k := d])
      ensures forall e :: 0 <= e < descs.Length ==> descs[e].position == old(descs[e]).position
    {
      hide DescsOk, FcbsOk, Infos, Targets;
      ghost var fcbs0, descs0 := fcbs[..], descs[..];
      descs[d] := descs[d].(count := descs[d].count + 1);
      var x := descs[d].fcb;
      fcbs[x] := fcbs[x].(count := fcbs[x].count + 1);
      AddPointer(Infos(volume), fcbs0, descs0, counted, k, d, fcbs[..], descs[..]);
    }

    /** One pointer less; the ASSERT in put_fcb never fails. */
    method DropCounts(d: nat, ghost k: nat, ghost counted: seq<int>)
      requires Sized() && CountsOk(Infos(volume), fcbs[..], descs[..], counted) && k < |counted| && counted[k] == d
      modifies fcbs, descs
      ensures CountsOk(Infos(volume), fcbs[..], descs[..], counted[k := NULL])
      ensures d < descs.Length && descs[..] == old(descs[..])[d := descs[d]]
    {
      hide DescsOk, FcbsOk, Infos, Targets;
      ghost var fcbs0, descs0 := fcbs[..], descs[..];
      PointerInUse(Infos(volume), fcbs0, descs0, counted, k);
      var x := descs[d].fcb;
      fcbs[x] := fcbs[x].(count := fcbs[x].count - 1);
      descs[d] := descs[d].(count := descs[d].count - 1);
      if descs[d].count == 0 {
        descs[d] := descs[d].(fcb := NULL);
      }
      DropPointer(Infos(volume), fcbs0, descs0, counted, k, fcbs[..], descs[..]);
    }

    method CloseFile(p: nat, fd: nat)
      requires Valid() && p < NUM_PROC && fd < FILES_PER_PROC && files[First(p) + fd] != NULL
      modifies fcbs, descs, files
      ensures Valid() && files[..] == old(files[..])[First(p) + fd := NULL]
    {
      hide DescsOk, FcbsOk, Infos, Targets;
      PointerInUse(Infos(volume), fcbs[..], descs[..], files[..], First(p) + fd);
      DropCounts(files[First(p) + fd], First(p) + fd, files[..]);
      files[First(p) + fd] := NULL;
    }

    /** fork's part: the child gets the parent's pointers, and every one of them is counted. */
    method CopyFiles(child: nat, parent: nat)
      requires Valid() && child < NUM_PROC && parent < NUM_PROC && child != parent
      requires forall k :: First(child) <= k < First(child) + FILES_PER_PROC ==> files[k] == NULL
      modifies fcbs, descs, files
      ensures Valid() && files[..] == WithCopied(old(files[..]), First(child), First(parent), FILES_PER_PROC)
      ensures forall d :: 0 <= d < descs.Length ==> descs[d].position == old(descs[d]).position
      ensures forall fd, d, size :: Names(Reader(parent, fd, size), d) ==> Names(Reader(child, fd, size), d)
    {
      hide CountsOk, WithCopied, Infos, Targets;
      ghost var files0 := files[..];
      ghost var c, q := First(child), First(parent);
      CopyPointers(First(child), First(parent));
      forall fd, d: nat, size | Names(Reader(parent, fd, size), d)
        ensures Names(Reader(child, fd, size), d)
      {
        CopiedSlot(files0, child, parent, fd);
      }
      CopiedNext(files0, c, q, 0);
      for i := 0 to FILES_PER_PROC
        invariant CountsOk(Infos(volume), fcbs[..], descs[..], WithCopied(files0, c, q, i))
        invariant forall d :: 0 <= d < descs.Length ==> descs[d].position == old(descs[d]).position
        invariant files[..] == WithCopied(files0, c, q, FILES_PER_PROC)
        modifies fcbs, descs
      {
        ghost var counted := WithCopied(files0, c, q, i);
        CopiedNext(files0, c, q, i);
        CopiedAt(files0, c, q, i, FILES_PER_PROC);
        var d := files[First(child) + i];
        if d != NULL {
          PointerInUse(Infos(volume), fcbs[..], descs[..], counted, q + i);
          AddCounts(d, c + i, counted);
        } else {
          assert counted[c + i := NULL] == counted;
        }
      }
    }

    /** memcpy of 100 file pointers */
    method CopyPointers(c: nat, q: nat)
      requires Sized() && c + FILES_PER_PROC <= SLOTS && q + FILES_PER_PROC <= SLOTS
      requires c + FILES_PER_PROC <= q || q + FILES_PER_PROC <= c
      modifies files
      ensures files[..] == WithCopied(old(files[..]), c, q, FILES_PER_PROC)
    {
      forall i | 0 <= i < FILES_PER_PROC {
        files[c + i] := files[q + i];
      }
    }

    /** memset of 100 file pointers */
    method ClearPointers(c: nat)
      requires Sized() && c + FILES_PER_PROC <= SLOTS
      modifies files
      ensures files[..] == WithCleared(old(files[..]), c, FILES_PER_PROC)
    {
      forall i | 0 <= i < FILES_PER_PROC {
        files[c + i] := NULL;
      }
    }

    /** wait's part: the killed process's pointers are uncounted, then cleared. */
    method ReleaseFiles(p: nat)
      requires Valid() && p < NUM_PROC
      modifies fcbs, descs, files
      ensures Valid() && files[..] == WithCleared(old(files[..]), First(p), FILES_PER_PROC)
    {
      hide CountsOk, WithCleared, Infos, Targets;
      ghost var files0, c := files[..], First(p);
      ClearedNext(files0, c, 0);
      for i := 0 to FILES_PER_PROC
        invariant CountsOk(Infos(volume), fcbs[..], descs[..], WithCleared(files0, c, i))
        invariant files[..] == files0
        modifies fcbs, descs
      {
        ghost var counted := WithCleared(files0, c, i);
        ClearedNext(files0, c, i);
        if files[First(p) + i] != NULL {
          PointerInUse(Infos(volume), fcbs[..], descs[..], counted, c + i);
          DropCounts(files[First(p) + i], c + i, counted);
        } else {
          assert counted[c + i := NULL] == counted;
        }
      }
      ClearPointers(First(p));
    }

    /** File slot fd of process p names an open file.  If the read gets to its chain, that has a
        byte at the position, and n clusters that hold what is asked for or are all it has. */
    ghost predicate Readable(p: nat, fd: nat, size: nat, n: nat)
      reads fcbs, descs, files
    {
      && p < NUM_PROC && fd < FILES_PER_PROC && files.Length == SLOTS && 0 <= files[First(p) + fd] < descs.Length
      && var desc := descs[files[First(p) + fd]];
         && 0 <= desc.fcb < fcbs.Length && size + ClusterSize(volume) <= U32 && desc.position + size < U32
         && var f := fcbs[desc.fcb].file;
            && Fields(volume) && Covers(volume, f.cluster, n)
            && (desc.position + size <= f.fileSize ==>
                  && (desc.position < |Content(volume, f.cluster, n)| || desc.position == 0)
                  && (desc.position + size <= |Content(volume, f.cluster, n)| || Ends(volume, f.cluster, n)))
    }

    /** read_file: size bytes from the descriptor's position on, or as many as the chain still has,
        and the position moves behind them; or nothing, if the file ends before. */
    method ReadFile(p: nat, fd: nat, buffer: array<byte>, size: nat, ghost n: nat) returns (r: int)
      requires Valid() && Readable(p, fd, size, n) && size <= buffer.Length
      modifies buffer, descs
      ensures Valid()
      ensures files[First(p) + fd] < descs.Length
      ensures var d := files[First(p) + fd];
              && 0 <= old(descs[d]).fcb < fcbs.Length
              && var f, at := fcbs[old(descs[d]).fcb].file, old(descs[d]).position;
                 && ReadGives(volume, f, at, size, old(buffer[..]), n, r, buffer[..])
                 && descs[..] == old(descs[..])[d := old(descs[d]).(position := if r == -1 then at else at + r)]
    {
      hide DescsOk, FcbsOk, Infos, Targets, Covers, Content, ClusterSize, Add32;
      var d := files[First(p) + fd];
      ghost var fcbs0, descs0, files0 := fcbs[..], descs[..], files[..];
      var position := descs[d].position;
      var f := fcbs[descs[d].fcb].file;
      NoWrap(position, size);
      if Add32(position, size) > f.fileSize {
        assert descs[..] == descs0[d := descs0[d].(position := position)];
        return -1;
      }
      r := ReadRawData(volume, f.cluster, buffer, position, size, n);
      descs[d] := descs[d].(position := descs[d].position + r);
      assert descs[..] == descs0[d := descs0[d].(position := position + r)];
      PositionDoesNotCount(Infos(volume), fcbs0, descs0, files0, descs[..]);
    }

    /** Reads of these sizes, in this order, by processes whose file slots name one descriptor, as
        a parent and its children do: the buffers joined are the consecutive bytes of the file
        from the shared position on, and the position ends behind them. */
    method ReadInTurns(readers: seq<Reader>, ghost d: nat, ghost n: nat) returns (bytes: seq<byte>)
      requires Valid() && d < descs.Length && 0 <= descs[d].fcb < fcbs.Length
      requires forall i :: 0 <= i < |readers| ==> Names(readers[i], d) && readers[i].size + ClusterSize(volume) <= U32
      requires var f, total := fcbs[descs[d].fcb].file, Total(readers, |readers|);
               && Covers(volume, f.cluster, n) && descs[d].position + total <= f.fileSize <= |Content(volume, f.cluster, n)|
               && descs[d].position + total < U32
               // a read of length 0 at the end of the last cluster trips the ASSERT of read_raw_data
               && ((forall i :: 0 <= i < |readers| ==> readers[i].size > 0)
                   || descs[d].position + total < |Content(volume, f.cluster, n)|)
      modifies descs
      ensures Valid() && 0 <= old(descs[d]).fcb < fcbs.Length && Covers(volume, fcbs[old(descs[d]).fcb].file.cluster, n)
      ensures var f, at, total := fcbs[old(descs[d]).fcb].file, old(descs[d]).position, Total(readers, |readers|);
              && at + total <= |Content(volume, f.cluster, n)|
              && bytes == Content(volume, f.cluster, n)[at..at + total]
              && descs[..] == old(descs[..])[d := old(descs[d]).(position := at + total)]
    {
      hide CountsOk, Covers, Content, ClusterSize, Fields, Infos, Total;
      bytes := [];
      ghost var descs0, f, at := descs[..], fcbs[descs[d].fcb].file, descs[d].position;
      ghost var content := Content(volume, f.cluster, n);
      TotalOfNone(readers);
      for i := 0 to |readers|
        invariant Valid() && descs[..] == descs0[d := descs0[d].(position := at + Total(readers, i))]
        invariant at + Total(readers, i) <= at + Total(readers, |readers|) <= |content|
        invariant bytes == content[at..at + Total(readers, i)]
        modifies descs
      {
        TotalGrows(readers, i);
        assert descs[d] == descs0[d].(position := at + Total(readers, i)) && Names(readers[i], d);
        var read := ReadTurn(readers[i], d, n);
        SlicesJoin(content, at, at + Total(readers, i), at + Total(readers, i + 1));
        bytes := bytes + read;
      }
    }

    method ReadTurn(reader: Reader, ghost d: nat, ghost n: nat) returns (bytes: seq<byte>)
      requires Valid() && d < descs.Length && 0 <= descs[d].fcb < fcbs.Length
      requires Names(reader, d) && reader.size + ClusterSize(volume) <= U32
      requires var f, end := fcbs[descs[d].fcb].file, descs[d].position + reader.size;
               && Covers(volume, f.cluster, n) && end <= f.fileSize <= |Content(volume, f.cluster, n)| && end < U32
               && (reader.size > 0 || end < |Content(volume, f.cluster, n)|)
      modifies descs
      ensures Valid() && 0 <= old(descs[d]).fcb < fcbs.Length
      ensures var f, at := fcbs[old(descs[d]).fcb].file, old(descs[d]).position;
              && Covers(volume, f.cluster, n) && at + reader.size <= |Content(volume, f.cluster, n)|
              && bytes == Content(volume, f.cluster, n)[at..at + reader.size]
              && descs[..] == old(descs[..])[d := old(descs[d]).(position := at + reader.size)]
    {
      hide CountsOk, Covers, Content, ClusterSize, Fields, Infos, Total;
      ghost var content, at := Content(volume, fcbs[descs[d].fcb].file.cluster, n), descs[d].position;
      var buffer := new byte[reader.size](_ => 0);
      var r := ReadFile(reader.proc, reader.fd, buffer, reader.size, n);
      HoldsAll(buffer[..], content, at, reader.size);
      bytes := buffer[..];
    }

    /** The file slot of the reader names descriptor d. */
    ghost predicate Names(reader: Reader, d: nat)
      reads files
    {
      && reader.proc < NUM_PROC && reader.fd < FILES_PER_PROC
      && files.Length == SLOTS && files[First(reader.proc) + reader.fd] == d
    }
  }

  /** What open_file makes of the descriptors and file pointers: the lowest free slot of process p,
      which is fd, names a descriptor nobody used, at position 0 of the first matching file. */
  ghost predicate OpenGives(v: Volume, path: seq<byte>, p: nat, fd: int, descs: seq<Desc>, files: seq<int>,
                            fcbs': seq<Fcb>, descs': seq<Desc>, files': seq<int>) {
    && p < NUM_PROC && |files| == |files'| == SLOTS && |descs| == |descs'| && 0 <= fd < FILES_PER_PROC
    && (forall i :: First(p) <= i < First(p) + fd ==> files[i] != NULL)
    && var k := First(p) + fd;
       && files[k] == NULL && 0 <= files'[k] < |descs| && files' == files[k := files'[k]]
       && var d := files'[k];
          && descs[d].count == 0 && descs'[d].count == 1 && descs'[d].position == 0 && descs' == descs[d := descs'[d]]
          && 0 <= descs'[d].fcb < v.rootEntries && FirstMatching(v, path, descs'[d].fcb)
          && descs'[d].fcb < |fcbs'| && fcbs'[descs'[d].fcb].file == InfoAt(v, descs'[d].fcb)
  }

  /** What read_file of size bytes at position at of file f returns and leaves in the buffer. */
  ghost predicate ReadGives(v: Volume, f: FileInfo, at: nat, size: nat, b0: seq<byte>, n: nat, r: int, b: seq<byte>) {
    && Fields(v) && Covers(v, f.cluster, n)
    && if at + size > f.fileSize then r == -1 && b == b0
       else
         var content := Content(v, f.cluster, n);
         at <= |content| && r == Min(size, |content| - at) && Fat.Holds(b, content, at, r, b0)
  }

  /** A process reading size bytes through one of its file slots. */
  datatype Reader = Reader(proc: nat, fd: nat, size: nat)

  /** The bytes that the first k of them ask for. */
  function Total(readers: seq<Reader>, k: nat): nat
    requires k <= |readers|
  {
    if k == 0 then 0 else Total(readers, k - 1) + readers[k - 1].size
  }

  lemma TotalOfNone(readers: seq<Reader>)
    ensures Total(readers, 0) == 0
  {
  }

  lemma TotalGrows(readers: seq<Reader>, k: nat)
    requires k < |readers|
    ensures Total(readers, k + 1) == Total(readers, k) + readers[k].size <= Total(readers, |readers|)
  {
    TotalMonotone(readers, k + 1, |readers|);
  }

  lemma {:induction false} TotalMonotone(readers: seq<Reader>, j: nat, k: nat)
    requires j <= k <= |readers|
    ensures Total(readers, j) <= Total(readers, k)
  {
    if j < k {
      TotalMonotone(readers, j, k - 1);
    }
  }

  lemma HoldsAll(b: seq<byte>, content: seq<byte>, at: nat, size: nat)
    requires |b| == size && exists b0: seq<byte> :: Fat.Holds(b, content, at, size, b0)
    ensures at + size <= |content| && b == content[at..at + size]
  {
  }

  lemma CopiedSlot(files: seq<int>, child: nat, parent: nat, fd: nat)
    requires |files| == SLOTS && child < NUM_PROC && parent < NUM_PROC && child != parent && fd < FILES_PER_PROC
    ensures var files' := WithCopied(files, First(child), First(parent), FILES_PER_PROC);
            files'[First(child) + fd] == files'[First(parent) + fd] == files[First(parent) + fd]
  {
  }

  lemma NothingOpen(dir: seq<FileInfo>, fcbs: seq<Fcb>, descs: seq<Desc>, files: seq<int>)
    requires forall x :: 0 <= x < |fcbs| ==> fcbs[x].count == 0
    requires forall d :: 0 <= d < |descs| ==> descs[d] == Desc(NULL, 0, 0)
    requires forall k :: 0 <= k < |files| ==> files[k] == NULL
    ensures CountsOk(dir, fcbs, descs, files)
  {
    assert forall v :: v >= 0 ==> v !in files;
    assert Targets(descs, files) == files;
  }

  lemma NotInUse(dir: seq<FileInfo>, fcbs: seq<Fcb>, descs: seq<Desc>, files: seq<int>, d: nat)
    requires CountsOk(dir, fcbs, descs, files) && d < |descs| && descs[d].fcb == NULL
    ensures descs[d].count == 0
  {
  }

  lemma OpenedSays(dir: seq<FileInfo>, fcbs: seq<Fcb>, descs: seq<Desc>, files: seq<int>, d: nat)
    requires CountsOk(dir, fcbs, descs, files) && d < |descs| && descs[d].fcb != NULL
    ensures 0 <= descs[d].fcb < |fcbs| && descs[d].fcb < |dir| && fcbs[descs[d].fcb].file == dir[descs[d].fcb]
  {
    InUse(dir, fcbs, descs, files, d);
  }

  lemma PositionDoesNotCount(dir: seq<FileInfo>, fcbs: seq<Fcb>, descs: seq<Desc>, files: seq<int>, descs': seq<Desc>)
    requires CountsOk(dir, fcbs, descs, files) && |descs'| == |descs|
    requires forall d :: 0 <= d < |descs| ==> descs'[d].fcb == descs[d].fcb && descs'[d].count == descs[d].count
    ensures CountsOk(dir, fcbs, descs', files)
  {
    assert Targets(descs', files) == Targets(descs, files);
  }
}
