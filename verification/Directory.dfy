/** The root directory of the volume, and how a path finds its entry there. */
module Directory {
  import opened Common
  import opened Fat

  const ENTRY_EMPTY := 0
  const ENTRY_DELETED := 0xe5
  const LONG_NAME := 0xf
  const DOT: byte := 0x2e
  const SLASH: byte := 0x2f
  const SPACE: byte := 0x20

  /** What a directory entry says about its file, and an FCB repeats. */
  datatype FileInfo = FileInfo(name: seq<byte>, ext: seq<byte>, cluster: nat, fileSize: nat)

  /** get_root_directory, in 32-bit arithmetic, as an offset from the BPB */
  function EntryOffset(v: Volume, i: nat): nat {
    (v.reservedSectors + v.fatCount * v.sectorsPerFat) * v.bytesPerSector % U32 + DIR_ENTRY_SIZE * i
  }

  function InfoAt(v: Volume, i: nat): (f: FileInfo)
    ensures |f.name| == 8 && |f.ext| == 3
  {
    var at := EntryOffset(v, i);
    FileInfo(Bytes(v, at, 8), Bytes(v, at + 8, 3), Word16(v, at + 26), Word32(v, at + 28))
  }

  // ------------------------------------------------------------ the layout of a volume

  /** Cluster c ends below 4 GB, so its offset has not wrapped. */
  predicate Below4GB(v: Volume, c: nat)
    requires c >= 2
  {
    v.reservedSectors * v.bytesPerSector + v.fatCount * v.sectorsPerFat * v.bytesPerSector
    + v.rootEntries * DIR_ENTRY_SIZE + (c - 1) * ClusterSize(v) < U32
  }

  /** The FATs follow the reserved sectors, the directory entries follow the FATs, cluster 2 begins
      where the directory ends and every other cluster where the one before ends. */
  lemma Layout(v: Volume, c: nat)
    requires c >= 2 && Below4GB(v, c)
    ensures FatOffset(v, 0) == v.reservedSectors * v.bytesPerSector && FatOffset(v, c) == FatOffset(v, 0) + 2 * c
    ensures EntryOffset(v, 0) == FatOffset(v, 0) + v.fatCount * (v.sectorsPerFat * v.bytesPerSector)
    ensures EntryOffset(v, v.rootEntries) == EntryOffset(v, 0) + DIR_ENTRY_SIZE * v.rootEntries
    ensures ClusterOffset(v, 2) == EntryOffset(v, v.rootEntries)
    ensures c > 2 ==> ClusterOffset(v, c) == ClusterOffset(v, c - 1) + ClusterSize(v)
  {
    hide ClusterSize, Below4GB, ClusterOffset;
    ClusterAt(v, c);
    BelowToo(v, 2, c);
    ClusterAt(v, 2);
    DirectoryAt(v);
    if c > 2 {
      BelowToo(v, c - 1, c);
      ClusterAt(v, c - 1);
      NextMultiple(c - 3, ClusterSize(v));
    }
  }

  /** Where the directory begins, and where it ends */
  function DirectoryStart(v: Volume): nat {
    v.reservedSectors * v.bytesPerSector + v.fatCount * (v.sectorsPerFat * v.bytesPerSector)
  }

  lemma Products(r: nat, f: nat, s: nat, b: nat)
    ensures (r + f * s) * b == r * b + f * s * b && f * s * b == f * (s * b)
  {
  }

  lemma ClusterAt(v: Volume, c: nat)
    requires c >= 2 && Below4GB(v, c)
    ensures ClusterOffset(v, c) == DirectoryStart(v) + DIR_ENTRY_SIZE * v.rootEntries + (c - 2) * ClusterSize(v)
    ensures DirectoryStart(v) < U32
  {
    Products(v.reservedSectors, v.fatCount, v.sectorsPerFat, v.bytesPerSector);
    LessMultiple(c - 2, c - 1, ClusterSize(v));
    TimesAtLeast(c - 2, ClusterSize(v));
    hide ClusterSize;
  }

  lemma DirectoryAt(v: Volume)
    requires DirectoryStart(v) < U32
    ensures EntryOffset(v, 0) == DirectoryStart(v) && EntryOffset(v, v.rootEntries) == DirectoryStart(v) + DIR_ENTRY_SIZE * v.rootEntries
  {
    Products(v.reservedSectors, v.fatCount, v.sectorsPerFat, v.bytesPerSector);
  }

  lemma TimesAtLeast(n: nat, c: nat)
    ensures 0 <= n * c && (n > 0 ==> c <= n * c)
  {
  }

  /** Hence a cluster overlaps no other cluster, no directory entry and, below the end of the
      first FAT, no FAT entry. */
  lemma {:induction false} ClustersApart(v: Volume, c: nat, c': nat)
    requires 2 <= c < c' && Below4GB(v, c')
    ensures ClusterOffset(v, c) + ClusterSize(v) <= ClusterOffset(v, c')
    ensures forall i :: 0 <= i < v.rootEntries ==> EntryOffset(v, i) + DIR_ENTRY_SIZE <= ClusterOffset(v, c)
    ensures forall e :: 0 <= e && 2 * e + 2 <= v.sectorsPerFat * v.bytesPerSector && v.fatCount > 0 ==>
              FatOffset(v, e) + 2 <= EntryOffset(v, 0) <= ClusterOffset(v, c)
    decreases c'
  {
    BelowToo(v, c, c');
    BelowToo(v, c' - 1, c');
    Layout(v, c');
    Layout(v, 2) by { BelowToo(v, 2, c'); }
    TimesAtLeast(v.fatCount, v.sectorsPerFat * v.bytesPerSector);
    ClustersBehind(v, c);
    hide ClusterOffset, EntryOffset, Below4GB, ClusterSize;
    if c < c' - 1 {
      ClustersApart(v, c, c' - 1);
    }
  }

  lemma BelowToo(v: Volume, c: nat, c': nat)
    requires 2 <= c <= c' && Below4GB(v, c')
    ensures Below4GB(v, c)
  {
    LessMultiple(c - 1, c' - 1, ClusterSize(v));
  }

  lemma {:induction false} ClustersBehind(v: Volume, c: nat)
    requires 2 <= c && Below4GB(v, c)
    ensures ClusterOffset(v, 2) <= ClusterOffset(v, c)
    decreases c
  {
    hide ClusterOffset, EntryOffset, Below4GB, ClusterSize;
    if c > 2 {
      BelowToo(v, c - 1, c);
      Layout(v, c);
      ClustersBehind(v, c - 1);
    }
  }

  function AttributesAt(v: Volume, i: nat): byte {
    Byte(v, EntryOffset(v, i) + 11)
  }

  function Infos(v: Volume): seq<FileInfo> {
    seq(v.rootEntries, i requires 0 <= i => InfoAt(v, i))
  }

  /** The position of the first dot, or the length. */
  function BaseLength(path: seq<byte>): (n: nat)
    ensures n <= |path| && DOT !in path[..n] && (n < |path| ==> path[n] == DOT)
  {
    if path == [] || path[0] == DOT then 0 else 1 + BaseLength(path[1..])
  }

  /** An 8.3 name: at most 8 characters before the first dot and 3 behind it, none a slash. */
  predicate WellFormed(path: seq<byte>) {
    BaseLength(path) <= 8 && |path| <= BaseLength(path) + 4 && SLASH !in path
  }

  function Padded(s: seq<byte>, n: nat): (r: seq<byte>)
    requires |s| <= n
    ensures |r| == n
  {
    s + Spaces(n - |s|)
  }

  function Spaces(n: nat): (r: seq<byte>)
    ensures |r| == n && forall i :: 0 <= i < n ==> r[i] == SPACE
  {
    seq<byte>(n, _ => SPACE)
  }

  function NameOf(path: seq<byte>): seq<byte>
    requires WellFormed(path)
  {
    Padded(path[..BaseLength(path)], 8)
  }

  function ExtOf(path: seq<byte>): seq<byte>
    requires WellFormed(path)
  {
    Padded(if BaseLength(path) == |path| then [] else path[BaseLength(path) + 1..], 3)
  }

  /** Every name and extension can be asked for, by the path that joins them with a dot. */
  lemma {:induction false} JoinedPath(base: seq<byte>, ext: seq<byte>)
    requires |base| <= 8 && |ext| <= 3 && DOT !in base && SLASH !in base && SLASH !in ext
    ensures var path := base + [DOT] + ext;
            BaseLength(path) == |base| && WellFormed(path) && NameOf(path) == Padded(base, 8) && ExtOf(path) == Padded(ext, 3)
  {
    DotAt(base, ext);
  }

  lemma {:induction false} DotAt(base: seq<byte>, ext: seq<byte>)
    requires DOT !in base
    ensures BaseLength(base + [DOT] + ext) == |base|
  {
    if base != [] {
      assert (base + [DOT] + ext)[1..] == base[1..] + [DOT] + ext;
      DotAt(base[1..], ext);
    }
  }

  /** path[i] of a C string that ends behind its last character */
  function CharAt(path: seq<byte>, i: nat): byte {
    if i < |path| then path[i] else 0
  }

  lemma SpaceFilled(s: seq<byte>, c: byte, n: nat)
    requires |s| < n
    ensures Padded(s, n)[|s| := c] == Padded(s + [c], n)
  {
  }

  lemma NoCharacters(n: nat)
    ensures Padded([], n) == Spaces(n)
  {
  }

  /** split_path; name and ext start out as spaces. */
  method SplitPath(path: seq<byte>) returns (ok: bool, name: seq<byte>, ext: seq<byte>)
    requires 0 !in path
    ensures ok <==> WellFormed(path)
    ensures ok ==> name == NameOf(path) && ext == ExtOf(path)
  {
    hide BaseLength, Spaces, Padded;
    name, ext := Spaces(8), Spaces(3);
    NoCharacters(8);
    NoCharacters(3);
    ghost var n := BaseLength(path);
    var i := 0;
    assert path[..0] == [];
    while i < 8 && CharAt(path, i) != DOT && CharAt(path, i) != 0
      invariant 0 <= i <= 8 && i <= n && SLASH !in path[..i]
      invariant name == Padded(path[..i], 8)
      decreases 8 - i
    {
      if CharAt(path, i) == SLASH {
        return false, name, ext;
      }
      SpaceFilled(path[..i], path[i], 8);
      name := name[i := path[i]];
      assert path[..i] + [path[i]] == path[..i + 1];
      i := i + 1;
    }
    ghost var tail: seq<byte> := [];
    if CharAt(path, i) == DOT {
      assert i == n;
      i := i + 1;
      var j := 0;
      while j < 3 && CharAt(path, i) != 0
        invariant 0 <= j <= 3 && i == n + 1 + j <= |path| && SLASH !in path[..i]
        invariant tail == path[n + 1..i] && ext == Padded(tail, 3)
        decreases 3 - j
      {
        if CharAt(path, i) == SLASH {
          return false, name, ext;
        }
        SpaceFilled(tail, path[i], 3);
        ext := ext[j := path[i]];
        tail := tail + [path[i]];
        i, j := i + 1, j + 1;
      }
    }
    ok := CharAt(path, i) == 0;
    if ok {
      assert path[..i] == path;
    }
  }

  ghost predicate Matches(v: Volume, i: nat, path: seq<byte>)
    requires WellFormed(path)
  {
    var f := InfoAt(v, i);
    && f.name[0] != ENTRY_EMPTY && f.name[0] != ENTRY_DELETED && AttributesAt(v, i) != LONG_NAME
    && f.name == NameOf(path) && f.ext == ExtOf(path)
  }

  ghost predicate Exists(v: Volume, path: seq<byte>) {
    WellFormed(path) && exists i :: 0 <= i < v.rootEntries && Matches(v, i, path)
  }

  ghost predicate FirstMatching(v: Volume, path: seq<byte>, i: nat) {
    i < v.rootEntries && WellFormed(path) && Matches(v, i, path) && forall j :: 0 <= j < i ==> !Matches(v, j, path)
  }

  /** search_file: the first entry in use with the name and extension asked for. */
  method SearchFile(v: Volume, path: seq<byte>) returns (index: nat)
    requires Fields(v) && 0 !in path
    ensures if index == NOT_FOUND then !Exists(v, path) else FirstMatching(v, path, index)
  {
    hide InfoAt, AttributesAt, NameOf, ExtOf;
    var ok, name, ext := SplitPath(path);
    if ok {
      for i := 0 to v.rootEntries
        invariant forall k :: 0 <= k < i ==> !Matches(v, k, path)
      {
        var f := InfoAt(v, i);
        if f.name[0] == ENTRY_EMPTY || f.name[0] == ENTRY_DELETED {
          continue;
        }
        if AttributesAt(v, i) == LONG_NAME {
          continue;
        }
        if f.name == name && f.ext == ext {
          return i;
        }
      }
    }
    index := NOT_FOUND;
  }
}
