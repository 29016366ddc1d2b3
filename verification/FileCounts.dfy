/** The reference counts of file.c as values: which file descriptors the processes point at,
    and what the counts in the descriptor and FCB tables must be. */
module FileCounts {
  import opened Common
  import opened Directory
  import opened Scheduler

  const FILES_PER_PROC := 100
  const SLOTS := NUM_PROC * FILES_PER_PROC
  const FCBS := 74898         // PAGE_SIZE / sizeof(struct FCB)
  const DESCS := 0x2_0000     // PAGE_SIZE / sizeof(struct FileDesc)
  const NULL := -1

  datatype Fcb = Fcb(file: FileInfo, dirIndex: nat, count: int)

  /** fcb is the index of the FCB, or NULL. */
  datatype Desc = Desc(fcb: int, position: nat, count: int)

  /** How often v occurs in s. */
  function Count(s: seq<int>, v: int): (r: nat)
    ensures r <= |s|
    ensures r > 0 <==> v in s
  {
    if s == [] then 0 else (if s[0] == v then 1 else 0) + Count(s[1..], v)
  }

  lemma {:induction false} CountUpdate(s: seq<int>, k: nat, x: int, v: int)
    requires k < |s|
    ensures Count(s[k := x], v) == Count(s, v) - (if s[k] == v then 1 else 0) + (if x == v then 1 else 0)
  {
    if k == 0 {
      assert s[0 := x][1..] == s[1..];
    } else {
      assert s[k := x][1..] == s[1..][k - 1 := x];
      CountUpdate(s[1..], k - 1, x, v);
    }
  }

  /** Every pointer in files is NULL or names a descriptor in use, and that an FCB. */
  ghost predicate Pointers(fcbs: seq<Fcb>, descs: seq<Desc>, files: seq<int>) {
    && (forall k :: 0 <= k < |files| ==> files[k] == NULL || 0 <= files[k] < |descs|)
    && (forall d :: 0 <= d < |descs| ==> descs[d].fcb == NULL || 0 <= descs[d].fcb < |fcbs|)
  }

  /** For each file pointer the FCB that it reaches. */
  function Targets(descs: seq<Desc>, files: seq<int>): (r: seq<int>)
    requires forall k :: 0 <= k < |files| ==> files[k] == NULL || 0 <= files[k] < |descs|
    ensures |r| == |files|
  {
    seq(|files|, k requires 0 <= k < |files| => if files[k] == NULL then NULL else descs[files[k]].fcb)
  }

  /** FileDesc.count is the number of pointers to the descriptor, 0 exactly when its fcb is NULL. */
  ghost predicate DescsOk(descs: seq<Desc>, files: seq<int>) {
    forall d :: 0 <= d < |descs| ==> descs[d].count == Count(files, d) && (descs[d].fcb == NULL <==> descs[d].count == 0)
  }

  /** FCB.count is the number of pointers that reach it; a counted FCB says what its directory
      entry says. */
  ghost predicate FcbsOk(dir: seq<FileInfo>, fcbs: seq<Fcb>, targets: seq<int>) {
    forall x :: 0 <= x < |fcbs| ==>
      && fcbs[x].count == Count(targets, x)
      && (fcbs[x].count > 0 ==> x < |dir| && fcbs[x].file == dir[x] && fcbs[x].dirIndex == x)
  }

  ghost predicate CountsOk(dir: seq<FileInfo>, fcbs: seq<Fcb>, descs: seq<Desc>, files: seq<int>) {
    Pointers(fcbs, descs, files) && DescsOk(descs, files) && FcbsOk(dir, fcbs, Targets(descs, files))
  }

  // ------------------------------------------------------------- one pointer more or less

  lemma DescsAdd(descs: seq<Desc>, files: seq<int>, k: nat, d: nat, descs': seq<Desc>)
    requires DescsOk(descs, files) && k < |files| && files[k] == NULL && d < |descs|
    requires |descs'| == |descs| && descs' == descs[d := descs'[d]] && descs'[d].fcb != NULL
    requires descs'[d].count == descs[d].count + 1
    ensures DescsOk(descs', files[k := d])
  {
    forall e | 0 <= e < |descs'|
      ensures descs'[e].count == Count(files[k := d], e) && (descs'[e].fcb == NULL <==> descs'[e].count == 0)
    {
      CountUpdate(files, k, d, e);
    }
  }

  lemma DescsDrop(descs: seq<Desc>, files: seq<int>, k: nat, descs': seq<Desc>)
    requires DescsOk(descs, files) && k < |files| && 0 <= files[k] < |descs| == |descs'|
    requires var d := files[k];
             descs' == descs[d := descs'[d]] && descs'[d].count == descs[d].count - 1
             && descs'[d].fcb == if descs'[d].count == 0 then NULL else descs[d].fcb
    ensures DescsOk(descs', files[k := NULL]) && descs[files[k]].fcb != NULL
  {
    assert files[k] in files;
    forall e | 0 <= e < |descs'|
      ensures descs'[e].count == Count(files[k := NULL], e) && (descs'[e].fcb == NULL <==> descs'[e].count == 0)
    {
      CountUpdate(files, k, NULL, e);
    }
  }

  lemma FcbsAdd(dir: seq<FileInfo>, fcbs: seq<Fcb>, targets: seq<int>, k: nat, x: nat, fcbs': seq<Fcb>)
    requires FcbsOk(dir, fcbs, targets) && k < |targets| && targets[k] == NULL && x < |fcbs| == |fcbs'|
    requires fcbs' == fcbs[x := fcbs'[x]] && fcbs'[x].count == fcbs[x].count + 1
    requires if fcbs[x].count == 0 then x < |dir| && fcbs'[x].file == dir[x] && fcbs'[x].dirIndex == x
             else fcbs'[x].file == fcbs[x].file && fcbs'[x].dirIndex == fcbs[x].dirIndex
    ensures FcbsOk(dir, fcbs', targets[k := x])
  {
    forall y | 0 <= y < |fcbs'|
      ensures fcbs'[y].count == Count(targets[k := x], y)
    {
      CountUpdate(targets, k, x, y);
    }
  }

  lemma FcbsDrop(dir: seq<FileInfo>, fcbs: seq<Fcb>, targets: seq<int>, k: nat, fcbs': seq<Fcb>)
    requires FcbsOk(dir, fcbs, targets) && k < |targets| && 0 <= targets[k] < |fcbs|
    requires var x := targets[k]; fcbs' == fcbs[x := fcbs[x].(count := fcbs[x].count - 1)]
    ensures FcbsOk(dir, fcbs', targets[k := NULL]) && fcbs[targets[k]].count > 0
  {
    assert targets[k] in targets;
    forall y | 0 <= y < |fcbs'|
      ensures fcbs'[y].count == Count(targets[k := NULL], y)
    {
      CountUpdate(targets, k, NULL, y);
    }
  }

  /** What a new pointer at k to descriptor d costs: one count each. */
  lemma AddPointer(dir: seq<FileInfo>, fcbs: seq<Fcb>, descs: seq<Desc>, files: seq<int>, k: nat, d: nat,
                   fcbs': seq<Fcb>, descs': seq<Desc>)
    requires CountsOk(dir, fcbs, descs, files) && k < |files| && files[k] == NULL && d < |descs| && descs[d].fcb != NULL
    requires descs' == descs[d := descs[d].(count := descs[d].count + 1)]
    requires var x := descs[d].fcb; fcbs' == fcbs[x := fcbs[x].(count := fcbs[x].count + 1)]
    ensures CountsOk(dir, fcbs', descs', files[k := d])
  {
    hide DescsOk, FcbsOk, Count;
    var x := descs[d].fcb;
    DescsAdd(descs, files, k, d, descs');
    InUse(dir, fcbs, descs, files, d);
    FcbsAdd(dir, fcbs, Targets(descs, files), k, x, fcbs');
    assert Targets(descs', files[k := d]) == Targets(descs, files)[k := x];
  }

  lemma InUse(dir: seq<FileInfo>, fcbs: seq<Fcb>, descs: seq<Desc>, files: seq<int>, d: nat)
    requires CountsOk(dir, fcbs, descs, files) && d < |descs| && descs[d].fcb != NULL
    ensures fcbs[descs[d].fcb].count > 0 && descs[d].count > 0
  {
    CountPositive(files, descs, d, descs[d].fcb);
  }

  /** A descriptor in use has a counted FCB. */
  lemma CountPositive(files: seq<int>, descs: seq<Desc>, d: nat, x: int)
    requires d < |descs| && descs[d].fcb == x
    requires forall k :: 0 <= k < |files| ==> files[k] == NULL || 0 <= files[k] < |descs|
    ensures Count(files, d) > 0 ==> Count(Targets(descs, files), x) > 0
  {
    if Count(files, d) > 0 {
      var k :| 0 <= k < |files| && files[k] == d;
      assert Targets(descs, files)[k] == x;
    }
  }

  /** Taking the pointer at k away, as close_file and wait do. */
  lemma DropPointer(dir: seq<FileInfo>, fcbs: seq<Fcb>, descs: seq<Desc>, files: seq<int>, k: nat,
                    fcbs': seq<Fcb>, descs': seq<Desc>)
    requires CountsOk(dir, fcbs, descs, files) && k < |files| && files[k] != NULL
    requires descs[files[k]].fcb != NULL
    requires var d := files[k];
             var n := descs[d].count - 1;
             descs' == descs[d := descs[d].(count := n, fcb := if n == 0 then NULL else descs[d].fcb)]
    requires var x := descs[files[k]].fcb; fcbs' == fcbs[x := fcbs[x].(count := fcbs[x].count - 1)]
    ensures CountsOk(dir, fcbs', descs', files[k := NULL]) && fcbs[descs[files[k]].fcb].count > 0
  {
    hide DescsOk, FcbsOk, Count;
    DescsDrop(descs, files, k, descs');
    FcbsDrop(dir, fcbs, Targets(descs, files), k, fcbs');
    CountIs(descs', files[k := NULL], files[k]);
    NoPointerLeft(descs, files[k := NULL], files[k], descs');
    assert Targets(descs, files[k := NULL]) == Targets(descs, files)[k := NULL];
  }

  lemma CountIs(descs: seq<Desc>, files: seq<int>, d: nat)
    requires DescsOk(descs, files) && d < |descs|
    ensures descs[d].count == Count(files, d) && (descs[d].fcb == NULL <==> Count(files, d) == 0)
  {
  }

  /** A pointer that is not NULL names a descriptor in use. */
  lemma PointerInUse(dir: seq<FileInfo>, fcbs: seq<Fcb>, descs: seq<Desc>, files: seq<int>, k: nat)
    requires CountsOk(dir, fcbs, descs, files) && k < |files| && files[k] != NULL
    ensures 0 <= files[k] < |descs| && 0 <= descs[files[k]].fcb < |fcbs| && descs[files[k]].count > 0
  {
    assert files[k] in files;
  }

  /** A descriptor that loses its FCB is not pointed at any more. */
  lemma NoPointerLeft(descs: seq<Desc>, files: seq<int>, d: nat, descs': seq<Desc>)
    requires forall k :: 0 <= k < |files| ==> files[k] == NULL || 0 <= files[k] < |descs|
    requires d < |descs| && |descs'| == |descs| && (descs'[d].fcb == descs[d].fcb || Count(files, d) == 0)
    requires descs' == descs[d := descs'[d]]
    ensures Targets(descs', files) == Targets(descs, files)
  {
    forall k | 0 <= k < |files|
      ensures Targets(descs', files)[k] == Targets(descs, files)[k]
    {
      assert files[k] in files;
    }
  }

  /** open_file: FCB x is filled if nobody uses it, a free descriptor d is made to name it, and
      a free pointer k to name the descriptor. */
  lemma OpenPointer(dir: seq<FileInfo>, fcbs: seq<Fcb>, descs: seq<Desc>, files: seq<int>, k: nat, d: nat, x: nat,
                    fcbs': seq<Fcb>, descs': seq<Desc>)
    requires CountsOk(dir, fcbs, descs, files) && k < |files| && files[k] == NULL
    requires d < |descs| && descs[d].fcb == NULL && x < |dir| && x < |fcbs|
    requires descs' == descs[d := Desc(x, 0, 1)]
    requires fcbs' == fcbs[x := if fcbs[x].count == 0 then Fcb(dir[x], x, 1) else fcbs[x].(count := fcbs[x].count + 1)]
    ensures CountsOk(dir, fcbs', descs', files[k := d])
  {
    hide DescsOk, FcbsOk, Count;
    CountIs(descs, files, d);
    DescsAdd(descs, files, k, d, descs');
    FcbsAdd(dir, fcbs, Targets(descs, files), k, x, fcbs');
    NoPointerLeft(descs, files, d, descs');
    assert Targets(descs', files[k := d]) == Targets(descs', files)[k := x];
  }

  // ------------------------------------------------------------------ there is always room

  ghost function Range(n: nat): (r: set<int>)
    ensures |r| == n && forall i :: i in r <==> 0 <= i < n
  {
    if n == 0 then {} else Range(n - 1) + {n - 1}
  }

  lemma SubsetSize(a: set<int>, b: set<int>)
    requires a <= b
    ensures |a| <= |b|
  {
    assert b == a + (b - a);
  }

  /** The descriptor table is never full: it is larger than all the processes' pointers. */
  lemma DescriptorTableNeverFull(dir: seq<FileInfo>, fcbs: seq<Fcb>, descs: seq<Desc>, files: seq<int>)
    requires CountsOk(dir, fcbs, descs, files) && |files| < |descs|
    ensures exists d :: 0 <= d < |descs| && descs[d].fcb == NULL
  {
    if forall d :: 0 <= d < |descs| ==> descs[d].fcb != NULL {
      forall d | d in Range(|descs|)
        ensures d in Elements(files)
      {
        assert descs[d].count > 0;
      }
      AtMostLength(files);
      SubsetSize(Range(|descs|), Elements(files));
    }
  }
}
