/** Which frames belong to which process, and that every frame belongs to somebody, once. */
module ProcessFrames {
  import opened Common
  import opened Paging
  import opened Ownership
  import opened Access
  import opened Scheduler

  /** The tags of the two frames that init_fs takes; smaller tags are slots, whose stack it is. */
  const FCB_TABLE := NUM_PROC
  const DESC_TABLE := NUM_PROC + 1

  /** The frames that a process has been built from: 1 for its kernel stack, 3 for the kernel
      half of its address space, 3 for the user half. */
  const FRAMES_PER_PROCESS := 7

  const KERNEL_ENTRY := 256

  predicate Live(procs: seq<Proc>, i: nat) {
    i < |procs| && procs[i].state != UNUSED
  }

  /** Frame f is the stack of process i or part of its address space. */
  predicate FrameOf(o: Owners, procs: seq<Proc>, i: nat, f: nat)
    requires i < |procs|
  {
    f in o && (o[f] == Held(i) || Belongs(o[f], f, procs[i].pageMap))
  }

  ghost function FramesOf(o: Owners, procs: seq<Proc>, i: nat): set<nat>
    requires i < |procs|
  {
    set f | f in o.Keys && FrameOf(o, procs, i, f)
  }

  /** Some live process has the address space root. */
  ghost predicate HasProcess(procs: seq<Proc>, root: nat) {
    exists i :: 0 <= i < NUM_PROC && Live(procs, i) && procs[i].pageMap == root
  }

  /** Every live process has an address space of its own and, the idle process aside, a stack;
      and there are no other stacks or address spaces. */
  ghost predicate Owned(o: Owners, procs: seq<Proc>) {
    && |procs| == NUM_PROC
    && (forall i :: 0 <= i < NUM_PROC && Live(procs, i) ==> procs[i].pageMap in o && o[procs[i].pageMap].Root?)
    && (forall i, j :: 0 <= i < j < NUM_PROC && Live(procs, i) && Live(procs, j) ==> procs[i].pageMap != procs[j].pageMap)
    && (forall i :: 1 <= i < NUM_PROC && Live(procs, i) ==> procs[i].stack in o && o[procs[i].stack] == Held(i))
    && (forall f :: f in o && o[f].Root? ==> HasProcess(procs, f))
    && (forall f :: f in o && o[f].Held? && o[f].tag < NUM_PROC ==>
          1 <= o[f].tag && Live(procs, o[f].tag) && procs[o[f].tag].stack == f)
  }

  /** A process's address space maps the kernel half and one user page, through four tables; in
      user mode that page can be read and written and no other reached. */
  ghost predicate Complete(m: Frames, o: Owners, r: nat) {
    && r in o && o[r].Root?
    && Missing(m, r, 0, 0) == 0 && Missing(m, r, KERNEL_ENTRY, 0) == 0 && PageLeaf(m, r, USER_PAGE).Some?
    && MapsExactly(m, r, PageLeaf(m, r, USER_PAGE)) && Permits(m, r)
    && forall f :: f in o && Belongs(o[f], f, r) ==>
         f == r || o[f] == Pdpt(r, 0) || o[f] == Pdpt(r, KERNEL_ENTRY) || o[f] == Pd(r, 0, 0) || o[f] == Pd(r, KERNEL_ENTRY, 0)
         || o[f] == User(r, USER_PAGE)
  }

  ghost predicate AllComplete(m: Frames, o: Owners, procs: seq<Proc>) {
    forall i :: 1 <= i < |procs| && Live(procs, i) ==> Complete(m, o, procs[i].pageMap)
  }

  // ------------------------------------------------------------------- one owner each

  /** Every frame has exactly one owner: it has not been given to the allocator, or is on the
      free list, or is one of the two file tables, or belongs to exactly one live process. */
  lemma OneOwner(m: Frames, o: Owners, procs: seq<Proc>, f: nat)
    requires MapsOk(m, o) && UsersOk(m, o) && Owned(o, procs) && f in o
    ensures o[f].Boot? || o[f].Free? || (o[f].Held? && o[f].tag >= NUM_PROC) <==>
            !exists i :: 0 <= i < NUM_PROC && Live(procs, i) && FrameOf(o, procs, i, f)
    ensures forall i, j :: 0 <= i < j < NUM_PROC && Live(procs, i) && Live(procs, j) ==>
              !(FrameOf(o, procs, i, f) && FrameOf(o, procs, j, f))
  {
    hide MapsOk, UsersOk, HasProcess;
    if o[f].Held? {
      if o[f].tag < NUM_PROC {
        assert FrameOf(o, procs, o[f].tag, f);
      }
    } else if InMap(o[f]) {
      var r := RootOf(m, o, f);
      assert HasProcess(procs, r);
      var i := ProcessOf(procs, r);
      assert FrameOf(o, procs, i, f);
    }
    AtMostOneOwner(o, procs, f);
  }

  lemma RootOf(m: Frames, o: Owners, f: nat) returns (r: nat)
    requires MapsOk(m, o) && UsersOk(m, o) && f in o && InMap(o[f])
    ensures r in o && o[r].Root? && Belongs(o[f], f, r)
  {
    hide TreeOk, UserOk;
    r := if o[f].Root? then f else o[f].root;
  }

  lemma ProcessOf(procs: seq<Proc>, root: nat) returns (i: nat)
    requires HasProcess(procs, root)
    ensures i < NUM_PROC && Live(procs, i) && procs[i].pageMap == root
  {
    i :| 0 <= i < NUM_PROC && Live(procs, i) && procs[i].pageMap == root;
  }

  lemma AtMostOneOwner(o: Owners, procs: seq<Proc>, f: nat)
    requires Owned(o, procs) && f in o
    ensures forall i, j :: 0 <= i < j < NUM_PROC && Live(procs, i) && Live(procs, j) ==>
              !(FrameOf(o, procs, i, f) && FrameOf(o, procs, j, f))
  {
    hide HasProcess;
  }

  ghost function MapFrames(o: Owners, r: nat): set<nat> {
    set f | f in o.Keys && Belongs(o[f], f, r)
  }

  lemma SixFrames(m: Frames, o: Owners, r: nat)
    requires MapsOk(m, o) && UsersOk(m, o) && Complete(m, o, r)
    ensures |MapFrames(o, r)| == FRAMES_PER_PROCESS - 1
  {
    hide TreeOk, UserOk, MapsOk, UsersOk, Next, PdAt, PageLeaf, MapsExactly;
    RootInOrder(m, o, r);
    TableOwners(m, o, r);
    var u := UserFrameExists(m, o, r);
    var p0, p1, d0, d1 := Next(m, r, 0).value, Next(m, r, KERNEL_ENTRY).value, PdAt(m, r, 0, 0).value, PdAt(m, r, KERNEL_ENTRY, 0).value;
    var all := {r, p0, p1, d0, d1, u};
    forall f | f in o.Keys
      ensures f in all <==> Belongs(o[f], f, r)
    {
    }
    assert MapFrames(o, r) == all;
    assert o[p0] == Pdpt(r, 0) && o[p1] == Pdpt(r, KERNEL_ENTRY) && o[d0] == Pd(r, 0, 0) && o[d1] == Pd(r, KERNEL_ENTRY, 0);
  }

  /** Each process but the idle one is made of exactly 7 frames. */
  lemma SevenFrames(m: Frames, o: Owners, procs: seq<Proc>, i: nat)
    requires MapsOk(m, o) && UsersOk(m, o) && Owned(o, procs) && 1 <= i < NUM_PROC && Live(procs, i)
    requires Complete(m, o, procs[i].pageMap)
    ensures |FramesOf(o, procs, i)| == FRAMES_PER_PROCESS
  {
    hide MapsOk, UsersOk, Complete;
    var r, s := procs[i].pageMap, procs[i].stack;
    SixFrames(m, o, r);
    assert FramesOf(o, procs, i) == MapFrames(o, r) + {s};
  }

  lemma TableOwners(m: Frames, o: Owners, r: nat)
    requires TreeOk(m, o, r) && Missing(m, r, 0, 0) == 0 && Missing(m, r, KERNEL_ENTRY, 0) == 0
    ensures Next(m, r, 0).Some? && Next(m, r, KERNEL_ENTRY).Some? && PdAt(m, r, 0, 0).Some?
    ensures PdAt(m, r, KERNEL_ENTRY, 0).Some?
    ensures forall f :: f in o ==> (o[f] == Pdpt(r, 0) <==> f == Next(m, r, 0).value)
    ensures forall f :: f in o ==> (o[f] == Pdpt(r, KERNEL_ENTRY) <==> f == Next(m, r, KERNEL_ENTRY).value)
    ensures forall f :: f in o ==> (o[f] == Pd(r, 0, 0) <==> f == PdAt(m, r, 0, 0).value)
    ensures forall f :: f in o ==> (o[f] == Pd(r, KERNEL_ENTRY, 0) <==> f == PdAt(m, r, KERNEL_ENTRY, 0).value)
    ensures Next(m, r, 0).value in o && Next(m, r, KERNEL_ENTRY).value in o
    ensures PdAt(m, r, 0, 0).value in o && PdAt(m, r, KERNEL_ENTRY, 0).value in o
  {
    hide Next, PdAt;
  }

  lemma UserFrameExists(m: Frames, o: Owners, r: nat) returns (u: nat)
    requires UsersOk(m, o) && r in o && o[r].Root? && PageLeaf(m, r, USER_PAGE).Some?
    ensures u in o && forall f :: f in o ==> (o[f] == User(r, USER_PAGE) <==> f == u)
  {
    hide PageLeaf, PteAddr, P2V;
    u := P2V(PteAddr(PageLeaf(m, r, USER_PAGE).value));
  }

  /** In user mode a process reaches its user page, may write there, and reaches no other page;
      the frame behind it is its own and no other process's. */
  lemma OwnPageOnly(m: Frames, o: Owners, procs: seq<Proc>, i: nat, q: nat)
    requires MapsOk(m, o) && UsersOk(m, o) && Owned(o, procs) && AllComplete(m, o, procs)
    requires 1 <= i < NUM_PROC && Live(procs, i) && q < PAGES
    ensures var can := Allowed(m, procs[i].pageMap, q);
            && (can.Some? && can.value.user <==> q == USER_PAGE) && (q == USER_PAGE ==> can.value.write)
    ensures PageLeaf(m, procs[i].pageMap, USER_PAGE).Some?
    ensures var f := P2V(PteAddr(PageLeaf(m, procs[i].pageMap, USER_PAGE).value));
            FrameOf(o, procs, i, f) && forall j :: 0 <= j < NUM_PROC && j != i && Live(procs, j) ==> !FrameOf(o, procs, j, f)
  {
    hide Allowed, PageLeaf, P2V, PteAddr, TreeOk, MapsExactly, Missing, HasProcess;
    var r := procs[i].pageMap;
    assert Complete(m, o, r);
    assert OwnsPage(m, o, r, USER_PAGE);
    var f := P2V(PteAddr(PageLeaf(m, r, USER_PAGE).value));
    assert FrameOf(o, procs, i, f);
    AtMostOneOwner(o, procs, f);
  }

  // --------------------------------------------------------------------- fork and wait

  /** Address space r has kept its frames and what is in them. */
  ghost predicate MapKept(m0: Frames, o0: Owners, m1: Frames, o1: Owners, r: nat) {
    && o0.Keys == o1.Keys == m0.Keys == m1.Keys
    && forall f :: f in o0 ==>
         (Belongs(o0[f], f, r) <==> Belongs(o1[f], f, r)) && (Belongs(o0[f], f, r) ==> o1[f] == o0[f] && m1[f] == m0[f])
  }

  lemma MapKeptComplete(m0: Frames, o0: Owners, m1: Frames, o1: Owners, r: nat)
    requires MapsOk(m0, o0) && Complete(m0, o0, r) && MapKept(m0, o0, m1, o1, r)
    ensures Complete(m1, o1, r) && PdAt(m1, r, 0, 0) == PdAt(m0, r, 0, 0)
    ensures PageLeaf(m1, r, USER_PAGE) == PageLeaf(m0, r, USER_PAGE)
  {
    hide TreeOk;
    RootInOrder(m0, o0, r);
    TablesSame(m0, o0, m1, o1, r);
    SamePageLeaves(m0, m1, r);
    hide Next, PdAt, PageLeaf, SameLeaves, LeafWord, PageOffset, PageOf, Permits;
    PermitsSame(m0, o0, m1, r);
  }

  /** Mapping a page takes a table at each level. */
  lemma MappedThroughTables(m: Frames, r: nat)
    requires PageLeaf(m, r, USER_PAGE).Some? && PageLeaf(m, r, PageOf(KERNEL_BASE)).Some?
    ensures Missing(m, r, 0, 0) == 0 && Missing(m, r, KERNEL_ENTRY, 0) == 0
  {
  }

  /** Exactly the free frames stack, map and those that now belong to map have changed hands. */
  ghost predicate Built(o0: Owners, o1: Owners, slot: nat, stack: nat, root: nat) {
    && o0.Keys == o1.Keys
    && stack in o0 && o0[stack].Free? && o1[stack] == Held(slot)
    && root in o0 && o0[root].Free? && o1[root] == Root
    && (forall f :: f in o0 && o1[f] != o0[f] ==> o0[f].Free? && (f == stack || Belongs(o1[f], f, root)))
    && (forall f :: f in o0 ==> !Belongs(o0[f], f, root))
  }

  /** The frames that changed hands. */
  ghost function Changed(o0: Owners, o1: Owners): set<nat>
    requires o0.Keys == o1.Keys
  {
    set f | f in o0.Keys && o1[f] != o0[f]
  }

  lemma BuiltOwned(o0: Owners, o1: Owners, procs: seq<Proc>, slot: nat, p: Proc)
    requires Owned(o0, procs) && 1 <= slot < NUM_PROC && !Live(procs, slot) && p.state != UNUSED
    requires Built(o0, o1, slot, p.stack, p.pageMap)
    ensures Owned(o1, procs[slot := p])
    ensures FramesOf(o1, procs[slot := p], slot) == Changed(o0, o1)
    ensures forall j :: 0 <= j < NUM_PROC && Live(procs, j) ==> FramesOf(o1, procs[slot := p], j) == FramesOf(o0, procs, j)
  {
    hide FramesOf, FrameOf, Changed, HasProcess;
    BuiltRoots(o0, o1, procs, slot, p);
    forall j | 0 <= j < NUM_PROC && Live(procs, j)
      ensures FramesOf(o1, procs[slot := p], j) == FramesOf(o0, procs, j)
    {
      BuiltOthers(o0, o1, procs, slot, p, j);
    }
    NewFrames(o0, o1, procs[slot := p], slot);
  }

  lemma BuiltRoots(o0: Owners, o1: Owners, procs: seq<Proc>, slot: nat, p: Proc)
    requires Owned(o0, procs) && 1 <= slot < NUM_PROC && !Live(procs, slot) && p.state != UNUSED
    requires Built(o0, o1, slot, p.stack, p.pageMap)
    ensures forall f :: f in o1 && o1[f].Root? ==> HasProcess(procs[slot := p], f)
  {
    var procs1 := procs[slot := p];
    forall f | f in o1 && o1[f].Root?
      ensures HasProcess(procs1, f)
    {
      if f == p.pageMap {
        assert Live(procs1, slot) && procs1[slot].pageMap == f;
      } else {
        var i :| 0 <= i < NUM_PROC && Live(procs, i) && procs[i].pageMap == f;
        assert Live(procs1, i) && procs1[i].pageMap == f;
      }
    }
  }

  lemma BuiltOthers(o0: Owners, o1: Owners, procs: seq<Proc>, slot: nat, p: Proc, j: nat)
    requires Owned(o0, procs) && 1 <= slot < NUM_PROC && !Live(procs, slot) && p.state != UNUSED
    requires Built(o0, o1, slot, p.stack, p.pageMap) && j < NUM_PROC && Live(procs, j)
    ensures FramesOf(o1, procs[slot := p], j) == FramesOf(o0, procs, j)
  {
    assert procs[j].pageMap in o0 && o0[procs[j].pageMap].Root?;
    SameFrames(o0, o1, procs, procs[slot := p], j);
  }

  lemma SameFrames(o0: Owners, o1: Owners, procs: seq<Proc>, procs1: seq<Proc>, j: nat)
    requires j < |procs| == |procs1| && procs1[j].pageMap == procs[j].pageMap && o0.Keys == o1.Keys
    requires forall f :: f in o0 && o1[f] != o0[f] ==>
               !Belongs(o0[f], f, procs[j].pageMap) && !Belongs(o1[f], f, procs[j].pageMap) && o0[f] != Held(j) && o1[f] != Held(j)
    ensures FramesOf(o1, procs1, j) == FramesOf(o0, procs, j)
  {
    assert forall f :: f in o0 ==> (FrameOf(o1, procs1, j, f) <==> FrameOf(o0, procs, j, f));
  }

  lemma NewFrames(o0: Owners, o1: Owners, procs1: seq<Proc>, slot: nat)
    requires slot < |procs1| && Built(o0, o1, slot, procs1[slot].stack, procs1[slot].pageMap)
    requires forall f :: f in o0 ==> o0[f] != Held(slot)
    ensures FramesOf(o1, procs1, slot) == Changed(o0, o1)
  {
    assert forall f :: f in o0 ==> (FrameOf(o1, procs1, slot, f) <==> o1[f] != o0[f]);
  }

  /** Exactly the frames of the process in the slot have become free. */
  ghost predicate Demolished(o0: Owners, o1: Owners, procs: seq<Proc>, slot: nat)
    requires slot < |procs|
  {
    && o0.Keys == o1.Keys
    && forall f :: f in o0 ==> o1[f] == if FrameOf(o0, procs, slot, f) then Free else o0[f]
  }

  lemma DemolishedOwned(o0: Owners, o1: Owners, procs: seq<Proc>, slot: nat)
    requires Owned(o0, procs) && 1 <= slot < NUM_PROC && Live(procs, slot) && Demolished(o0, o1, procs, slot)
    ensures Owned(o1, procs[slot := NO_PROC])
    ensures forall j :: 0 <= j < NUM_PROC && j != slot && Live(procs, j) ==>
              FramesOf(o1, procs[slot := NO_PROC], j) == FramesOf(o0, procs, j)
  {
    hide FramesOf, FrameOf, Demolished, HasProcess, Belongs;
    DemolishedRoots(o0, o1, procs, slot);
    DemolishedSlots(o0, o1, procs, slot);
    DemolishedStacks(o0, o1, procs, slot);
    forall j | 0 <= j < NUM_PROC && j != slot && Live(procs, j)
      ensures FramesOf(o1, procs[slot := NO_PROC], j) == FramesOf(o0, procs, j)
    {
      DemolishedOthers(o0, o1, procs, slot, j);
    }
  }

  lemma DemolishedRoots(o0: Owners, o1: Owners, procs: seq<Proc>, slot: nat)
    requires Owned(o0, procs) && 1 <= slot < NUM_PROC && Live(procs, slot) && Demolished(o0, o1, procs, slot)
    ensures forall f :: f in o1 && o1[f].Root? ==> HasProcess(procs[slot := NO_PROC], f)
  {
    var procs1 := procs[slot := NO_PROC];
    forall f | f in o1 && o1[f].Root?
      ensures HasProcess(procs1, f)
    {
      assert !FrameOf(o0, procs, slot, f);
      var i :| 0 <= i < NUM_PROC && Live(procs, i) && procs[i].pageMap == f;
      assert Live(procs1, i) && procs1[i].pageMap == f;
    }
  }

  lemma DemolishedSlots(o0: Owners, o1: Owners, procs: seq<Proc>, slot: nat)
    requires Owned(o0, procs) && 1 <= slot < NUM_PROC && Live(procs, slot) && Demolished(o0, o1, procs, slot)
    ensures forall i :: 0 <= i < NUM_PROC && i != slot && Live(procs, i) ==> procs[i].pageMap in o1 && o1[procs[i].pageMap].Root?
    ensures forall i :: 1 <= i < NUM_PROC && i != slot && Live(procs, i) ==> procs[i].stack in o1 && o1[procs[i].stack] == Held(i)
  {
    forall i | 0 <= i < NUM_PROC && i != slot && Live(procs, i)
      ensures procs[i].pageMap in o1 && o1[procs[i].pageMap].Root?
    {
      assert procs[i].pageMap != procs[slot].pageMap;
    }
  }

  lemma DemolishedStacks(o0: Owners, o1: Owners, procs: seq<Proc>, slot: nat)
    requires Owned(o0, procs) && 1 <= slot < NUM_PROC && Live(procs, slot) && Demolished(o0, o1, procs, slot)
    ensures forall f :: f in o1 && o1[f].Held? && o1[f].tag < NUM_PROC ==>
              1 <= o1[f].tag && o1[f].tag != slot && Live(procs, o1[f].tag) && procs[o1[f].tag].stack == f
  {
  }

  lemma DemolishedOthers(o0: Owners, o1: Owners, procs: seq<Proc>, slot: nat, j: nat)
    requires Owned(o0, procs) && 1 <= slot < NUM_PROC && Live(procs, slot) && Demolished(o0, o1, procs, slot)
    requires j < NUM_PROC && j != slot && Live(procs, j)
    ensures FramesOf(o1, procs[slot := NO_PROC], j) == FramesOf(o0, procs, j)
  {
    assert procs[j].pageMap != procs[slot].pageMap;
    SameFrames(o0, o1, procs, procs[slot := NO_PROC], j);
  }

  /** Owners and completeness depend on the slots, pids, stacks and address spaces only. */
  ghost predicate SameHoldings(procs: seq<Proc>, procs': seq<Proc>) {
    && |procs| == |procs'|
    && forall i :: 0 <= i < |procs| ==>
         && (Live(procs', i) <==> Live(procs, i)) && procs'[i].pid == procs[i].pid
         && procs'[i].stack == procs[i].stack && procs'[i].pageMap == procs[i].pageMap
  }

  lemma SameHoldingsOwned(m: Frames, o: Owners, procs: seq<Proc>, procs': seq<Proc>)
    requires SameHoldings(procs, procs') && Owned(o, procs) && AllComplete(m, o, procs)
    ensures Owned(o, procs') && AllComplete(m, o, procs')
  {
    forall f | f in o && o[f].Root?
      ensures HasProcess(procs', f)
    {
      var i :| 0 <= i < NUM_PROC && Live(procs, i) && procs[i].pageMap == f;
      assert Live(procs', i) && procs'[i].pageMap == f;
    }
  }

  // ------------------------------------------------------- over the whole life of a process

  /** taken says for every pid handed out so far which frames its process was built from; a
      process is made of those frames as long as it lives. */
  ghost predicate Recorded(taken: map<int, set<nat>>, o: Owners, procs: seq<Proc>, pidNum: int) {
    && (forall p :: p in taken ==> p < pidNum)
    && forall i :: 1 <= i < |procs| && Live(procs, i) ==> procs[i].pid in taken && FramesOf(o, procs, i) == taken[procs[i].pid]
  }

  lemma RecordedForked(taken: map<int, set<nat>>, o0: Owners, procs: seq<Proc>, o1: Owners, slot: nat, p: Proc)
    requires Recorded(taken, o0, procs, p.pid) && slot < |procs|
    requires forall j :: 0 <= j < |procs| && j != slot && Live(procs, j) ==>
               FramesOf(o1, procs[slot := p], j) == FramesOf(o0, procs, j)
    ensures p.pid !in taken
    ensures Recorded(taken[p.pid := FramesOf(o1, procs[slot := p], slot)], o1, procs[slot := p], p.pid + 1)
  {
    hide FramesOf;
    assert forall j :: 0 <= j < |procs| && j != slot ==> (Live(procs[slot := p], j) <==> Live(procs, j));
  }

  lemma RecordedReaped(taken: map<int, set<nat>>, o0: Owners, procs: seq<Proc>, pidNum: int, o1: Owners, slot: nat)
    requires Recorded(taken, o0, procs, pidNum) && slot < |procs|
    requires forall j :: 0 <= j < |procs| && j != slot && Live(procs, j) ==>
               FramesOf(o1, procs[slot := NO_PROC], j) == FramesOf(o0, procs, j)
    ensures Recorded(taken, o1, procs[slot := NO_PROC], pidNum)
  {
    hide FramesOf;
    assert forall j :: 0 <= j < |procs| && j != slot ==> (Live(procs[slot := NO_PROC], j) <==> Live(procs, j));
  }

  lemma RecordedSame(taken: map<int, set<nat>>, o: Owners, procs: seq<Proc>, pidNum: int, procs': seq<Proc>)
    requires Recorded(taken, o, procs, pidNum) && SameHoldings(procs, procs')
    ensures Recorded(taken, o, procs', pidNum)
  {
    forall i | 1 <= i < |procs'| && Live(procs', i)
      ensures FramesOf(o, procs', i) == FramesOf(o, procs, i)
    {
      assert procs'[i].pageMap == procs[i].pageMap;
    }
  }
}
