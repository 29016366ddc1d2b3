/** The process table and the memory together: what fork, exit and wait do to the frames. */
module Kernel {
  import opened Common
  import opened Paging
  import opened Ownership
  import opened Access
  import opened Memory
  import opened Scheduler
  import opened Queues
  import opened ProcessTable
  import opened ProcessFrames

  /** What alloc_new_process has built: a stack and the kernel half of the address space root. */
  ghost predicate HalfBuilt(o0: Owners, o1: Owners, slot: nat, stack: nat, root: nat) {
    && o0.Keys == o1.Keys
    && stack in o0 && o0[stack].Free? && o1[stack] == Held(slot)
    && root in o0 && o0[root].Free? && o1[root] == Root
    && (forall f :: f in o0 && o1[f] != o0[f] ==>
          o0[f].Free? && (f == stack || f == root || o1[f] == Pdpt(root, KERNEL_ENTRY) || o1[f] == Pd(root, KERNEL_ENTRY, 0)))
    && (forall f :: f in o0 ==> !Belongs(o0[f], f, root))
  }

  lemma HalfBuiltInSteps(m0: Frames, o0: Owners, m1: Frames, o1: Owners, m2: Frames, o2: Owners, slot: nat, stack: nat, root: nat)
    requires MapsOk(m1, o1) && UsersOk(m1, o1)
    requires o0.Keys == m0.Keys && stack in o0 && o0[stack].Free? && o1 == o0[stack := Held(slot)]
    requires m1 == m0[stack := Zeros()]
    requires root in o1 && o1[root].Free? && KeptInUse(m1, o1, m2, o2) && BecameTables(o1, o2, root, KERNEL_ENTRY, 0)
    requires root in o2 && o2[root].Root?
    ensures HalfBuilt(o0, o2, slot, stack, root) && KeptInUse(m0, o0, m2, o2)
  {
    hide MapsOk, UsersOk, Zeros;
    NothingBelongs(m1, o1, root);
    KeptOwners(m1, o1, m2, o2);
    assert forall f :: f in o0 && f != stack ==> o1[f] == o0[f] && m1[f] == m0[f];
    hide KeptInUse;
    assert KeptInUse(m0, o0, m2, o2) by { KeptAfterTaking(m0, o0, m1, o1, m2, o2, stack); }
  }

  lemma KeptOwners(m1: Frames, o1: Owners, m2: Frames, o2: Owners)
    requires KeptInUse(m1, o1, m2, o2)
    ensures o1.Keys == o2.Keys && forall f :: f in o1 && !o1[f].Free? ==> o2[f] == o1[f]
  {
  }

  lemma KeptAfterTaking(m0: Frames, o0: Owners, m1: Frames, o1: Owners, m2: Frames, o2: Owners, f0: nat)
    requires KeptInUse(m1, o1, m2, o2) && f0 in o0 && o0[f0].Free?
    requires o0.Keys == o1.Keys == m0.Keys == m1.Keys && forall f :: f in o0 && f != f0 ==> o1[f] == o0[f] && m1[f] == m0[f]
    ensures KeptInUse(m0, o0, m2, o2)
  {
  }

  /** With its user half the process is complete. */
  lemma BuiltInSteps(m0: Frames, o0: Owners, m2: Frames, o2: Owners, m3: Frames, o3: Owners, slot: nat, stack: nat, root: nat, page: nat)
    requires HalfBuilt(o0, o2, slot, stack, root) && KeptInUse(m0, o0, m2, o2)
    requires Local(m2, o2, m3, o3, root) && BecameUser(o2, o3, root, page) && root in o3 && o3[root].Root?
    requires page in o3 && o3[page] == User(root, USER_PAGE)
    ensures Built(o0, o3, slot, stack, root) && KeptInUse(m0, o0, m3, o3) && LabelsOk(o3, root)
  {
  }

  /** The frames of address space r are its root, the four tables and the user page. */
  ghost predicate LabelsOk(o: Owners, r: nat) {
    forall f :: f in o && Belongs(o[f], f, r) ==>
      f == r || o[f] == Pdpt(r, 0) || o[f] == Pdpt(r, KERNEL_ENTRY) || o[f] == Pd(r, 0, 0) || o[f] == Pd(r, KERNEL_ENTRY, 0)
      || o[f] == User(r, USER_PAGE)
  }

  lemma NewMapComplete(m2: Frames, m3: Frames, o3: Owners, root: nat, page: nat)
    requires root in o3 && o3[root].Root? && LabelsOk(o3, root) && Permits(m3, root)
    requires MapsExactly(m2, root, None) && RangeMapped(m2, m3, root, USER_PAGE, 1, V2P(page), ATTR_USER)
    ensures Complete(m3, o3, root) && PageLeaf(m3, root, USER_PAGE) == Some(LeafWord(V2P(page), ATTR_USER))
  {
    hide LeafWord, PageLeaf, Missing, RangeMapped, PageOf, Permits;
    UserMapsExactly(m2, m3, root, V2P(page));
    KernelRange();
    assert PageOffset(PageOf(KERNEL_BASE), PageOf(KERNEL_BASE)) == 0;
    assert PageLeaf(m3, root, PageOf(KERNEL_BASE)).Some?;
    MappedThroughTables(m3, root);
  }

  /** Frames in use have kept their contents, so other address spaces have too. */
  lemma HalfBuiltKeeps(m0: Frames, o0: Owners, m2: Frames, o2: Owners, slot: nat, stack: nat, root: nat, r: nat)
    requires KeptInUse(m0, o0, m2, o2) && HalfBuilt(o0, o2, slot, stack, root) && r in o0 && o0[r].Root?
    ensures MapKept(m0, o0, m2, o2, r)
  {
  }

  lemma BuiltKeeps(m0: Frames, o0: Owners, m3: Frames, o3: Owners, slot: nat, stack: nat, root: nat, r: nat)
    requires KeptInUse(m0, o0, m3, o3) && Built(o0, o3, slot, stack, root) && r in o0 && o0[r].Root?
    ensures MapKept(m0, o0, m3, o3, r)
  {
  }

  lemma BuiltAllComplete(m0: Frames, o0: Owners, m3: Frames, o3: Owners, procs: seq<Proc>, slot: nat, p: Proc)
    requires MapsOk(m0, o0) && Owned(o0, procs) && AllComplete(m0, o0, procs) && 1 <= slot < NUM_PROC
    requires KeptInUse(m0, o0, m3, o3) && Built(o0, o3, slot, p.stack, p.pageMap) && Complete(m3, o3, p.pageMap)
    ensures AllComplete(m3, o3, procs[slot := p])
  {
    hide MapsOk, Complete, KeptInUse, Built, MapKept;
    var procs1 := procs[slot := p];
    forall i | 1 <= i < |procs1| && Live(procs1, i)
      ensures Complete(m3, o3, procs1[i].pageMap)
    {
      if i != slot {
        assert Live(procs, i);
        BuiltKeeps(m0, o0, m3, o3, slot, p.stack, p.pageMap, procs[i].pageMap);
        MapKeptComplete(m0, o0, m3, o3, procs[i].pageMap);
      }
    }
  }

  /** The frames taken are the first of the free list. */
  lemma TakenFromFront(m0: Frames, o0: Owners, first0: nat, f0: seq<nat>, m3: Frames, o3: Owners, first3: nat, n: nat,
                       slot: nat, stack: nat, root: nat)
    requires FreeListOk(m0, o0, first0, f0) && n <= |f0| && FreeListOk(m3, o3, first3, f0[n..])
    requires Built(o0, o3, slot, stack, root) && o0.Keys == m0.Keys && o3.Keys == m3.Keys
    ensures Changed(o0, o3) == Elements(f0[..n])
  {
    hide Built, FreeListOk;
    FreeMembers(m0, o0, first0, f0);
    FreeMembers(m3, o3, first3, f0[n..]);
    BuiltChanges(o0, o3, slot, stack, root);
    assert forall f :: f in f0[..n] ==> f in f0;
    assert f0 == f0[..n] + f0[n..];
    forall f | f in f0
      ensures f in f0[..n] <==> f !in f0[n..]
    {
      InFront(f0, n, f);
    }
  }

  lemma FreeMembers(m: Frames, o: Owners, first: nat, f: seq<nat>)
    requires FreeListOk(m, o, first, f) && o.Keys == m.Keys
    ensures NoDup(f) && forall x :: x in f <==> x in o && o[x].Free?
  {
  }

  lemma BuiltChanges(o0: Owners, o1: Owners, slot: nat, stack: nat, root: nat)
    requires Built(o0, o1, slot, stack, root)
    ensures o0.Keys == o1.Keys && forall f :: f in o0 ==> (o1[f] != o0[f] <==> o0[f].Free? && !o1[f].Free?)
  {
  }

  lemma InFront(s: seq<nat>, n: nat, x: nat)
    requires NoDup(s) && n <= |s| && x in s
    ensures x in s[..n] <==> x !in s[n..]
  {
    var k :| 0 <= k < |s| && s[k] == x;
    if k < n { assert s[..n][k] == x; } else { assert s[n..][k - n] == x; }
  }

  lemma ListedInUse(m: Frames, o: Owners, first: nat, f: seq<nat>)
    requires FreeListOk(m, o, first, f) && o.Keys == m.Keys
    ensures forall k :: 0 <= k < |f| ==> f[k] in o && o[f[k]].Free?
  {
  }

  lemma CompleteMeans(m: Frames, o: Owners, r: nat)
    requires Complete(m, o, r)
    ensures r in o && o[r].Root? && PageLeaf(m, r, USER_PAGE).Some? && PdAt(m, r, 0, 0).Some?
  {
  }

  lemma RootsDiffer(o0: Owners, o2: Owners, slot: nat, stack: nat, root: nat, parent: nat)
    requires HalfBuilt(o0, o2, slot, stack, root) && parent in o0 && o0[parent].Root?
    ensures root != parent
  {
  }

  lemma UserFrameIs(m: Frames, r: nat, page: nat, o: Owners)
    requires PageLeaf(m, r, USER_PAGE) == Some(LeafWord(V2P(page), ATTR_USER)) && FrameAddress(page)
    ensures P2V(PteAddr(PageLeaf(m, r, USER_PAGE).value)) == page
  {
    UserFrame(page);
    KernelRange();
    LeafWordMaps(V2P(page), ATTR_USER);
    hide PageLeaf, LeafWord, P2V, V2P, PteAddr;
  }

  /** The parent's user page is a frame in use, so building the child does not change it. */
  lemma SameContents(m0: Frames, o0: Owners, m2: Frames, o2: Owners, r: nat, page: nat)
    requires UsersOk(m0, o0) && o0.Keys == m0.Keys && KeptInUse(m0, o0, m2, o2) && r in o0 && o0[r].Root?
    requires PageLeaf(m0, r, USER_PAGE).Some?
    requires page in o2 && o2[page].Free?
    ensures var f := P2V(PteAddr(PageLeaf(m0, r, USER_PAGE).value));
            f in m0 && f in m2 && m2[f] == m0[f] && f != page
  {
    hide PageLeaf, P2V, PteAddr;
  }

  lemma ForkerComplete(m: Frames, o: Owners, t: Table)
    requires Inv(t) && t.current != IDLE && AllComplete(m, o, t.procs)
    ensures t.current < |t.procs| && Complete(m, o, t.procs[t.current].pageMap)
  {
    assert Live(t.procs, t.current);
  }

  lemma ForkSlot(t: Table, stack: nat, root: nat)
    requires Inv(t) && FirstUnused(t.procs, 0) < NUM_PROC
    ensures var i, t1 := FirstUnused(t.procs, 0), Scheduler.Fork(t, stack, root);
            1 <= i && !Live(t.procs, i) && t1.procs == t.procs[i := t1.procs[i]]
            && t1.procs[i].state != UNUSED && t1.procs[i].stack == stack && t1.procs[i].pageMap == root
  {
  }

  lemma NoTableYet(m: Frames, r: nat)
    requires Missing(m, r, 0, 0) == 2
    ensures Next(m, r, 0).None?
  {
  }

  /** The memory part of alloc_new_process. */
  method NewProcess(memory: Memory, slot: nat) returns (stack: nat, root: nat)
    requires memory.Clean() && 4 <= |memory.free|
    modifies memory
    ensures memory.Clean() && memory.free == old(memory.free)[4..]
    ensures stack == old(memory.free)[0] && root == old(memory.free)[1] && memory.IsRoot(root)
    ensures HalfBuilt(old(memory.owner), memory.owner, slot, stack, root)
    ensures KeptInUse(old(memory.mem), old(memory.owner), memory.mem, memory.owner)
    ensures MapsExactly(memory.mem, root, None) && PageLeaf(memory.mem, root, USER_PAGE) == None
    ensures Missing(memory.mem, root, 0, 0) == 2 && Permits(memory.mem, root)
  {
    hide MapsOk, UsersOk, FreeListOk, Missing, PageLeaf, Zeros, KeptInUse, BecameTables, MapsExactly, SameMap, Permits;
    hide HalfBuilt;
    ghost var m0, o0, f0 := memory.mem, memory.owner, memory.free;
    stack := memory.NewFrame(slot);
    ghost var m1, o1 := memory.mem, memory.owner;
    ListedInUse(m1, o1, memory.freeNext, memory.free);
    root := memory.SetupKvm();
    HalfBuiltInSteps(m0, o0, m1, o1, memory.mem, memory.owner, slot, stack, root);
    assert f0[1..][3..] == f0[4..];
  }

  lemma BootInv(idleMap: nat, stack: nat, root: nat)
    ensures Inv(BootTable(idleMap, stack, root))
  {
    hide Holds, PidsOk;
    BootQueues(idleMap, stack, root);
  }

  lemma BootQueues(idleMap: nat, stack: nat, root: nat)
    ensures var t := BootTable(idleMap, stack, root);
            && Holds(t.procs, t.ready, READY) && Holds(t.procs, t.waiting, SLEEP) && Holds(t.procs, t.killed, KILLED)
            && PidsOk(t.procs, t.pidNum)
  {
    assert [1][0] == 1;
  }

  /** After init_kvm and init_fs the only frames taken are the kernel's own. */
  ghost predicate HasTables(o: Owners, idleMap: nat) {
    && idleMap in o && o[idleMap].Root?
    && forall f :: f in o ==> (o[f].Root? ==> f == idleMap) && (o[f].Held? ==> o[f].tag >= NUM_PROC)
  }

  lemma TablesTaken(oB: Owners, oK: Owners, o0: Owners, idleMap: nat, fcbs: nat, descs: nat)
    requires forall f :: f in oB ==> oB[f].Boot? || oB[f].Free?
    requires BecameTables(oB, oK, idleMap, KERNEL_ENTRY, 0) && idleMap in oK && oK[idleMap].Root?
    requires fcbs in oK && oK[fcbs].Free? && descs in oK && oK[descs].Free?
    requires o0 == oK[fcbs := Held(FCB_TABLE)][descs := Held(DESC_TABLE)]
    ensures HasTables(o0, idleMap)
  {
  }

  lemma BootOwned(o0: Owners, o1: Owners, idleMap: nat, stack: nat, root: nat)
    requires HasTables(o0, idleMap) && Built(o0, o1, 1, stack, root)
    ensures var procs := BootTable(idleMap, stack, root).procs;
            Owned(o1, procs) && Recorded(map[1 := Changed(o0, o1)], o1, procs, 2)
  {
    var procs := BootTable(idleMap, stack, root).procs;
    var procs0 := procs[1 := NO_PROC];
    assert Owned(o0, procs0) by {
      assert Live(procs0, 0) && procs0[0].pageMap == idleMap;
    }
    BuiltOwned(o0, o1, procs0, 1, procs[1]);
    assert procs0[1 := procs[1]] == procs;
  }

  lemma BootComplete(m: Frames, o: Owners, idleMap: nat, stack: nat, root: nat)
    requires Complete(m, o, root)
    ensures AllComplete(m, o, BootTable(idleMap, stack, root).procs)
  {
  }

  /** init_kvm, and the two frames that init_fs takes. */
  method KernelFrames(memory: Memory) returns (idleMap: nat)
    requires memory.Clean() && 5 <= |memory.free|
    requires forall f :: f in memory.owner ==> memory.owner[f].Boot? || memory.owner[f].Free?
    modifies memory
    ensures memory.Clean() && memory.free == old(memory.free)[5..] && HasTables(memory.owner, idleMap)
  {
    hide MapsOk, UsersOk, FreeListOk, Missing, PageLeaf, Zeros, KeptInUse, BecameTables, MapsExactly, SameMap;
    hide HasTables;
    ghost var oB, f0 := memory.owner, memory.free;
    idleMap := memory.SetupKvm();
    ghost var oK := memory.owner;
    var fcbs := memory.NewFrame(FCB_TABLE);
    var descs := memory.NewFrame(DESC_TABLE);
    assert f0[3..][1..][1..] == f0[5..];
    TablesTaken(oB, oK, memory.owner, idleMap, fcbs, descs);
  }

  /** What init_user_process builds: a complete process whose page holds the program. */
  method FirstProcess(memory: Memory, program: seq<byte>) returns (stack: nat, root: nat)
    requires memory.Clean() && FRAMES_PER_PROCESS <= |memory.free| && |program| <= PAGE_SIZE
    modifies memory
    ensures memory.Clean() && memory.free == old(memory.free)[FRAMES_PER_PROCESS..]
    ensures stack == old(memory.free)[0] && root == old(memory.free)[1]
    ensures Built(old(memory.owner), memory.owner, 1, stack, root) && Complete(memory.mem, memory.owner, root)
    ensures PageLeaf(memory.mem, root, USER_PAGE).Some?
    ensures memory.UserFrameOf(root) in memory.mem
    ensures HoldsBytes(memory.mem[memory.UserFrameOf(root)], program)
  {
    hide MapsOk, UsersOk, FreeListOk, Missing, PageLeaf, LeafWord, P2V, V2P, PteAddr, Zeros, HoldsBytes;
    hide KeptInUse, BecameUser, Local, RangeMapped, MapsExactly, HalfBuilt, Built, LabelsOk, Complete, Permits, Carry, Next;
    ghost var m0, o0, f0 := memory.mem, memory.owner, memory.free;
    stack, root := NewProcess(memory, 1);
    ghost var m2, o2 := memory.mem, memory.owner;
    NoTableYet(m2, root);
    ghost var page := f0[4..][0];
    var ok := memory.SetupUvm(root, program);
    assert f0[4..][3..] == f0[7..];
    BuiltInSteps(m0, o0, m2, o2, memory.mem, memory.owner, 1, stack, root, page);
    NewMapComplete(m2, memory.mem, memory.owner, root, page);
    UserFrameIs(memory.mem, root, page, memory.owner);
  }

  lemma SleepHoldings(t: Table, wait: int)
    requires Inv(t) && t.current != IDLE
    ensures CanSchedule(t)
    ensures var t' := Scheduler.Sleep(t, wait); Inv(t') && t'.pidNum == t.pidNum && SameHoldings(t.procs, t'.procs)
  {
    hide Inv, Scheduler.Sleep;
    CurrentLive(t);
    SleepEffect(t, wait);
  }

  lemma ExitHoldings(t: Table)
    requires Inv(t) && t.current != IDLE
    ensures CanSchedule(t) && t.procs[t.current].pid != 0 && Slots(t.waiting, NUM_PROC)
    ensures var t' := Scheduler.Exit(t); Inv(t') && t'.pidNum == t.pidNum && SameHoldings(t.procs, t'.procs)
  {
    hide Inv, Scheduler.Exit;
    CurrentLive(t);
    ExitEffect(t);
  }

  /** wake_up, alone or with a yield behind it. */
  lemma WokenHoldings(t: Table, wait: int)
    requires Inv(t)
    ensures Slots(t.waiting, NUM_PROC)
    ensures var t' := Scheduler.WakeUp(t, wait); Inv(t') && t'.pidNum == t.pidNum && SameHoldings(t.procs, t'.procs)
  {
    hide Inv, Scheduler.WakeUp;
    CurrentLive(t);
    KeyEffect(t, wait);
  }

  lemma TimerHoldings(t: Table)
    requires Inv(t)
    ensures Slots(t.waiting, NUM_PROC)
    ensures var t1 := Scheduler.WakeUp(t, -1);
            && |t1.procs| == NUM_PROC && t1.current < NUM_PROC && (t1.ready == [] || CanSchedule(t1)) && Inv(t1)
            && var t2 := Scheduler.Yield(t1);
               Inv(t2) && t2.pidNum == t.pidNum && SameHoldings(t.procs, t2.procs)
  {
    hide Inv, Scheduler.WakeUp, Scheduler.Yield;
    CurrentLive(t);
    KeyEffect(t, -1);
    TimerEffect(t, -1);
  }

  lemma CurrentLive(t: Table)
    requires Inv(t)
    ensures |t.procs| == NUM_PROC && t.current < NUM_PROC && Live(t.procs, t.current)
  {
  }

  lemma ReapedSlot(t: Table, pid: int, o: Owners)
    requires Inv(t) && Owned(o, t.procs) && Slots(t.killed, NUM_PROC) && Reapable(t, pid).Some?
    ensures var s := Reapable(t, pid).value;
            && 1 <= s < NUM_PROC && Live(t.procs, s) && t.procs[s].stack in o && o[t.procs[s].stack] == Held(s)
            && t.procs[s].pageMap in o && o[t.procs[s].pageMap].Root?
            && Scheduler.Reap(t, pid).procs == t.procs[s := NO_PROC] && Scheduler.Reap(t, pid).pidNum == t.pidNum
  {
    ReapKeepsInv(t, pid);
    QueueFacts(t);
  }

  /** kfree of the stack and free_vm of the address space. */
  lemma DemolishedInSteps(m0: Frames, o0: Owners, m1: Frames, o1: Owners, m2: Frames, o2: Owners, procs: seq<Proc>, s: nat)
    requires Owned(o0, procs) && 1 <= s < NUM_PROC && Live(procs, s)
    requires o0.Keys == m0.Keys && m1.Keys == m0.Keys
    requires procs[s].stack in o0 && o1 == o0[procs[s].stack := Free]
    requires forall f :: f in m1 && f != procs[s].stack ==> m1[f] == m0[f]
    requires MapFreed(o1, o2, procs[s].pageMap) && Local(m1, o1, m2, o2, procs[s].pageMap)
    ensures Demolished(o0, o2, procs, s)
    ensures forall j :: 0 <= j < NUM_PROC && j != s && Live(procs, j) ==> MapKept(m0, o0, m2, o2, procs[j].pageMap)
  {
    forall j | 0 <= j < NUM_PROC && j != s && Live(procs, j)
      ensures MapKept(m0, o0, m2, o2, procs[j].pageMap)
    {
      DistinctMaps(o0, procs, s, j);
      KeptThroughFreeing(m0, o0, m1, o1, m2, o2, procs[s].stack, procs[s].pageMap, procs[j].pageMap);
    }
  }

  lemma DistinctMaps(o: Owners, procs: seq<Proc>, s: nat, j: nat)
    requires Owned(o, procs) && s < NUM_PROC && j < NUM_PROC && j != s && Live(procs, s) && Live(procs, j)
    ensures procs[j].pageMap != procs[s].pageMap && procs[j].pageMap in o && o[procs[j].pageMap].Root?
  {
  }

  lemma KeptThroughFreeing(m0: Frames, o0: Owners, m1: Frames, o1: Owners, m2: Frames, o2: Owners, stack: nat, root: nat, r: nat)
    requires o0.Keys == m0.Keys && m1.Keys == m0.Keys && stack in o0 && o0[stack].Held? && o1 == o0[stack := Free]
    requires forall f :: f in m1 && f != stack ==> m1[f] == m0[f]
    requires MapFreed(o1, o2, root) && Local(m1, o1, m2, o2, root) && r != root && r in o0 && o0[r].Root?
    ensures MapKept(m0, o0, m2, o2, r)
  {
  }

  lemma DemolishedAllComplete(m0: Frames, o0: Owners, m2: Frames, o2: Owners, procs: seq<Proc>, s: nat)
    requires MapsOk(m0, o0) && AllComplete(m0, o0, procs) && s < NUM_PROC == |procs|
    requires forall j :: 0 <= j < NUM_PROC && j != s && Live(procs, j) ==> MapKept(m0, o0, m2, o2, procs[j].pageMap)
    ensures AllComplete(m2, o2, procs[s := NO_PROC])
  {
    hide MapsOk, Complete, MapKept;
    var procs1 := procs[s := NO_PROC];
    forall i | 1 <= i < |procs1| && Live(procs1, i)
      ensures Complete(m2, o2, procs1[i].pageMap)
    {
      assert Live(procs, i);
      MapKeptComplete(m0, o0, m2, o2, procs[i].pageMap);
    }
  }

  lemma ReapedFrames(m: Frames, o: Owners, taken: map<int, set<nat>>, procs: seq<Proc>, pidNum: int, s: nat)
    requires MapsOk(m, o) && UsersOk(m, o) && Owned(o, procs) && AllComplete(m, o, procs) && 1 <= s < NUM_PROC
    requires Live(procs, s) && Recorded(taken, o, procs, pidNum)
    ensures procs[s].pid in taken && FramesOf(o, procs, s) == taken[procs[s].pid]
    ensures |FramesOf(o, procs, s)| == FRAMES_PER_PROCESS
  {
    hide MapsOk, UsersOk, Complete, FramesOf;
    SevenFrames(m, o, procs, s);
  }

  /** The frames of the process are new on the free list, and nothing else is. */
  lemma FreeGrows(m0: Frames, o0: Owners, first0: nat, f0: seq<nat>, m2: Frames, o2: Owners, first2: nat, f2: seq<nat>,
                  procs: seq<Proc>, s: nat)
    requires FreeListOk(m0, o0, first0, f0) && FreeListOk(m2, o2, first2, f2) && o0.Keys == m0.Keys
    requires o2.Keys == m2.Keys
    requires s < |procs| && Demolished(o0, o2, procs, s)
    ensures |f2| == |f0| + |FramesOf(o0, procs, s)|
    ensures Elements(f2) == Elements(f0) + FramesOf(o0, procs, s) && Elements(f0) !! FramesOf(o0, procs, s)
  {
    hide FreeListOk;
    FreeMembers(m0, o0, first0, f0);
    FreeMembers(m2, o2, first2, f2);
    DistinctElements(f0);
    DistinctElements(f2);
    var frames := FramesOf(o0, procs, s);
    assert Elements(f0) !! frames;
    assert Elements(f2) == Elements(f0) + frames;
  }

  class Kernel {
    const memory: Memory
    const processes: Processes

    /** For every pid handed out so far, the frames its process was built from. */
    ghost var taken: map<int, set<nat>>

    ghost predicate Valid()
      reads this, memory, processes, processes.procs, processes.next, processes.tail
    {
      && memory.Clean() && processes.Valid() && Inv(processes.Abs())
      && Owned(memory.owner, processes.procs[..])
      && AllComplete(memory.mem, memory.owner, processes.procs[..])
      && Recorded(taken, memory.owner, processes.procs[..], processes.pidNum)
    }

    /** The kernel's boot: init_kvm, the two frames of init_fs, and init_process. */
    constructor (m: Memory, program: seq<byte>)
      requires m.Clean() && 12 <= |m.free| && |program| <= PAGE_SIZE
      requires forall f :: f in m.owner ==> m.owner[f].Boot? || m.owner[f].Free?
      modifies m
      ensures Valid() && memory == m && fresh(processes) && fresh(processes.procs) && fresh(processes.next)
      ensures fresh(processes.tail)
      ensures m.free == old(m.free)[12..] && taken == map[1 := Elements(old(m.free)[5..12])]
    {
      hide Built, Complete, Owned, AllComplete, Inv, HasTables, AllLists, FreeListOk, MapsOk, UsersOk;
      hide PageLeaf, P2V, PteAddr, Zeros, Slots, HoldsBytes;
      ghost var f0 := m.free;
      var idleMap := KernelFrames(m);
      ghost var m1, o0, first1 := m.mem, m.owner, m.freeNext;
      var stack, root := FirstProcess(m, program);
      assert f0[5..][7..] == f0[12..];
      BootOwned(o0, m.owner, idleMap, stack, root);
      BootComplete(m.mem, m.owner, idleMap, stack, root);
      BootInv(idleMap, stack, root);
      TakenFromFront(m1, o0, first1, f0[5..], m.mem, m.owner, m.freeNext, FRAMES_PER_PROCESS, 1, stack, root);
      assert f0[5..][..7] == f0[5..12];
      memory := m;
      taken := map[1 := Elements(f0[5..12])];
      processes := new Processes(idleMap, stack, root);
    }

    /** What fork builds for the child in the slot, from the address space of its parent. */
    method BuildChild(slot: nat, parent: nat) returns (stack: nat, root: nat)
      requires memory.Clean() && FRAMES_PER_PROCESS <= |memory.free| && Complete(memory.mem, memory.owner, parent)
      modifies memory
      ensures memory.Clean() && memory.free == old(memory.free)[FRAMES_PER_PROCESS..]
      ensures stack == old(memory.free)[0] && root == old(memory.free)[1]
      ensures Built(old(memory.owner), memory.owner, slot, stack, root)
      ensures KeptInUse(old(memory.mem), old(memory.owner), memory.mem, memory.owner)
      ensures Complete(memory.mem, memory.owner, root) && old(PageLeaf(memory.mem, parent, USER_PAGE)).Some?
      ensures var p, c := old(memory.UserFrameOf(parent)), memory.UserFrameOf(root);
              p in old(memory.mem) && c in memory.mem && c != p && memory.mem[c] == old(memory.mem)[p]
    {
      hide MapsOk, UsersOk, FreeListOk, Missing, PageLeaf, PdAt, LeafWord, P2V, V2P, PteAddr, Zeros;
      hide KeptInUse, BecameTables, BecameUser, Local, RangeMapped, MapsExactly, MapKept, SameMap, HalfBuilt, Permits, Carry, Next;
      hide Built, LabelsOk, Complete;
      ghost var m0, o0, f0 := memory.mem, memory.owner, memory.free;
      CompleteMeans(m0, o0, parent);
      stack, root := NewProcess(memory, slot);
      ghost var m2, o2 := memory.mem, memory.owner;
      NoTableYet(m2, root);
      HalfBuiltKeeps(m0, o0, m2, o2, slot, stack, root, parent);
      MapKeptComplete(m0, o0, m2, o2, parent);
      CompleteMeans(m2, o2, parent);
      RootsDiffer(o0, o2, slot, stack, root, parent);
      ListedInUse(m2, o2, memory.freeNext, memory.free);
      ghost var page := f0[4..][0];
      var ok := memory.CopyUvm(root, parent, WORDS);
      assert f0[4..][3..] == f0[7..];
      ghost var m3, o3 := memory.mem, memory.owner;
      BuiltInSteps(m0, o0, m2, o2, m3, o3, slot, stack, root, page);
      NewMapComplete(m2, m3, o3, root, page);
      UserFrameIs(m3, root, page, o3);
      SameContents(m0, o0, m2, o2, parent, page);
    }

    /** The frames of fork: exactly the first 7 of the free list become the child's; its user
        page gets what is on the parent's, and nothing that was in use is touched. */
    method Fork() returns (pid: int)
      requires Valid() && processes.current != IDLE && FirstUnused(processes.procs[..], 0) < NUM_PROC
      requires FRAMES_PER_PROCESS <= |memory.free|
      modifies this, memory, processes, processes.procs, processes.next, processes.tail
      ensures Valid() && pid == old(processes.pidNum)
      ensures pid !in old(taken) && taken == old(taken)[pid := Elements(old(memory.free)[..FRAMES_PER_PROCESS])]
      ensures processes.Abs() == Scheduler.Fork(old(processes.Abs()), old(memory.free)[0], old(memory.free)[1])
      ensures memory.free == old(memory.free)[FRAMES_PER_PROCESS..]
      ensures FramesOf(memory.owner, processes.procs[..], old(FirstUnused(processes.procs[..], 0))) ==
              Elements(old(memory.free)[..FRAMES_PER_PROCESS])
      ensures KeptInUse(old(memory.mem), old(memory.owner), memory.mem, memory.owner)
      ensures forall j :: 0 <= j < NUM_PROC && Live(old(processes.procs[..]), j) ==>
                FramesOf(memory.owner, processes.procs[..], j) == FramesOf(old(memory.owner), old(processes.procs[..]), j)
      ensures var parent, child := old(processes.procs[processes.current]).pageMap, old(memory.free)[1];
              && PageLeaf(memory.mem, child, USER_PAGE).Some? && old(PageLeaf(memory.mem, parent, USER_PAGE)).Some?
              && var p, c := old(memory.UserFrameOf(parent)), memory.UserFrameOf(child);
                 p in old(memory.mem) && c in memory.mem && c != p && memory.mem[c] == old(memory.mem)[p]
    {
      hide MapsOk, UsersOk, FreeListOk, Owned, Complete, Inv, PageLeaf, P2V, PteAddr, KeptInUse, Built;
      hide FramesOf, Changed, FirstUnused, Live;
      ghost var m0, o0, first0, f0, t0 := memory.mem, memory.owner, memory.freeNext, memory.free, processes.Abs();
      ForkKeepsInv(t0, f0[0], f0[1]);
      ForkerComplete(m0, o0, t0);
      var slot := processes.FindUnused();
      var parent := processes.procs[processes.current].pageMap;
      var stack, root := BuildChild(slot, parent);
      pid := processes.Fork(stack, root);
      ghost var p := processes.procs[slot];
      ForkSlot(t0, stack, root);
      BuiltOwned(o0, memory.owner, t0.procs, slot, p);
      BuiltAllComplete(m0, o0, memory.mem, memory.owner, t0.procs, slot, p);
      RecordedForked(taken, o0, t0.procs, memory.owner, slot, p);
      TakenFromFront(m0, o0, first0, f0, memory.mem, memory.owner, memory.freeNext, FRAMES_PER_PROCESS, slot, stack, root);
      CompleteMeans(memory.mem, memory.owner, root);
      taken := taken[pid := Elements(f0[..FRAMES_PER_PROCESS])];
    }

    /** One turn of wait(pid).  It either gives back exactly the 7 frames that were taken when
        that pid was handed out, all of them and nobody else's, or sleeps. */
    method Wait(pid: int) returns (slot: int)
      requires Valid() && processes.current != IDLE
      modifies memory, processes, processes.procs, processes.next, processes.tail
      ensures Valid() && Slots(old(processes.Abs()).killed, NUM_PROC) && CanSchedule(old(processes.Abs()))
      ensures if Reapable(old(processes.Abs()), pid).Some? then slot == Reapable(old(processes.Abs()), pid).value else slot == NULL
      ensures slot == NULL ==>
                && processes.Abs() == Scheduler.Sleep(old(processes.Abs()), -3)
                && memory.owner == old(memory.owner) && memory.mem == old(memory.mem) && memory.free == old(memory.free)
      ensures slot != NULL ==>
                var t := old(processes.Abs());
                var s := Reapable(t, pid).value;
                && 1 <= s < NUM_PROC && Live(t.procs, s) && s != t.current && t.procs[s].pid == pid
                && processes.Abs() == Scheduler.Reap(t, pid)
                && Demolished(old(memory.owner), memory.owner, t.procs, s)
                && |FramesOf(old(memory.owner), t.procs, s)| == FRAMES_PER_PROCESS
                && pid in taken && FramesOf(old(memory.owner), t.procs, s) == taken[pid]
                && Elements(memory.free) == Elements(old(memory.free)) + taken[pid] && Elements(old(memory.free)) !! taken[pid]
                && Suffix(memory.free, old(memory.free)) && |memory.free| == |old(memory.free)| + FRAMES_PER_PROCESS
                && forall j :: 0 <= j < NUM_PROC && j != s && Live(t.procs, j) ==>
                     && FramesOf(memory.owner, processes.procs[..], j) == FramesOf(old(memory.owner), t.procs, j)
                     && MapKept(old(memory.mem), old(memory.owner), memory.mem, memory.owner, t.procs[j].pageMap)
    {
      hide MapsOk, UsersOk, FreeListOk, Owned, Complete, AllComplete, Inv, MapFreed, Local, Suffix, AllLists;
      hide FramesOf, Live;
      hide MapKept, Demolished, Reapable, Scheduler.Reap, Scheduler.Sleep, SameMap, Recorded, Elements;
      ghost var m0, o0, first0, f0, t0 := memory.mem, memory.owner, memory.freeNext, memory.free, processes.Abs();
      ReapKeepsInv(t0, pid);
      var was;
      slot, was := processes.WaitTurn(pid);
      if slot == NULL {
        SleepKeepsInv(t0, -3);
        SleepHoldings(t0, -3);
        SameHoldingsOwned(m0, o0, t0.procs, processes.procs[..]);
        RecordedSame(taken, o0, t0.procs, t0.pidNum, processes.procs[..]);
        return;
      }
      var stack, root := was.stack, was.pageMap;
      ghost var s := Reapable(t0, pid).value;
      ReapedSlot(t0, pid, o0);
      memory.FreeFrame(stack);
      ghost var m1, o1, f1 := memory.mem, memory.owner, memory.free;
      memory.FreeVm(root);
      DemolishedInSteps(m0, o0, m1, o1, memory.mem, memory.owner, t0.procs, s);
      DemolishedOwned(o0, memory.owner, t0.procs, s);
      DemolishedAllComplete(m0, o0, memory.mem, memory.owner, t0.procs, s);
      RecordedReaped(taken, o0, t0.procs, t0.pidNum, memory.owner, s);
      ReapedFrames(m0, o0, taken, t0.procs, t0.pidNum, s);
      SuffixPush(f0, stack, f0);
      SuffixTransitive(memory.free, f1, f0);
      FreeGrows(m0, o0, first0, f0, memory.mem, memory.owner, memory.freeNext, memory.free, t0.procs, s);
    }

    /** The other entries of the kernel move processes between queues and no frames at all. */
    method Exit()
      requires Valid() && processes.current != IDLE
      modifies processes, processes.procs, processes.next, processes.tail
      ensures Valid() && CanSchedule(old(processes.Abs())) && old(processes.procs[processes.current]).pid != 0
      ensures Slots(old(processes.Abs()).waiting, NUM_PROC) && processes.Abs() == Scheduler.Exit(old(processes.Abs()))
    {
      hide MapsOk, UsersOk, FreeListOk, FramesOk, Owned, AllComplete, Inv, AllLists, Scheduler.Exit;
      ghost var t0 := processes.Abs();
      ExitHoldings(t0);
      processes.Exit();
      SameHoldingsOwned(memory.mem, memory.owner, t0.procs, processes.procs[..]);
      RecordedSame(taken, memory.owner, t0.procs, t0.pidNum, processes.procs[..]);
    }

    method Sleep(wait: int)
      requires Valid() && processes.current != IDLE
      modifies processes, processes.procs, processes.next, processes.tail
      ensures Valid() && CanSchedule(old(processes.Abs()))
      ensures processes.Abs() == Scheduler.Sleep(old(processes.Abs()), wait)
    {
      hide MapsOk, UsersOk, FreeListOk, FramesOk, Owned, AllComplete, Inv, AllLists, Scheduler.Sleep;
      ghost var t0 := processes.Abs();
      SleepKeepsInv(t0, wait);
      SleepHoldings(t0, wait);
      processes.Sleep(wait);
      SameHoldingsOwned(memory.mem, memory.owner, t0.procs, processes.procs[..]);
      RecordedSame(taken, memory.owner, t0.procs, t0.pidNum, processes.procs[..]);
    }

    /** The timer interrupt. */
    method Timer()
      requires Valid()
      modifies processes, processes.procs, processes.next, processes.tail
      ensures Valid() && Slots(old(processes.Abs()).waiting, NUM_PROC)
      ensures var t := Scheduler.WakeUp(old(processes.Abs()), -1);
              |t.procs| == NUM_PROC && t.current < NUM_PROC && (t.ready == [] || CanSchedule(t)) && processes.Abs() == Scheduler.Yield(t)
    {
      hide MapsOk, UsersOk, FreeListOk, FramesOk, Owned, AllComplete, Inv, AllLists, Scheduler.WakeUp, Scheduler.Yield;
      ghost var t0 := processes.Abs();
      TimerHoldings(t0);
      processes.WakeUp(-1);
      processes.Yield();
      SameHoldingsOwned(memory.mem, memory.owner, t0.procs, processes.procs[..]);
      RecordedSame(taken, memory.owner, t0.procs, t0.pidNum, processes.procs[..]);
    }

    /** What the keyboard interrupt does when there is a character. */
    method WakeUp(wait: int)
      requires Valid()
      modifies processes, processes.procs, processes.next, processes.tail
      ensures Valid() && Slots(old(processes.Abs()).waiting, NUM_PROC)
      ensures processes.Abs() == Scheduler.WakeUp(old(processes.Abs()), wait)
    {
      hide MapsOk, UsersOk, FreeListOk, FramesOk, Owned, AllComplete, Inv, AllLists, Scheduler.WakeUp;
      ghost var t0 := processes.Abs();
      WokenHoldings(t0, wait);
      processes.WakeUp(wait);
      SameHoldingsOwned(memory.mem, memory.owner, t0.procs, processes.procs[..]);
      RecordedSame(taken, memory.owner, t0.procs, t0.pidNum, processes.procs[..]);
    }
  }
}
