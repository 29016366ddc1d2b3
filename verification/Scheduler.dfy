/** The process table of process.c as values: 20 slots, the three queues, and what each
    kernel operation makes of them.  ProcessTable is the imperative form. */
module Scheduler {
  import opened Common

  const NUM_PROC := 20
  const IDLE := 0

  datatype ProcState = UNUSED | INIT | RUNNING | READY | SLEEP | KILLED

  /** wait is the reason a process sleeps for, or the pid of a killed one. */
  datatype Proc = Proc(state: ProcState, pid: int, wait: int, stack: nat, pageMap: nat)

  /** log lists the slots that schedule has made current, in order. */
  datatype Table = Table(
    procs: seq<Proc>,
    current: nat,
    ready: seq<nat>,
    waiting: seq<nat>,
    killed: seq<nat>,
    pidNum: int,
    log: seq<nat>)

  const NO_PROC := Proc(UNUSED, 0, 0, 0, 0)

  // -------------------------------------------------------------------------- queues

  predicate Slots(q: seq<nat>, n: nat) {
    forall k :: 0 <= k < |q| ==> q[k] < n
  }

  /** The members of q that wait for w, in order. */
  function Matching(procs: seq<Proc>, q: seq<nat>, w: int): (r: seq<nat>)
    requires Slots(q, |procs|)
    ensures Slots(r, |procs|)
  {
    if q == [] then []
    else (if procs[q[0]].wait == w then [q[0]] else []) + Matching(procs, q[1..], w)
  }

  /** The members of q that do not wait for w, in order. */
  function Others(procs: seq<Proc>, q: seq<nat>, w: int): (r: seq<nat>)
    requires Slots(q, |procs|)
    ensures Slots(r, |procs|)
  {
    if q == [] then []
    else (if procs[q[0]].wait != w then [q[0]] else []) + Others(procs, q[1..], w)
  }

  /** The position of the first member of q that waits for w, or |q|. */
  function FirstMatch(procs: seq<Proc>, q: seq<nat>, w: int): (k: nat)
    requires Slots(q, |procs|)
    ensures k <= |q| && (k < |q| ==> procs[q[k]].wait == w)
    ensures forall i :: 0 <= i < k ==> procs[q[i]].wait != w
  {
    if q == [] || procs[q[0]].wait == w then 0 else 1 + FirstMatch(procs, q[1..], w)
  }

  function Without(q: seq<nat>, k: nat): seq<nat>
    requires k < |q|
  {
    q[..k] + q[k + 1..]
  }

  function SetStates(procs: seq<Proc>, q: seq<nat>, st: ProcState): (r: seq<Proc>)
    ensures |r| == |procs|
    ensures forall i :: 0 <= i < |r| ==> r[i] == if i in q then procs[i].(state := st) else procs[i]
  {
    seq(|procs|, i requires 0 <= i < |procs| => if i in q then procs[i].(state := st) else procs[i])
  }

  // ---------------------------------------------------------------------- the invariant

  /** q holds exactly the slots in state st, the idle slot aside, each once. */
  ghost predicate Holds(procs: seq<Proc>, q: seq<nat>, st: ProcState) {
    && NoDup(q)
    && (forall k :: 0 <= k < |q| ==> 1 <= q[k] < |procs| && procs[q[k]].state == st)
    && (forall i :: 1 <= i < |procs| && procs[i].state == st ==> i in q)
  }

  /** The slots split by state, except for the question which one is running. */
  ghost predicate Core(t: Table) {
    && |t.procs| == NUM_PROC && t.current < NUM_PROC
    && Holds(t.procs, t.ready, READY) && Holds(t.procs, t.waiting, SLEEP) && Holds(t.procs, t.killed, KILLED)
    && (forall i :: 0 <= i < NUM_PROC ==> t.procs[i].state != INIT)
    && (t.procs[IDLE].state == RUNNING || t.procs[IDLE].state == READY)
    && PidsOk(t.procs, t.pidNum)
  }

  /** The invariant between kernel operations: the running slot is the current one. */
  ghost predicate Inv(t: Table) {
    Core(t) && forall i :: 0 <= i < NUM_PROC ==> (t.procs[i].state == RUNNING <==> i == t.current)
  }

  /** What schedule finds: the current process has already left RUNNING. */
  ghost predicate Parked(t: Table) {
    Core(t) && forall i :: 0 <= i < NUM_PROC ==> t.procs[i].state != RUNNING
  }

  /** Pids identify processes, are never reused, and 0 is the idle process. */
  ghost predicate PidsOk(procs: seq<Proc>, pidNum: int) {
    && |procs| == NUM_PROC && procs[IDLE].pid == 0 && 1 <= pidNum
    && (forall i :: 1 <= i < NUM_PROC && procs[i].state != UNUSED ==> 0 < procs[i].pid < pidNum)
    && (forall i, j :: 1 <= i < j < NUM_PROC && procs[i].state != UNUSED && procs[j].state != UNUSED ==>
          procs[i].pid != procs[j].pid)
    && (forall i :: 1 <= i < NUM_PROC && procs[i].state == KILLED ==> procs[i].wait == procs[i].pid)
  }

  // --------------------------------------------------------------------- the operations

  /** schedule's ASSERT: it is not the idle process that finds the ready list empty. */
  predicate CanSchedule(t: Table) {
    && |t.procs| == NUM_PROC && t.current < NUM_PROC && Slots(t.ready, NUM_PROC)
    && (t.ready == [] ==> t.procs[t.current].pid != 0)
  }

  function Schedule(t: Table): Table
    requires CanSchedule(t)
  {
    var c := if t.ready == [] then IDLE else t.ready[0];
    t.(procs := t.procs[c := t.procs[c].(state := RUNNING)],
       current := c,
       ready := if t.ready == [] then [] else t.ready[1..],
       log := t.log + [c])
  }

  function Yield(t: Table): Table
    requires CanSchedule(t) || t.ready == []
    requires |t.procs| == NUM_PROC && t.current < NUM_PROC
  {
    if t.ready == [] then t
    else
      var p := t.procs[t.current];
      Schedule(t.(procs := t.procs[t.current := p.(state := READY)],
                  ready := if p.pid != 0 then t.ready + [t.current] else t.ready))
  }

  /** The current process becomes st with reason w. */
  function Park(t: Table, st: ProcState, w: int): Table
    requires |t.procs| == NUM_PROC && t.current < NUM_PROC
  {
    t.(procs := t.procs[t.current := t.procs[t.current].(state := st, wait := w)])
  }

  function Sleep(t: Table, w: int): Table
    requires CanSchedule(t)
  {
    var t1 := Park(t, SLEEP, w);
    Schedule(t1.(waiting := t1.waiting + [t.current]))
  }

  /** The sleepers with reason w move to the end of the ready list, in order. */
  function WakeUp(t: Table, w: int): Table
    requires Slots(t.waiting, |t.procs|)
  {
    var woken := Matching(t.procs, t.waiting, w);
    t.(waiting := Others(t.procs, t.waiting, w), ready := t.ready + woken, procs := SetStates(t.procs, woken, READY))
  }

  function Exit(t: Table): Table
    requires CanSchedule(t) && t.procs[t.current].pid != 0
    requires Slots(t.waiting, NUM_PROC)
  {
    var t1 := Park(t, KILLED, t.procs[t.current].pid);
    Schedule(WakeUp(t1.(killed := t1.killed + [t.current]), -3))
  }

  /** The slot that wait(pid) would reap, if any. */
  function Reapable(t: Table, pid: int): Option<nat>
    requires Slots(t.killed, |t.procs|)
  {
    var k := FirstMatch(t.procs, t.killed, pid);
    if k < |t.killed| then Some(t.killed[k]) else None
  }

  /** wait(pid) takes its process off the kill list and clears the slot. */
  function Reap(t: Table, pid: int): Table
    requires Slots(t.killed, |t.procs|) && Reapable(t, pid).Some?
  {
    var k := FirstMatch(t.procs, t.killed, pid);
    t.(killed := Without(t.killed, k), procs := t.procs[t.killed[k] := NO_PROC])
  }

  function FirstUnused(procs: seq<Proc>, i: nat): (r: nat)
    requires i <= |procs|
    ensures i <= r <= |procs| && (r < |procs| ==> procs[r].state == UNUSED)
    ensures forall k :: i <= k < r ==> procs[k].state != UNUSED
    decreases |procs| - i
  {
    if i == |procs| || procs[i].state == UNUSED then i else FirstUnused(procs, i + 1)
  }

  /** A new process with the given kernel stack and address space, ready to run. */
  function Fork(t: Table, stack: nat, pageMap: nat): Table
    requires FirstUnused(t.procs, 0) < |t.procs|
  {
    var i := FirstUnused(t.procs, 0);
    t.(procs := t.procs[i := t.procs[i].(state := READY, pid := t.pidNum, stack := stack, pageMap := pageMap)],
       pidNum := t.pidNum + 1,
       ready := t.ready + [i])
  }

  /** What init_process leaves: the idle process running, the first user process ready. */
  function BootTable(idleMap: nat, stack: nat, userMap: nat): Table {
    Table(seq(NUM_PROC, i => if i == IDLE then Proc(RUNNING, 0, 0, 0, idleMap)
                             else if i == 1 then Proc(READY, 1, 0, stack, userMap)
                             else NO_PROC),
          IDLE, [1], [], [], 2, [])
  }

  // ------------------------------------------------------------- they keep the invariant

  lemma SlotSame(procs: seq<Proc>, i: nat, p: Proc, q: seq<nat>, st: ProcState)
    requires Holds(procs, q, st) && i < |procs|
    requires i == IDLE || (procs[i].state == st <==> p.state == st)
    ensures Holds(procs[i := p], q, st)
  {
  }

  lemma SlotJoins(procs: seq<Proc>, i: nat, p: Proc, q: seq<nat>, st: ProcState)
    requires Holds(procs, q, st) && 1 <= i < |procs| && procs[i].state != st && p.state == st
    ensures Holds(procs[i := p], q + [i], st)
  {
    var q' := q + [i];
    assert q'[|q|] == i;
    forall j | 1 <= j < |procs| && procs[i := p][j].state == st
      ensures j in q'
    {
      if j != i { assert j in q; }
    }
  }

  lemma SlotLeaves(procs: seq<Proc>, i: nat, p: Proc, q: seq<nat>, st: ProcState, k: nat)
    requires Holds(procs, q, st) && i < |procs| && p.state != st && k < |q| && q[k] == i
    ensures Holds(procs[i := p], Without(q, k), st)
  {
    forall j | 1 <= j < |procs| && procs[i := p][j].state == st
      ensures j in Without(q, k)
    {
      var m :| 0 <= m < |q| && q[m] == j;
      assert if m < k then Without(q, k)[m] == j else Without(q, k)[m - 1] == j;
    }
  }

  lemma ScheduleKeepsInv(t: Table)
    requires Parked(t) && CanSchedule(t)
    ensures Inv(Schedule(t))
  {
    hide Holds;
    var c := if t.ready == [] then IDLE else t.ready[0];
    QueueFacts(t);
    var p := t.procs[c].(state := RUNNING);
    if t.ready == [] {
      SlotSame(t.procs, c, p, t.ready, READY);
    } else {
      SlotLeaves(t.procs, c, p, t.ready, READY, 0);
      assert Without(t.ready, 0) == t.ready[1..];
    }
    SlotSame(t.procs, c, p, t.waiting, SLEEP);
    SlotSame(t.procs, c, p, t.killed, KILLED);
  }

  lemma QueueFacts(t: Table)
    requires Core(t)
    ensures Slots(t.ready, NUM_PROC) && Slots(t.waiting, NUM_PROC) && Slots(t.killed, NUM_PROC)
    ensures forall k :: 0 <= k < |t.ready| ==> 1 <= t.ready[k] && t.procs[t.ready[k]].state == READY
    ensures forall k :: 0 <= k < |t.waiting| ==> 1 <= t.waiting[k] && t.procs[t.waiting[k]].state == SLEEP
    ensures forall k :: 0 <= k < |t.killed| ==> 1 <= t.killed[k] && t.procs[t.killed[k]].state == KILLED
  {
  }

  /** Parking the current process at the end of the queue of its new state. */
  lemma ParkKeepsCore(t: Table, st: ProcState, w: int)
    requires Inv(t) && t.current != IDLE && (st == READY || st == SLEEP || st == KILLED)
    requires st == KILLED ==> w == t.procs[t.current].pid
    ensures var t1 := Park(t, st, w);
            Parked(t1.(ready := if st == READY then t1.ready + [t.current] else t1.ready,
                       waiting := if st == SLEEP then t1.waiting + [t.current] else t1.waiting,
                       killed := if st == KILLED then t1.killed + [t.current] else t1.killed))
  {
    hide Holds;
    var i, p := t.current, t.procs[t.current].(state := st, wait := w);
    if st == READY { SlotJoins(t.procs, i, p, t.ready, READY); } else { SlotSame(t.procs, i, p, t.ready, READY); }
    if st == SLEEP { SlotJoins(t.procs, i, p, t.waiting, SLEEP); } else { SlotSame(t.procs, i, p, t.waiting, SLEEP); }
    if st == KILLED { SlotJoins(t.procs, i, p, t.killed, KILLED); } else { SlotSame(t.procs, i, p, t.killed, KILLED); }
  }

  lemma IdleParked(t: Table) returns (t1: Table)
    requires Inv(t) && t.current == IDLE
    ensures t1 == t.(procs := t.procs[IDLE := t.procs[IDLE].(state := READY)]) && Parked(t1)
  {
    hide Holds;
    var p := t.procs[IDLE].(state := READY);
    t1 := t.(procs := t.procs[IDLE := p]);
    SlotSame(t.procs, IDLE, p, t.ready, READY);
    SlotSame(t.procs, IDLE, p, t.waiting, SLEEP);
    SlotSame(t.procs, IDLE, p, t.killed, KILLED);
  }

  /** No process but the idle one has pid 0, so a process that parks can always schedule. */
  lemma YieldKeepsInv(t: Table)
    requires Inv(t)
    ensures (t.ready == [] || CanSchedule(t)) && Inv(Yield(t))
  {
    hide Holds, Schedule;
    QueueFacts(t);
    if t.ready != [] {
      var t1 := ParkReady(t);
      if t.current == IDLE {
        t1 := IdleParked(t);
      } else {
        ParkKeepsCore(t, READY, t.procs[t.current].wait);
      }
      assert Parked(t1) && Yield(t) == Schedule(t1);
      QueueFacts(t1);
      ScheduleKeepsInv(t1);
    }
  }

  function ParkReady(t: Table): Table
    requires |t.procs| == NUM_PROC && t.current < NUM_PROC
  {
    Park(t, READY, t.procs[t.current].wait).(ready := t.ready + [t.current])
  }

  lemma SleepKeepsInv(t: Table, w: int)
    requires Inv(t) && t.current != IDLE
    ensures CanSchedule(t) && Inv(Sleep(t, w))
  {
    hide Holds;
    QueueFacts(t);
    ParkKeepsCore(t, SLEEP, w);
    ScheduleKeepsInv(Park(t, SLEEP, w).(waiting := t.waiting + [t.current]));
  }

  // ------------------------------------------------------------------------- wake_up

  lemma {:induction false} FilterFacts(procs: seq<Proc>, q: seq<nat>, w: int)
    requires Slots(q, |procs|)
    ensures forall x :: x in Matching(procs, q, w) <==> x in q && x < |procs| && procs[x].wait == w
    ensures forall x :: x in Others(procs, q, w) <==> x in q && x < |procs| && procs[x].wait != w
    ensures NoDup(q) ==> NoDup(Matching(procs, q, w)) && NoDup(Others(procs, q, w))
  {
    hide Matching, Others, NoDup;
    FilterStep(procs, q, w);
    NoDupFront(q, []);
    if q != [] {
      FilterFacts(procs, q[1..], w);
      NoDupFront(q, Matching(procs, q[1..], w));
      NoDupFront(q, Others(procs, q[1..], w));
    }
  }

  lemma FilterStep(procs: seq<Proc>, q: seq<nat>, w: int)
    requires Slots(q, |procs|)
    ensures q == [] ==> Matching(procs, q, w) == [] && Others(procs, q, w) == []
    ensures q != [] ==>
              var m, o := Matching(procs, q[1..], w), Others(procs, q[1..], w);
              && Matching(procs, q, w) == (if procs[q[0]].wait == w then [q[0]] + m else m)
              && Others(procs, q, w) == (if procs[q[0]].wait != w then [q[0]] + o else o)
  {
  }

  /** The first of q in front of r, which shares no more with q than what is behind the first */
  lemma NoDupFront(q: seq<nat>, r: seq<nat>)
    ensures NoDup([])
    ensures q != [] ==> forall x :: x in q <==> x == q[0] || x in q[1..]
    ensures q != [] && NoDup(q) ==> NoDup(q[1..])
    ensures q != [] && NoDup(q) && NoDup(r) && (forall x :: x in r ==> x in q[1..]) ==> NoDup([q[0]] + r)
  {
    if q != [] && NoDup(q) && NoDup(r) && forall x :: x in r ==> x in q[1..] {
      assert q[0] !in q[1..];
      forall i, j | 0 <= i < j < |[q[0]] + r|
        ensures ([q[0]] + r)[i] != ([q[0]] + r)[j]
      {
        assert r[j - 1] in r;
      }
    }
  }

  lemma WakeUpKeepsCore(t: Table, w: int)
    requires Core(t)
    ensures Slots(t.waiting, NUM_PROC) && Core(WakeUp(t, w))
    ensures forall i :: 0 <= i < NUM_PROC ==> (WakeUp(t, w).procs[i].state == RUNNING <==> t.procs[i].state == RUNNING)
  {
    hide Holds, PidsOk, Matching, Others, SetStates;
    QueueFacts(t);
    FilterFacts(t.procs, t.waiting, w);
    HoldsNoDup(t.procs, t.waiting, SLEEP);
    var woken := Matching(t.procs, t.waiting, w);
    MembersSleep(t, woken);
    WokenReady(t.procs, t.ready, woken);
    WokenSleep(t.procs, t.waiting, woken, Others(t.procs, t.waiting, w));
    WokenKilled(t.procs, t.killed, woken);
    WokenOthers(t.procs, t.pidNum, woken);
  }

  lemma HoldsNoDup(procs: seq<Proc>, q: seq<nat>, st: ProcState)
    requires Holds(procs, q, st)
    ensures NoDup(q)
  {
  }

  lemma MembersSleep(t: Table, woken: seq<nat>)
    requires Core(t) && forall x :: x in woken ==> x in t.waiting
    ensures forall k :: 0 <= k < |woken| ==> 1 <= woken[k] < NUM_PROC && t.procs[woken[k]].state == SLEEP
  {
    forall k | 0 <= k < |woken|
      ensures 1 <= woken[k] < NUM_PROC && t.procs[woken[k]].state == SLEEP
    {
      assert woken[k] in woken;
    }
  }

  lemma WokenOthers(procs: seq<Proc>, pidNum: int, woken: seq<nat>)
    requires PidsOk(procs, pidNum) && forall k :: 0 <= k < |woken| ==> 1 <= woken[k] < |procs| && procs[woken[k]].state == SLEEP
    ensures PidsOk(SetStates(procs, woken, READY), pidNum)
    ensures forall i :: 0 <= i < NUM_PROC ==>
              var p := SetStates(procs, woken, READY)[i]; p == procs[i] || (procs[i].state == SLEEP && p == procs[i].(state := READY))
    ensures SetStates(procs, woken, READY)[IDLE] == procs[IDLE]
  {
  }

  lemma WokenReady(procs: seq<Proc>, ready: seq<nat>, woken: seq<nat>)
    requires Holds(procs, ready, READY) && NoDup(woken)
    requires forall k :: 0 <= k < |woken| ==> 1 <= woken[k] < |procs| && procs[woken[k]].state == SLEEP
    ensures Holds(SetStates(procs, woken, READY), ready + woken, READY)
  {
    var q := ready + woken;
    forall i | 1 <= i < |procs| && SetStates(procs, woken, READY)[i].state == READY
      ensures i in q
    {
      if i in woken {
        var k :| 0 <= k < |woken| && woken[k] == i;
        assert q[|ready| + k] == i;
      } else {
        var k :| 0 <= k < |ready| && ready[k] == i;
        assert q[k] == i;
      }
    }
  }

  lemma WokenSleep(procs: seq<Proc>, waiting: seq<nat>, woken: seq<nat>, rest: seq<nat>)
    requires Holds(procs, waiting, SLEEP) && NoDup(rest)
    requires forall x :: x in waiting <==> x in woken || x in rest
    requires forall x :: x in woken ==> x !in rest
    ensures Holds(SetStates(procs, woken, READY), rest, SLEEP)
  {
    forall k | 0 <= k < |rest|
      ensures 1 <= rest[k] < |procs| && SetStates(procs, woken, READY)[rest[k]].state == SLEEP
    {
      assert rest[k] in rest && rest[k] in waiting;
    }
  }

  lemma WokenKilled(procs: seq<Proc>, killed: seq<nat>, woken: seq<nat>)
    requires Holds(procs, killed, KILLED)
    requires forall k :: 0 <= k < |woken| ==> 1 <= woken[k] < |procs| && procs[woken[k]].state == SLEEP
    ensures Holds(SetStates(procs, woken, READY), killed, KILLED)
  {
  }

  lemma WakeUpKeepsInv(t: Table, w: int)
    requires Inv(t)
    ensures Slots(t.waiting, NUM_PROC) && Inv(WakeUp(t, w))
  {
    hide Holds, SetStates, WakeUp;
    WakeUpKeepsCore(t, w);
    assert WakeUp(t, w).current == t.current by { QueueFacts(t); CurrentSame(t, w); }
  }

  lemma CurrentSame(t: Table, w: int)
    requires Slots(t.waiting, |t.procs|)
    ensures WakeUp(t, w).current == t.current
  {
  }

  /** The current process has been killed, but nobody has been told. */
  function Dying(t: Table): Table
    requires |t.procs| == NUM_PROC && t.current < NUM_PROC
  {
    Park(t, KILLED, t.procs[t.current].pid).(killed := t.killed + [t.current])
  }

  lemma DyingParked(t: Table)
    requires Inv(t) && t.current != IDLE
    ensures CanSchedule(t) && t.procs[t.current].pid != 0 && Slots(t.waiting, NUM_PROC)
    ensures Parked(Dying(t)) && Keeps(t, Dying(t))
  {
    hide Holds;
    QueueFacts(t);
    ParkKeepsCore(t, KILLED, t.procs[t.current].pid);
  }

  lemma DyingCanSchedule(t: Table)
    requires Parked(t) && t.current != IDLE && t.procs[t.current].state == KILLED
    ensures CanSchedule(t)
  {
    QueueFacts(t);
  }

  // -------------------------------------------------------------------- wait and fork

  lemma ReapKeepsInv(t: Table, pid: int)
    requires Inv(t)
    ensures Slots(t.killed, NUM_PROC)
    ensures Reapable(t, pid).Some? ==>
              var s := Reapable(t, pid).value;
              // the source's ASSERT; and it is not the current process, nor the idle one
              && t.procs[s].state == KILLED && t.procs[s].pid == pid && s != t.current && s != IDLE
              && Inv(Reap(t, pid))
  {
    QueueFacts(t);
    if Reapable(t, pid).Some? {
      var k := FirstMatch(t.procs, t.killed, pid);
      var s := t.killed[k];
      hide Holds;
      SlotSame(t.procs, s, NO_PROC, t.ready, READY);
      SlotSame(t.procs, s, NO_PROC, t.waiting, SLEEP);
      SlotLeaves(t.procs, s, NO_PROC, t.killed, KILLED, k);
    }
  }

  lemma ReapEffect(t: Table, pid: int)
    requires Inv(t) && Slots(t.killed, NUM_PROC) && Reapable(t, pid).Some?
    ensures |Reap(t, pid).procs| == NUM_PROC && Reap(t, pid).current == t.current && Keeps(t, Reap(t, pid))
    ensures forall i :: 0 <= i < NUM_PROC ==> Reap(t, pid).procs[i] == if i == Reapable(t, pid).value then NO_PROC else t.procs[i]
    ensures 1 <= Reapable(t, pid).value < NUM_PROC && t.procs[Reapable(t, pid).value].state == KILLED
  {
    QueueFacts(t);
  }

  /** wait(pid) finds its process exactly when a killed process has that pid. */
  lemma ReapableIffKilled(t: Table, pid: int)
    requires Inv(t)
    ensures Slots(t.killed, NUM_PROC)
    ensures Reapable(t, pid).Some? <==> exists i :: 1 <= i < NUM_PROC && t.procs[i].state == KILLED && t.procs[i].pid == pid
  {
    QueueFacts(t);
    var k := FirstMatch(t.procs, t.killed, pid);
    if k < |t.killed| {
      assert t.procs[t.killed[k]].pid == pid;
    }
    forall i | 1 <= i < NUM_PROC && t.procs[i].state == KILLED && t.procs[i].pid == pid
      ensures k < |t.killed|
    {
      var m :| 0 <= m < |t.killed| && t.killed[m] == i;
    }
  }

  lemma ForkKeepsInv(t: Table, stack: nat, pageMap: nat)
    requires Inv(t)
    ensures FirstUnused(t.procs, 0) < NUM_PROC ==>
              FirstUnused(t.procs, 0) != IDLE && FirstUnused(t.procs, 0) != t.current && Inv(Fork(t, stack, pageMap))
  {
    var i := FirstUnused(t.procs, 0);
    if i < NUM_PROC {
      hide Holds;
      var p := Fork(t, stack, pageMap).procs[i];
      SlotJoins(t.procs, i, p, t.ready, READY);
      SlotSame(t.procs, i, p, t.waiting, SLEEP);
      SlotSame(t.procs, i, p, t.killed, KILLED);
    }
  }

  // --------------------------------------------------- what they do to the single slots

  /** Apart from taking turns, nothing has happened to the process. */
  predicate TookTurns(p: Proc, p': Proc) {
    p' == p || ((p.state == READY || p.state == RUNNING) && (p'.state == READY || p'.state == RUNNING) && p' == p.(state := p'.state))
  }

  /** What has been scheduled so far, followed by what will be next. */
  function Stream(t: Table): seq<nat> {
    t.log + t.ready
  }

  /** From t to t', nobody has been taken out of turn and no pid has been handed out. */
  predicate Keeps(t: Table, t': Table) {
    && |t'.procs| == |t.procs| && t'.pidNum == t.pidNum
    && t.log <= t'.log && Stream(t) <= Stream(t')
  }

  lemma WakeUpEffect(t: Table, w: int)
    requires Core(t)
    ensures Slots(t.waiting, NUM_PROC) && |WakeUp(t, w).procs| == NUM_PROC
    ensures forall i :: 0 <= i < NUM_PROC ==>
              WakeUp(t, w).procs[i] == if t.procs[i].state == SLEEP && t.procs[i].wait == w then t.procs[i].(state := READY) else t.procs[i]
    ensures WakeUp(t, w).current == t.current && Keeps(t, WakeUp(t, w))
  {
    QueueFacts(t);
    FilterFacts(t.procs, t.waiting, w);
    forall i | 0 <= i < NUM_PROC
      ensures i in t.waiting <==> t.procs[i].state == SLEEP
    {
      if i in t.waiting {
        var k :| 0 <= k < |t.waiting| && t.waiting[k] == i;
      }
    }
  }

  lemma ScheduleEffect(t: Table)
    requires Parked(t) && CanSchedule(t)
    ensures Schedule(t).current < NUM_PROC && Keeps(t, Schedule(t))
    ensures forall i :: 0 <= i < NUM_PROC ==> TookTurns(t.procs[i], Schedule(t).procs[i])
  {
  }

  lemma YieldEffect(t: Table)
    requires Inv(t)
    ensures (t.ready == [] || CanSchedule(t)) && Inv(Yield(t)) && Keeps(t, Yield(t))
    ensures forall i :: 0 <= i < NUM_PROC ==> TookTurns(t.procs[i], Yield(t).procs[i])
  {
    hide Holds, PidsOk;
    YieldKeepsInv(t);
    QueueFacts(t);
  }

  /** The timer interrupt: wake the sleepers with reason w and yield. */
  lemma TimerEffect(t: Table, w: int)
    requires Inv(t)
    ensures Slots(t.waiting, NUM_PROC) && |WakeUp(t, w).procs| == NUM_PROC && WakeUp(t, w).current < NUM_PROC
    ensures WakeUp(t, w).ready == [] || CanSchedule(WakeUp(t, w))
    ensures Inv(Yield(WakeUp(t, w))) && Keeps(t, Yield(WakeUp(t, w)))
    ensures forall i :: 0 <= i < NUM_PROC ==>
              var p := t.procs[i];
              TookTurns(if p.state == SLEEP && p.wait == w then p.(state := READY) else p, Yield(WakeUp(t, w)).procs[i])
  {
    hide Holds, WakeUp, Yield;
    WakeUpKeepsInv(t, w);
    WakeUpEffect(t, w);
    YieldEffect(WakeUp(t, w));
  }

  /** The keyboard interrupt: wake the sleepers with reason w. */
  lemma KeyEffect(t: Table, w: int)
    requires Inv(t)
    ensures Slots(t.waiting, NUM_PROC) && Inv(WakeUp(t, w)) && Keeps(t, WakeUp(t, w))
    ensures forall i :: 0 <= i < NUM_PROC ==>
              var p := t.procs[i];
              TookTurns(if p.state == SLEEP && p.wait == w then p.(state := READY) else p, WakeUp(t, w).procs[i])
  {
    hide Holds, WakeUp;
    WakeUpKeepsInv(t, w);
    WakeUpEffect(t, w);
  }

  lemma SleepEffect(t: Table, w: int)
    requires Inv(t) && t.current != IDLE
    ensures CanSchedule(t) && Inv(Sleep(t, w)) && Keeps(t, Sleep(t, w))
    ensures Sleep(t, w).procs[t.current] == t.procs[t.current].(state := SLEEP, wait := w)
    ensures forall i :: 0 <= i < NUM_PROC && i != t.current ==> TookTurns(t.procs[i], Sleep(t, w).procs[i])
  {
    hide Holds, PidsOk;
    SleepKeepsInv(t, w);
    QueueFacts(t);
  }

  lemma ExitEffect(t: Table)
    requires Inv(t) && t.current != IDLE
    ensures CanSchedule(t) && t.procs[t.current].pid != 0 && Slots(t.waiting, NUM_PROC) && Inv(Exit(t))
    ensures Keeps(t, Exit(t))
    ensures var p := t.procs[t.current]; Exit(t).procs[t.current] == p.(state := KILLED, wait := p.pid)
    ensures forall i :: 0 <= i < NUM_PROC && i != t.current ==>
              var p := t.procs[i];
              TookTurns(if p.state == SLEEP && p.wait == -3 then p.(state := READY) else p, Exit(t).procs[i])
  {
    hide Holds, PidsOk, WakeUp, Schedule;
    var t1 := Dying(t);
    DyingParked(t);
    WakeUpKeepsCore(t1, -3);
    WakeUpEffect(t1, -3);
    DyingCanSchedule(WakeUp(t1, -3));
    ScheduleKeepsInv(WakeUp(t1, -3));
    ScheduleEffect(WakeUp(t1, -3));
  }

  // -------------------------------------------------------------- who runs, and who is next

  /** With nobody ready, yield changes nothing.  Otherwise the first ready process runs, and the
      one that ran goes to the end of the list, unless it is the idle one. */
  lemma YieldTurns(t: Table)
    requires Inv(t)
    ensures t.ready == [] ==> Yield(t) == t
    ensures t.ready != [] ==>
              var y := Yield(t);
              && y.current == t.ready[0] != t.current && |y.procs| == NUM_PROC && y.procs[y.current].state == RUNNING
              && y.procs[t.current].state == READY && y.log == t.log + [t.ready[0]]
              && y.ready == t.ready[1..] + (if t.current == IDLE then [] else [t.current])
              && y.waiting == t.waiting && y.killed == t.killed
  {
    QueueFacts(t);
  }

  /** fork makes the first unused slot a ready process behind the others, with the next pid; the
      process that called it goes on. */
  lemma ForkEffect(t: Table, stack: nat, pageMap: nat)
    requires Inv(t) && FirstUnused(t.procs, 0) < NUM_PROC
    ensures var i, t' := FirstUnused(t.procs, 0), Fork(t, stack, pageMap);
            && |t'.procs| == NUM_PROC && t.procs[i].state == UNUSED && t'.procs[i].state == READY && t'.procs[i].pid == t.pidNum
            && t'.procs[i].stack == stack && t'.procs[i].pageMap == pageMap
            && (forall j :: 0 <= j < NUM_PROC && j != i ==> t'.procs[j] == t.procs[j])
            && (forall j :: 0 <= j < NUM_PROC && t.procs[j].state != UNUSED ==> t.procs[j].pid != t.pidNum)
            && t'.pidNum == t.pidNum + 1 && t'.ready == t.ready + [i] && t'.current == t.current && t'.log == t.log
  {
    hide Holds;
  }
}
