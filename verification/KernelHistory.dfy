/** What holds over whole runs of the kernel: nobody is passed over, no wake-up is lost, no
    process is reaped twice, and the characters typed are read once each, in order. */
module KernelHistory {
  import opened Common
  import opened Scheduler
  import opened KernelRuns
  import opened KeyBuffer

  ghost predicate Possible(w: World, es: seq<Event>)
    requires Ok(w)
    decreases |es|
  {
    es == [] || (Enabled(w, es[0]) && (StepKeepsOk(w, es[0]); Possible(Step(w, es[0]), es[1..])))
  }

  /** The state after the events es. */
  ghost function Run(w: World, es: seq<Event>): (w': World)
    requires Ok(w) && Possible(w, es)
    ensures Ok(w')
    decreases |es|
  {
    if es == [] then w else (StepKeepsOk(w, es[0]); Run(Step(w, es[0]), es[1..]))
  }

  /** What init_process leaves: the idle process running, the first user process ready. */
  function Boot(idleMap: nat, stack: nat, userMap: nat): World {
    World(BootTable(idleMap, stack, userMap), seq(NUM_PROC, _ => ToUser), 0,
          Keyboard(seq(SIZE, _ => '\0'), 0, 0), [], [])
  }

  lemma BootIsOk(idleMap: nat, stack: nat, userMap: nat)
    ensures Ok(Boot(idleMap, stack, userMap))
  {
    var w := Boot(idleMap, stack, userMap);
    assert w.table.ready[0] == 1;
    forall i | 0 <= i < NUM_PROC
      ensures SlotOk(w, i)
    {
    }
  }

  // ----------------------------------------------------------------- what only ever grows

  /** The pid has been handed out and its process is gone. */
  ghost predicate Retired(t: Table, pid: int) {
    pid < t.pidNum && forall i :: 1 <= i < |t.procs| && t.procs[i].state != UNUSED ==> t.procs[i].pid != pid
  }

  ghost predicate Onward(w: World, w': World) {
    && w.table.log <= w'.table.log && Stream(w.table) <= Stream(w'.table)
    && w.typed <= w'.typed && w.read <= w'.read
    && (forall pid :: Retired(w.table, pid) ==> Retired(w'.table, pid))
  }

  /** No process has appeared or changed its pid. */
  ghost predicate NoneBorn(t: Table, t': Table) {
    && |t.procs| == |t'.procs|
    && forall i :: 0 <= i < |t.procs| && t'.procs[i].state != UNUSED ==>
         t.procs[i].state != UNUSED && t'.procs[i].pid == t.procs[i].pid
  }

  lemma OnwardByKeeping(w: World, w': World)
    requires Keeps(w.table, w'.table) && NoneBorn(w.table, w'.table)
    requires w.typed <= w'.typed && w.read <= w'.read
    ensures Onward(w, w')
  {
    hide Stream;
  }

  lemma SleepOnward(w: World, c: Cont)
    requires Ok(w) && w.table.current != IDLE
    ensures CanSchedule(w.table) && Onward(w, SleepIn(w, ReasonOf(c), c))
  {
    SleepEffect(w.table, ReasonOf(c));
    hide Inv, Scheduler.Sleep, Keeps, SlotOk;
    OnwardByKeeping(w, SleepIn(w, ReasonOf(c), c));
  }

  lemma WaitOnward(w: World, pid: int)
    requires Ok(w) && w.table.current != IDLE
    ensures CanSchedule(w.table) && Slots(w.table.killed, NUM_PROC) && Onward(w, WaitTurn(w, pid))
  {
    SleepOnward(w, InWait(pid));
    ReapKeepsInv(w.table, pid);
    if Reapable(w.table, pid).Some? {
      ReapEffect(w.table, pid);
      hide Inv, Reap, Reapable, Keeps, SlotOk;
      OnwardByKeeping(w, WaitTurn(w, pid));
    }
  }

  lemma ForkOnward(w: World, stack: nat, pageMap: nat)
    requires Ok(w) && Enabled(w, Event.Fork(stack, pageMap))
    ensures Onward(w, Step(w, Event.Fork(stack, pageMap)))
  {
    hide Holds, SlotOk;
    var t, t' := w.table, Scheduler.Fork(w.table, stack, pageMap);
    forall pid | Retired(t, pid)
      ensures Retired(t', pid)
    {
    }
  }

  lemma InterruptOnward(w: World, e: Event)
    requires Ok(w) && Enabled(w, e) && (e.Timer? || e.Key? || e.Exit?)
    ensures Onward(w, Step(w, e))
  {
    hide Inv, Scheduler.Exit, WakeUp, Yield, Stream, SlotOk;
    Basics(w);
    var w' := Step(w, e);
    match e {
      case Timer => TimerEffect(w.table, WAIT_TICKS); assert w'.table == Yield(WakeUp(w.table, WAIT_TICKS));
      case Key(_) => KeyEffect(w.table, WAIT_KEY); assert w'.table == WakeUp(w.table, WAIT_KEY);
      case Exit => ExitEffect(w.table); assert w'.table == Scheduler.Exit(w.table);
    }
    OnwardByKeeping(w, w');
  }

  lemma StepOnward(w: World, e: Event)
    requires Ok(w) && Enabled(w, e)
    ensures Onward(w, Step(w, e))
  {
    hide Inv, SlotOk, Onward;
    StepIsSafe(w, e);
    match e
    case Timer => InterruptOnward(w, e);
    case Key(_) => InterruptOnward(w, e);
    case Exit => InterruptOnward(w, e);
    case Fork(stack, pageMap) => ForkOnward(w, stack, pageMap);
    case Wait(pid) => WaitOnward(w, pid);
    case SleepFor(length) => TurnOnward(w, InSleep(w.ticks, length));
    case Read => TurnOnward(w, InRead(w.keys.front));
    case Resume =>
      var c := w.cont[w.table.current];
      if c.InWait? {
        WaitOnward(w, c.pid);
      } else {
        TurnOnward(w, c);
      }
  }

  /** A turn of sys_sleep or of the keyboard read sleeps, or gives a result. */
  lemma TurnOnward(w: World, c: Cont)
    requires Ok(w) && w.table.current != IDLE
    ensures CanSchedule(w.table) && Onward(w, SleepIn(w, ReasonOf(c), c))
    ensures Onward(w, Continue(w)) && (InOrder(w.keys) ==> Onward(w, TakeKey(w, w.keys.front)))
  {
    SleepOnward(w, c);
    hide Inv, SlotOk;
  }

  lemma {:induction false} RunOnward(w: World, es: seq<Event>)
    requires Ok(w) && Possible(w, es)
    ensures Onward(w, Run(w, es))
    decreases |es|
  {
    hide Ok, Enabled, Step, Retired, Stream;
    if es != [] {
      StepKeepsOk(w, es[0]);
      StepOnward(w, es[0]);
      RunOnward(Step(w, es[0]), es[1..]);
    }
  }

  // -------------------------------------------------------------------------- the theorems

  /** Queueing: log + ready only grows at its end, so its members are dispatched in order. */
  lemma InTurn(t: Table, t': Table, k: nat)
    requires NoDup(t.ready) && k < |t.ready| && t.log <= t'.log && Stream(t) <= Stream(t')
    ensures var calls := |t'.log| - |t.log|;
            if calls <= k then k - calls < |t'.ready| && t'.ready[k - calls] == t.ready[k]
            else t'.log[|t.log| + k] == t.ready[k] && forall j :: |t.log| <= j < |t.log| + k ==> t'.log[j] != t.ready[k]
  {
    assert forall j :: 0 <= j < |Stream(t)| ==> Stream(t)[j] == Stream(t')[j];
    assert Stream(t')[|t.log| + k] == t.ready[k];
    forall j | |t.log| <= j < |t.log| + k && j < |t'.log|
      ensures t'.log[j] != t.ready[k]
    {
      assert Stream(t')[j] == t.ready[j - |t.log|];
    }
  }

  /** A process at position k of the ready list moves up by one place at every later call of
      schedule, and the (k+1)-th of them, none before, makes it the current process. */
  lemma TurnComes(w: World, es: seq<Event>, k: nat)
    requires Ok(w) && Possible(w, es) && k < |w.table.ready|
    ensures |w.table.log| <= |Run(w, es).table.log|
    ensures var t, t' := w.table, Run(w, es).table;
            var calls := |t'.log| - |t.log|;
            if calls <= k then k - calls < |t'.ready| && t'.ready[k - calls] == t.ready[k]
            else t'.log[|t.log| + k] == t.ready[k] && forall j :: |t.log| <= j < |t.log| + k ==> t'.log[j] != t.ready[k]
  {
    hide Inv, SlotOk, Run, Possible, Stream, NoDup, Retired;
    RunOnward(w, es);
    ReadyFacts(w.table);
    InTurn(w.table, Run(w, es).table, k);
  }

  lemma {:induction false} DistinctSlots(q: seq<nat>, n: nat)
    requires NoDup(q) && forall k :: 0 <= k < |q| ==> 1 <= q[k] <= n
    ensures |q| <= n
  {
    if q != [] && 1 <= q[0] {
      if k :| 0 <= k < |q| && q[k] == n {
        DistinctSlots(Without(q, k), n - 1);
      } else {
        DistinctSlots(q, n - 1);
      }
    }
  }

  /** Hence every ready process is dispatched within 19 calls of schedule. */
  lemma NobodyStarves(w: World, es: seq<Event>, k: nat)
    requires Ok(w) && Possible(w, es) && k < |w.table.ready|
    requires |Run(w, es).table.log| >= |w.table.log| + 19
    ensures exists c :: |w.table.log| <= c < |w.table.log| + 19 && Run(w, es).table.log[c] == w.table.ready[k]
  {
    ReadyFacts(w.table);
    TurnComes(w, es, k);
    hide Ok, Run;
    assert Run(w, es).table.log[|w.table.log| + k] == w.table.ready[k];
  }

  lemma ReadyFacts(t: Table)
    requires Inv(t)
    ensures NoDup(t.ready)
    ensures |t.ready| <= NUM_PROC - 1
  {
    DistinctSlots(t.ready, NUM_PROC - 1);
  }

  /** In every reachable state a process asleep inside wait(pid) has no killed process to
      wait for, one asleep inside sys_sleep has ticks left, and one asleep inside the keyboard
      read faces an empty ring. */
  lemma NoLostWakeUp(w: World, es: seq<Event>, i: nat)
    requires Ok(w) && Possible(w, es) && i < NUM_PROC
    ensures |Run(w, es).table.procs| == |Run(w, es).cont| == NUM_PROC
    ensures var w' := Run(w, es);
            w'.table.procs[i].state == SLEEP ==>
              match w'.cont[i]
              case ToUser => false
              case InWait(pid) => w'.table.procs[i].wait == WAIT_EXIT && !HasKilled(w'.table, pid)
              case InSleep(since, length) => w'.table.procs[i].wait == WAIT_TICKS && w'.ticks - since < length
              case InRead(_) => w'.table.procs[i].wait == WAIT_KEY && Waiting(w'.keys) == []
  {
    assert SlotOk(Run(w, es), i);
  }

  /** Once wait has reaped pid, no later wait ever finds a process with that pid. */
  lemma ReapedOnce(w: World, e: Event, pid: int, es: seq<Event>)
    requires Ok(w) && Enabled(w, e)
    requires e == Wait(pid) || (e == Resume && w.cont[w.table.current] == InWait(pid))
    requires Slots(w.table.killed, NUM_PROC) && Reapable(w.table, pid).Some?
    requires Ok(Step(w, e)) && Possible(Step(w, e), es)
    ensures var t := Run(Step(w, e), es).table; Slots(t.killed, NUM_PROC) && Reapable(t, pid).None?
  {
    var w1 := Step(w, e);
    ReapRetires(w.table, pid);
    RunOnward(w1, es);
    RetiredNotReapable(Run(w1, es).table, pid);
  }

  lemma ReapRetires(t: Table, pid: int)
    requires Inv(t) && Slots(t.killed, NUM_PROC) && Reapable(t, pid).Some?
    ensures Retired(Reap(t, pid), pid)
  {
    QueueFacts(t);
    ReapKeepsInv(t, pid);
    ReapEffect(t, pid);
  }

  lemma RetiredNotReapable(t: Table, pid: int)
    requires Inv(t) && Retired(t, pid)
    ensures Slots(t.killed, NUM_PROC) && Reapable(t, pid).None?
  {
    ReapableIffKilled(t, pid);
  }

  /** The characters delivered are exactly the first of those that went into the ring, in
      order; what was delivered stays so. */
  lemma KeysInOrder(w: World, es: seq<Event>)
    requires Ok(w) && Possible(w, es)
    ensures var w' := Run(w, es); w'.read <= w'.typed && w.read <= w'.read && w.typed <= w'.typed
    ensures |Run(w, es).typed| - |Run(w, es).read| <= 499
  {
    RunOnward(w, es);
    hide Inv, SlotOk, Onward;
    assert KeysOk(Run(w, es));
  }

  /** While a reader is suspended, in any run, the place it saved before sleeping is still the
      front of the ring, and when it is woken there is a character in that place. */
  lemma SavedFrontStands(w: World, es: seq<Event>, i: nat)
    requires Ok(w) && Possible(w, es) && i < NUM_PROC
    ensures |Run(w, es).table.procs| == |Run(w, es).cont| == NUM_PROC && InOrder(Run(w, es).keys)
    ensures var w' := Run(w, es);
            w'.cont[i].InRead? ==>
              && w'.cont[i].saved == w'.keys.front
              && (w'.table.procs[i].state != SLEEP ==>
                    Waiting(w'.keys) != [] && w'.keys.buffer[w'.cont[i].saved] == Waiting(w'.keys)[0])
  {
    var w' := Run(w, es);
    hide Inv, Run, Possible, Waiting;
    assert SlotOk(w', i) && KeysOk(w');
    if w'.keys.front != w'.keys.end {
      RingNotEmpty(w'.keys);
      AdvancedWaits(w'.keys);
    }
  }

  lemma RingNotEmpty(k: Keyboard)
    requires InOrder(k) && k.front != k.end
    ensures Waiting(k) != []
  {
  }

  /** A reader that continues, or that finds a character at once, gets the oldest one not yet
      delivered. */
  lemma ReaderGetsOldest(w: World, e: Event)
    requires Ok(w) && Enabled(w, e)
    requires (e == Read && w.keys.front != w.keys.end) || (e == Resume && w.cont[w.table.current].InRead?)
    ensures |w.read| < |w.typed| && Step(w, e).read == w.read + [w.typed[|w.read|]]
    ensures Step(w, e).cont[w.table.current] == ToUser && Step(w, e).table == w.table
  {
    StepIsSafe(w, e);
    hide Inv, SlotOk;
  }
}
