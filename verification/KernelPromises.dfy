/** What the system calls and the timer interrupt promise, over whole runs: who is preempted and
    when, and when a call that sleeps comes back. */
module KernelPromises {
  import opened Common
  import opened Scheduler
  import opened KernelRuns
  import opened KernelHistory
  import opened KeyBuffer

  /** The timer interrupts among the events. */
  function TimersIn(es: seq<Event>): nat {
    if es == [] then 0 else (if es[0].Timer? then 1 else 0) + TimersIn(es[1..])
  }

  /** The clock counts the timer interrupts. */
  lemma {:induction false} TicksCountTimers(w: World, es: seq<Event>)
    requires Ok(w) && Possible(w, es)
    ensures Run(w, es).ticks == w.ticks + TimersIn(es)
    decreases |es|
  {
    hide Ok, Step, Enabled;
    if es != [] {
      StepKeepsOk(w, es[0]);
      OneTick(w, es[0]);
      TicksCountTimers(Step(w, es[0]), es[1..]);
    }
  }

  lemma OneTick(w: World, e: Event)
    requires Ok(w) && Enabled(w, e)
    ensures Step(w, e).ticks == w.ticks + if e.Timer? then 1 else 0
  {
    hide Inv, SlotOk, WakeUp, Yield, Scheduler.Exit, Scheduler.Sleep, Reap, Reapable;
  }

  // ------------------------------------------------------------------------- preemption

  /** A timer interrupt that finds or wakes a ready process takes the processor away: the first
      ready process runs and the interrupted one, the idle one aside, is ready at the end. */
  lemma TimerPreempts(w: World)
    requires Ok(w) && Enabled(w, Timer)
    ensures Slots(w.table.waiting, |w.table.procs|)
    ensures var t, t' := WakeUp(w.table, WAIT_TICKS), Step(w, Timer).table;
            && w.table.ready <= t.ready && t.current == w.table.current
            && if t.ready == [] then t'.current == w.table.current && t'.log == w.table.log
               else
                 && t'.current == t.ready[0] != w.table.current && t'.log == w.table.log + [t.ready[0]]
                 && t'.ready == t.ready[1..] + if w.table.current == IDLE then [] else [w.table.current]
  {
    hide Inv, SlotOk, Yield;
    Basics(w);
    WakeUpKeepsInv(w.table, WAIT_TICKS);
    YieldTurns(WakeUp(w.table, WAIT_TICKS));
  }

  /** While process at position k has not had its turn, each timer interrupt is one more call of
      schedule. */
  lemma {:induction false} TimersSchedule(w: World, es: seq<Event>, k: nat)
    requires Ok(w) && Possible(w, es) && k < |w.table.ready|
    ensures |Run(w, es).table.log| >= |w.table.log| + if TimersIn(es) <= k then TimersIn(es) else k + 1
    decreases |es|
  {
    hide Ok, Step, Enabled, Inv;
    if es != [] {
      StepKeepsOk(w, es[0]);
      var w1 := Step(w, es[0]);
      FirstStep(w, es[0], k);
      RunOnward(w1, es[1..]);
      var calls := |w1.table.log| - |w.table.log|;
      if calls <= k {
        TimersSchedule(w1, es[1..], k - calls);
      }
    }
  }

  lemma FirstStep(w: World, e: Event, k: nat)
    requires Ok(w) && Enabled(w, e) && k < |w.table.ready| && Ok(Step(w, e))
    ensures var calls := |Step(w, e).table.log| - |w.table.log|;
            calls >= 0 && (e.Timer? ==> calls == 1) && (calls <= k ==> k - calls < |Step(w, e).table.ready|)
  {
    hide Ok, Inv, Step, Enabled;
    assert Possible(w, [e]) && Run(w, [e]) == Step(w, e) by {
      assert [e][1..] == [];
      assert Possible(Step(w, e), []) && Run(Step(w, e), []) == Step(w, e);
    }
    TurnComes(w, [e], k);
    if e.Timer? {
      TimerPreempts(w);
    }
  }

  /** So the process at position k of the ready list gets the processor within k + 1 timer
      interrupts, whatever the others do. */
  lemma PreemptedInTurn(w: World, es: seq<Event>, k: nat)
    requires Ok(w) && Possible(w, es) && k < |w.table.ready| && k < TimersIn(es)
    ensures |w.table.log| + k < |Run(w, es).table.log| && Run(w, es).table.log[|w.table.log| + k] == w.table.ready[k]
  {
    hide Ok, Run, Possible, TimersIn;
    TimersSchedule(w, es, k);
    TurnComes(w, es, k);
  }

  // --------------------------------------------------------------------- calls that sleep

  /** Inside the kernel a process can only be resumed. */
  lemma OnlyResume(w: World, e: Event)
    requires Ok(w) && w.cont[w.table.current] != ToUser
    ensures Enabled(w, e) <==> e == Resume
  {
  }

  lemma WaitConts(w: World, pid: int)
    requires CanSchedule(w.table) && |w.cont| == NUM_PROC && Slots(w.table.killed, NUM_PROC)
    ensures |WaitTurn(w, pid).cont| == NUM_PROC
    ensures forall i :: 0 <= i < NUM_PROC && i != w.table.current ==> WaitTurn(w, pid).cont[i] == w.cont[i]
  {
  }

  /** What other processes and interrupts do leaves the place where a process continues. */
  lemma ContStays(w: World, e: Event, i: nat)
    requires Ok(w) && Enabled(w, e) && i < NUM_PROC && i != w.table.current
    ensures |w.cont| == |Step(w, e).cont| == NUM_PROC && Step(w, e).cont[i] == w.cont[i]
  {
    hide Inv, SlotOk, WakeUp, Yield, Scheduler.Exit, Scheduler.Sleep, Reap, Reapable;
    StepIsSafe(w, e);
    Basics(w);
    match e
    case Resume =>
      match w.cont[w.table.current] {
        case InWait(pid) => WaitConts(w, pid); assert Step(w, e) == WaitTurn(w, pid);
        case InSleep(since, length) => assert Step(w, e) == SleepTurn(w, since, length);
        case InRead(saved) => assert Step(w, e) == TakeKey(w, saved);
      }
    case Wait(pid) => WaitConts(w, pid); assert Step(w, e) == WaitTurn(w, pid);
    case SleepFor(length) => assert Step(w, e) == SleepTurn(w, w.ticks, length);
    case Read => assert Step(w, e).cont == w.cont[w.table.current := Step(w, e).cont[w.table.current]];
    case Timer => assert Step(w, e).cont == w.cont;
    case Key(_) => assert Step(w, e).cont == w.cont;
    case Exit => assert Step(w, e).cont == w.cont;
    case Fork(_, _) => assert Step(w, e).cont == w.cont;
  }

  /** The first event of a run. */
  lemma FirstEvent(w: World, e: Event, es: seq<Event>)
    requires Ok(w) && Possible(w, [e] + es)
    ensures Enabled(w, e) && Ok(Step(w, e)) && Possible(Step(w, e), es) && Run(w, [e] + es) == Run(Step(w, e), es)
  {
    hide Ok, Enabled, Step;
    assert ([e] + es)[0] == e && ([e] + es)[1..] == es;
    StepKeepsOk(w, e);
  }

  /** sys_sleep: with ticks to wait the caller falls asleep on the timer, otherwise it goes on. */
  lemma SleepBegins(w: World, length: nat)
    requires Ok(w) && Enabled(w, SleepFor(length))
    ensures var i, w1 := w.table.current, Step(w, SleepFor(length));
            if length == 0 then w1 == w
            else
              && |w1.table.procs| == |w1.cont| == NUM_PROC && i < NUM_PROC && w1.ticks == w.ticks
              && w1.table.procs[i].state == SLEEP && w1.table.procs[i].wait == WAIT_TICKS && w1.cont[i] == InSleep(w.ticks, length)
  {
    hide Inv, SlotOk, Scheduler.Sleep;
    StepIsSafe(w, SleepFor(length));
    SleepEffect(w.table, WAIT_TICKS);
  }

  lemma SleepStep(w: World, e: Event, i: nat, since: nat, length: nat)
    requires Ok(w) && Enabled(w, e) && i < NUM_PROC && w.cont[i] == InSleep(since, length)
    ensures |Step(w, e).cont| == NUM_PROC
    ensures Step(w, e).cont[i] == InSleep(since, length) || w.ticks >= since + length
  {
    hide Inv, SlotOk, WakeUp, Yield, Scheduler.Exit, Scheduler.Sleep, Reap, Reapable;
    StepIsSafe(w, e);
    if i == w.table.current {
      OnlyResume(w, e);
    } else {
      ContStays(w, e, i);
    }
  }

  lemma {:induction false} SleepLasts(w: World, es: seq<Event>, i: nat, since: nat, length: nat)
    requires Ok(w) && Possible(w, es) && i < NUM_PROC == |w.cont| && w.cont[i] == InSleep(since, length)
    ensures |Run(w, es).cont| == NUM_PROC
    ensures Run(w, es).cont[i] == InSleep(since, length) || Run(w, es).ticks >= since + length
    decreases |es|
  {
    hide Step, Enabled, Inv, SlotOk;
    if es != [] {
      StepKeepsOk(w, es[0]);
      SleepStep(w, es[0], i, since, length);
      OneTick(w, es[0]);
      TicksCountTimers(Step(w, es[0]), es[1..]);
      if Step(w, es[0]).cont[i] == InSleep(since, length) {
        SleepLasts(Step(w, es[0]), es[1..], i, since, length);
      }
    }
  }

  /** Over any run: a process that called sys_sleep is still inside that call, or at least length
      timer interrupts have come since. */
  lemma SleepsLongEnough(w: World, length: nat, es: seq<Event>)
    requires Ok(w) && Possible(w, [SleepFor(length)] + es)
    ensures w.table.current < |Run(w, [SleepFor(length)] + es).cont|
    ensures Run(w, [SleepFor(length)] + es).cont[w.table.current] == InSleep(w.ticks, length) || TimersIn(es) >= length
  {
    hide Ok, Step, Enabled, Run, Possible;
    FirstEvent(w, SleepFor(length), es);
    SleepBegins(w, length);
    var w1 := Step(w, SleepFor(length));
    TicksCountTimers(w1, es);
    CurrentInRange(w);
    if length > 0 {
      SleepLasts(w1, es, w.table.current, w.ticks, length);
    } else {
      ContsCount(Run(w1, es));
    }
  }

  lemma CurrentInRange(w: World)
    requires Ok(w)
    ensures w.table.current < NUM_PROC
  {
  }

  lemma ContsCount(w: World)
    requires Ok(w)
    ensures |w.cont| == NUM_PROC
  {
  }

  /** Once the ticks have passed, the sleeper is awake, and when it is resumed it returns, without
      giving up the processor. */
  lemma SleepEnds(w: World, i: nat, since: nat, length: nat)
    requires Ok(w) && i < NUM_PROC && w.cont[i] == InSleep(since, length) && w.ticks >= since + length
    ensures w.table.procs[i].state == READY || w.table.procs[i].state == RUNNING
    ensures i == w.table.current ==> Enabled(w, Resume) && Step(w, Resume) == w.(cont := w.cont[i := ToUser])
  {
    assert SlotOk(w, i);
  }

  /** wait(pid): if a process with that pid is killed, it is reaped and the caller goes on;
      otherwise the caller falls asleep until an exit. */
  lemma WaitBegins(w: World, pid: int)
    requires Ok(w) && Enabled(w, Wait(pid))
    ensures var i, w1 := w.table.current, Step(w, Wait(pid));
            && |w1.table.procs| == |w1.cont| == NUM_PROC && i < NUM_PROC
            && if HasKilled(w.table, pid) then Retired(w1.table, pid) && w1.cont[i] == ToUser && w1.table.current == i
               else w1.table.procs[i].state == SLEEP && w1.table.procs[i].wait == WAIT_EXIT && w1.cont[i] == InWait(pid)
  {
    TurnOfWait(w, pid);
  }

  lemma TurnOfWait(w: World, pid: int)
    requires Ok(w) && w.table.current != IDLE
    ensures CanSchedule(w.table) && Slots(w.table.killed, NUM_PROC)
    ensures var i, w1 := w.table.current, WaitTurn(w, pid);
            && |w1.table.procs| == |w1.cont| == NUM_PROC && i < NUM_PROC
            && if HasKilled(w.table, pid) then Retired(w1.table, pid) && w1.cont[i] == ToUser && w1.table.current == i
               else w1.table.procs[i].state == SLEEP && w1.table.procs[i].wait == WAIT_EXIT && w1.cont[i] == InWait(pid)
  {
    var t := w.table;
    ReapableIffKilled(t, pid);
    SleepEffect(t, WAIT_EXIT);
    if Reapable(t, pid).Some? {
      ReapRetires(t, pid);
      ReapEffect(t, pid);
    }
    hide Inv, SlotOk, Scheduler.Sleep, Reap, Reapable, Retired;
  }

  lemma WaitStep(w: World, e: Event, i: nat, pid: int)
    requires Ok(w) && Enabled(w, e) && i < NUM_PROC && w.cont[i] == InWait(pid)
    ensures |Step(w, e).cont| == NUM_PROC
    ensures Step(w, e).cont[i] == InWait(pid) || (HasKilled(w.table, pid) && Retired(Step(w, e).table, pid))
  {
    hide Inv, SlotOk, WakeUp, Yield, Scheduler.Exit, Scheduler.Sleep, Reap, Reapable, Retired, HasKilled;
    StepIsSafe(w, e);
    if i == w.table.current {
      OnlyResume(w, e);
      TurnOfWait(w, pid);
    } else {
      ContStays(w, e, i);
    }
  }

  lemma {:induction false} WaitLasts(w: World, es: seq<Event>, i: nat, pid: int)
    requires Ok(w) && Possible(w, es) && i < NUM_PROC == |w.cont| && w.cont[i] == InWait(pid)
    ensures |Run(w, es).cont| == NUM_PROC
    ensures Run(w, es).cont[i] == InWait(pid) || (Retired(Run(w, es).table, pid) && !Retired(w.table, pid))
    decreases |es|
  {
    hide Step, Enabled, Inv, SlotOk, Retired, HasKilled, Stream;
    if es != [] {
      StepKeepsOk(w, es[0]);
      WaitStep(w, es[0], i, pid);
      StepOnward(w, es[0]);
      RunOnward(Step(w, es[0]), es[1..]);
      KilledNotRetired(w.table, pid);
      if Step(w, es[0]).cont[i] == InWait(pid) {
        WaitLasts(Step(w, es[0]), es[1..], i, pid);
      }
    }
  }

  lemma KilledNotRetired(t: Table, pid: int)
    ensures HasKilled(t, pid) ==> !Retired(t, pid)
  {
  }

  /** Over any run: a process that called wait(pid) is still inside that call, or the process with
      that pid is gone, and was not before the call: who waits for one already reaped, waits for
      ever. */
  lemma WaitsForTheProcess(w: World, pid: int, es: seq<Event>)
    requires Ok(w) && Possible(w, [Wait(pid)] + es)
    ensures w.table.current < |Run(w, [Wait(pid)] + es).cont|
    ensures var w' := Run(w, [Wait(pid)] + es);
            w'.cont[w.table.current] == InWait(pid) || (Retired(w'.table, pid) && !Retired(w.table, pid))
  {
    hide Ok, Step, Enabled, Run, Possible, Retired, HasKilled, Stream;
    FirstEvent(w, Wait(pid), es);
    WaitBegins(w, pid);
    KilledNotRetired(w.table, pid);
    var w1 := Step(w, Wait(pid));
    StepOnward(w, Wait(pid));
    RunOnward(w1, es);
    ContsCount(Run(w1, es));
    CurrentInRange(w);
    if w1.cont[w.table.current] == InWait(pid) {
      WaitLasts(w1, es, w.table.current, pid);
    }
  }

  // -------------------------------------------------------------------------- the reader

  /** read_key_buffer on an empty ring: the caller falls asleep on the keyboard. */
  lemma ReadBegins(w: World)
    requires Ok(w) && Enabled(w, Read) && w.keys.front == w.keys.end
    ensures var i, w1 := w.table.current, Step(w, Read);
            && |w1.table.procs| == |w1.cont| == NUM_PROC && i < NUM_PROC && w1.read == w.read
            && w1.table.procs[i].state == SLEEP && w1.table.procs[i].wait == WAIT_KEY && w1.cont[i] == InRead(w.keys.front)
  {
    hide Inv, SlotOk, Scheduler.Sleep;
    StepIsSafe(w, Read);
    SleepEffect(w.table, WAIT_KEY);
  }

  lemma ReadStep(w: World, e: Event, i: nat, saved: nat)
    requires Ok(w) && Enabled(w, e) && i < NUM_PROC && w.cont[i] == InRead(saved)
    ensures |Step(w, e).cont| == NUM_PROC
    ensures Step(w, e).cont[i] == InRead(saved) || |Step(w, e).read| == |w.read| + 1
  {
    hide Inv, SlotOk, WakeUp, Yield, Scheduler.Exit, Scheduler.Sleep, Reap, Reapable;
    StepIsSafe(w, e);
    if i == w.table.current {
      OnlyResume(w, e);
      ReaderGetsOldest(w, e);
    } else {
      ContStays(w, e, i);
    }
  }

  lemma {:induction false} ReadLasts(w: World, es: seq<Event>, i: nat, saved: nat)
    requires Ok(w) && Possible(w, es) && i < NUM_PROC == |w.cont| && w.cont[i] == InRead(saved)
    ensures |Run(w, es).cont| == NUM_PROC
    ensures Run(w, es).cont[i] == InRead(saved) || |Run(w, es).read| > |w.read|
    decreases |es|
  {
    hide Step, Enabled, Inv, SlotOk, Retired, Stream;
    if es != [] {
      StepKeepsOk(w, es[0]);
      ReadStep(w, es[0], i, saved);
      StepOnward(w, es[0]);
      RunOnward(Step(w, es[0]), es[1..]);
      if Step(w, es[0]).cont[i] == InRead(saved) {
        ReadLasts(Step(w, es[0]), es[1..], i, saved);
      }
    }
  }

  /** Over any run: a process that began to read from an empty ring is still inside that call, or
      a character has been delivered since. */
  lemma ReadsACharacter(w: World, es: seq<Event>)
    requires Ok(w) && Possible(w, [Read] + es) && w.keys.front == w.keys.end
    ensures w.table.current < |Run(w, [Read] + es).cont|
    ensures Run(w, [Read] + es).cont[w.table.current] == InRead(w.keys.front) || |Run(w, [Read] + es).read| > |w.read|
  {
    hide Ok, Step, Enabled, Run, Possible;
    FirstEvent(w, Read, es);
    ReadBegins(w);
    CurrentInRange(w);
    ReadLasts(Step(w, Read), es, w.table.current, w.keys.front);
  }

  /** The characters of the key events, in order. */
  function KeysIn(es: seq<Event>): seq<char> {
    if es == [] then [] else (if es[0].Key? then [es[0].ch] else []) + KeysIn(es[1..])
  }

  /** A key event puts its character behind those waiting, unless 499 are, and a reader asleep on
      the keyboard is ready. */
  lemma KeyArrives(w: World, ch: char)
    requires Ok(w) && Enabled(w, Key(ch))
    ensures var w1 := Step(w, Key(ch));
            && InOrder(w.keys) && InOrder(w1.keys) && |w1.table.procs| == NUM_PROC == |w.table.procs| && w1.read == w.read
            && (if |Waiting(w.keys)| == 499 then w1.typed == w.typed && Waiting(w1.keys) == Waiting(w.keys)
                else w1.typed == w.typed + [ch] && Waiting(w1.keys) == Waiting(w.keys) + [ch])
            && forall i :: 0 <= i < NUM_PROC && w.table.procs[i].state == SLEEP && w.table.procs[i].wait == WAIT_KEY ==>
                 w1.table.procs[i].state == READY
  {
    hide Inv, SlotOk, WakeUp, Waiting, Full, Written;
    Basics(w);
    StepIsSafe(w, Key(ch));
    WrittenWaits(w.keys, ch);
    KeyWritten(w.keys, ch);
    WokenReady(w.table, WAIT_KEY);
  }

  lemma WokenReady(t: Table, reason: int)
    requires Inv(t)
    ensures Slots(t.waiting, NUM_PROC) && |WakeUp(t, reason).procs| == NUM_PROC
    ensures forall i :: 0 <= i < NUM_PROC && t.procs[i].state == SLEEP && t.procs[i].wait == reason ==>
              WakeUp(t, reason).procs[i].state == READY
  {
    WakeUpEffect(t, reason);
  }

  lemma OtherStepsType(w: World, e: Event)
    requires Ok(w) && Enabled(w, e) && !e.Key?
    ensures InOrder(w.keys) && InOrder(Step(w, e).keys) && Step(w, e).typed == w.typed
    ensures |Waiting(Step(w, e).keys)| <= |Waiting(w.keys)|
  {
    hide Inv, SlotOk, WakeUp, Yield, Scheduler.Exit, Scheduler.Sleep, Reap, Reapable;
    StepIsSafe(w, e);
    Basics(w);
    StepKeepsOk(w, e);
    assert KeysOk(w) && KeysOk(Step(w, e));
    StepOnward(w, e);
    hide Waiting, Retired, Stream;
    assert Step(w, e).typed == w.typed by { OtherStepsLeaveTyped(w, e); }
    assert |w.read| <= |Step(w, e).read|;
  }

  lemma OtherStepsLeaveTyped(w: World, e: Event)
    requires Ok(w) && Enabled(w, e) && !e.Key?
    ensures Step(w, e).typed == w.typed
  {
    hide Inv, SlotOk, WakeUp, Yield, Scheduler.Exit, Scheduler.Sleep, Reap, Reapable;
    StepIsSafe(w, e);
    match e
    case Resume =>
      match w.cont[w.table.current] {
        case InWait(pid) => assert Step(w, e) == WaitTurn(w, pid);
        case InSleep(since, length) => assert Step(w, e) == SleepTurn(w, since, length);
        case InRead(saved) => assert Step(w, e) == TakeKey(w, saved);
      }
    case Wait(pid) => assert Step(w, e) == WaitTurn(w, pid);
    case SleepFor(length) => assert Step(w, e) == SleepTurn(w, w.ticks, length);
    case Read =>
    case Timer =>
    case Exit =>
    case Fork(_, _) =>
  }

  /** Over any run: as long as all characters have room, every one typed goes into the ring, in the
      order of the key events. */
  lemma {:induction false} KeysAreKept(w: World, es: seq<Event>)
    requires Ok(w) && Possible(w, es) && InOrder(w.keys) && |Waiting(w.keys)| + |KeysIn(es)| <= 499
    ensures Run(w, es).typed == w.typed + KeysIn(es)
    decreases |es|
  {
    hide Step, Enabled, Inv, SlotOk, Waiting;
    if es != [] {
      StepKeepsOk(w, es[0]);
      if es[0].Key? {
        KeyArrives(w, es[0].ch);
      } else {
        OtherStepsType(w, es[0]);
      }
      KeysAreKept(Step(w, es[0]), es[1..]);
    }
  }

  // --------------------------------------------------------------------- exit and fork

  /** exit: the caller is killed and does not run, everybody asleep until an exit is awake. */
  lemma ExitEnds(w: World)
    requires Ok(w) && Enabled(w, Event.Exit)
    ensures var i, w1 := w.table.current, Step(w, Event.Exit);
            && |w1.table.procs| == NUM_PROC == |w.table.procs| && i < NUM_PROC
            && w1.table.procs[i].state == KILLED && w1.table.procs[i].pid == w.table.procs[i].pid && w1.table.current != i
            && forall j :: 0 <= j < NUM_PROC && w.table.procs[j].state == SLEEP && w.table.procs[j].wait == WAIT_EXIT ==>
                 w1.table.procs[j].state == READY || w1.table.procs[j].state == RUNNING
  {
    hide SlotOk, Scheduler.Exit;
    ExitEffect(w.table);
  }

  /** fork: the caller goes on, and the first unused slot is a ready process with a pid that no
      process has or has had. */
  lemma ForkBegins(w: World, stack: nat, pageMap: nat)
    requires Ok(w) && Enabled(w, Event.Fork(stack, pageMap))
    ensures var i, w1 := FirstUnused(w.table.procs, 0), Step(w, Event.Fork(stack, pageMap));
            && i < NUM_PROC == |w1.table.procs| && w1.table.procs[i].state == READY && w1.cont == w.cont
            && w1.table.current == w.table.current && w1.table.ready == w.table.ready + [i]
            && w1.table.procs[i].pid == w.table.pidNum < w1.table.pidNum
  {
    hide SlotOk, Scheduler.Fork;
    ForkEffect(w.table, stack, pageMap);
  }
}
