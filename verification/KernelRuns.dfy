/** Runs of the kernel.  Interrupts are off inside the kernel, so every entry runs as one step
    up to the context switch; a process that sleeps inside wait, sleep or the keyboard read
    continues there, before anything else, when it becomes current again. */
module KernelRuns {
  import opened Common
  import opened Scheduler
  import opened KeyBuffer

  /** Where the kernel code of a process continues when it is scheduled. */
  datatype Cont =
    | ToUser
    | InWait(pid: int)
    | InSleep(since: nat, length: nat)
    | InRead(saved: nat)

  /** keys is the keyboard ring; typed and read are histories: what has been put
      into the ring, and what has been handed to readers. */
  datatype World = World(table: Table, cont: seq<Cont>, ticks: nat, keys: Keyboard, typed: seq<char>, read: seq<char>)

  const WAIT_TICKS := -1
  const WAIT_KEY := -2
  const WAIT_EXIT := -3
  const PID_LIMIT := 0x7fff_ffff

  datatype Event =
    | Timer
    | Key(ch: char)
    | Exit
    | Fork(stack: nat, pageMap: nat)
    | Wait(pid: int)
    | SleepFor(length: nat)
    | Read
    | Resume

  // ------------------------------------------------------------------------ invariant

  /** A sleeping process sleeps for the reason its kernel code is waiting for. */
  predicate Reason(p: Proc, c: Cont) {
    match c
    case ToUser => p.state != SLEEP
    case InWait(_) => p.state == SLEEP ==> p.wait == WAIT_EXIT
    case InSleep(_, _) => p.state == SLEEP ==> p.wait == WAIT_TICKS
    case InRead(_) => p.state == SLEEP ==> p.wait == WAIT_KEY
  }

  ghost predicate HasKilled(t: Table, pid: int) {
    exists i :: 1 <= i < |t.procs| && t.procs[i].state == KILLED && t.procs[i].pid == pid
  }

  /** A process that is asleep has something left to wait for, and one that has been woken
      from the keyboard read has a character to take. */
  ghost predicate NotLost(w: World, i: nat)
    requires i < |w.cont| && i < |w.table.procs|
  {
    var p := w.table.procs[i];
    match w.cont[i]
    case ToUser => true
    case InWait(pid) => p.state == SLEEP ==> !HasKilled(w.table, pid)
    case InSleep(since, length) => since <= w.ticks && (p.state == SLEEP ==> w.ticks < since + length)
    case InRead(saved) => saved == w.keys.front && (p.state == SLEEP <==> w.keys.front == w.keys.end)
  }

  ghost predicate SlotOk(w: World, i: nat)
    requires i < |w.cont| && i < |w.table.procs|
  {
    && Reason(w.table.procs[i], w.cont[i])
    && (w.table.procs[i].state == UNUSED || w.table.procs[i].state == KILLED ==> w.cont[i] == ToUser)
    && NotLost(w, i)
  }

  ghost predicate OneReader(cont: seq<Cont>) {
    forall i, j :: 0 <= i < j < |cont| && cont[i].InRead? ==> !cont[j].InRead?
  }

  ghost predicate KeysOk(w: World) {
    InOrder(w.keys) && w.typed == w.read + Waiting(w.keys)
  }

  ghost predicate Ok(w: World) {
    && Inv(w.table) && |w.cont| == NUM_PROC && w.cont[IDLE] == ToUser
    && (forall i :: 0 <= i < NUM_PROC ==> SlotOk(w, i))
    && OneReader(w.cont) && KeysOk(w)
  }

  // ------------------------------------------------------------------------------ steps

  predicate Enabled(w: World, e: Event)
    requires |w.cont| == NUM_PROC == |w.table.procs| && w.table.current < NUM_PROC
  {
    var c := w.cont[w.table.current];
    match e
    case Timer => c == ToUser
    case Key(_) => c == ToUser
    case Exit => c == ToUser && w.table.current != IDLE
    // fork halts when no slot is free; pids are 32-bit
    case Fork(_, _) =>
      c == ToUser && w.table.current != IDLE && FirstUnused(w.table.procs, 0) < NUM_PROC && w.table.pidNum < PID_LIMIT
    case Wait(_) => c == ToUser && w.table.current != IDLE
    case SleepFor(_) => c == ToUser && w.table.current != IDLE
    // one reader at a time
    case Read => c == ToUser && w.table.current != IDLE && forall i :: 0 <= i < NUM_PROC ==> !w.cont[i].InRead?
    case Resume => c != ToUser
  }

  /** sleep(reason), to be continued at c */
  function SleepIn(w: World, reason: int, c: Cont): World
    requires CanSchedule(w.table) && |w.cont| == NUM_PROC
  {
    w.(table := Scheduler.Sleep(w.table, reason), cont := w.cont[w.table.current := c])
  }

  function Continue(w: World): World
    requires |w.cont| == NUM_PROC && w.table.current < NUM_PROC
  {
    w.(cont := w.cont[w.table.current := ToUser])
  }

  /** One turn of the loop in wait. */
  function WaitTurn(w: World, pid: int): World
    requires CanSchedule(w.table) && |w.cont| == NUM_PROC && Slots(w.table.killed, NUM_PROC)
  {
    if Reapable(w.table, pid).Some? then Continue(w.(table := Reap(w.table, pid)))
    else SleepIn(w, WAIT_EXIT, InWait(pid))
  }

  /** One turn of the loop in sys_sleep. */
  function SleepTurn(w: World, since: nat, length: nat): World
    requires CanSchedule(w.table) && |w.cont| == NUM_PROC
  {
    if w.ticks - since < length then SleepIn(w, WAIT_TICKS, InSleep(since, length)) else Continue(w)
  }

  /** The end of read_key_buffer: take the character at the front of the ring. */
  function TakeKey(w: World, saved: nat): World
    requires |w.cont| == NUM_PROC && w.table.current < NUM_PROC && InOrder(w.keys) && saved < SIZE
  {
    Continue(w.(keys := Advanced(w.keys), read := w.read + [w.keys.buffer[saved]]))
  }

  function Step(w: World, e: Event): World
    requires Ok(w) && Enabled(w, e)
  {
    StepIsSafe(w, e);
    match e
    case Timer => w.(ticks := w.ticks + 1, table := Yield(WakeUp(w.table, WAIT_TICKS)))
    case Key(ch) =>
      w.(keys := Written(w.keys, ch),
         typed := if Full(w.keys) then w.typed else w.typed + [ch],
         table := WakeUp(w.table, WAIT_KEY))
    case Exit => w.(table := Scheduler.Exit(w.table))
    case Fork(stack, pageMap) => w.(table := Scheduler.Fork(w.table, stack, pageMap))
    case Wait(pid) => WaitTurn(w, pid)
    case SleepFor(length) => SleepTurn(w, w.ticks, length)
    case Read =>
      var saved := w.keys.front;
      if saved == w.keys.end then SleepIn(w, WAIT_KEY, InRead(saved)) else TakeKey(w, saved)
    case Resume =>
      match w.cont[w.table.current]
      case InWait(pid) => WaitTurn(w, pid)
      case InSleep(since, length) => SleepTurn(w, since, length)
      case InRead(saved) => TakeKey(w, saved)
  }

  /** In every reachable state the ASSERTs of schedule hold wherever it is called, and a
      resumed reader finds the ring non-empty. */
  lemma StepIsSafe(w: World, e: Event)
    requires Ok(w) && Enabled(w, e)
    ensures w.table.current != IDLE ==> CanSchedule(w.table) && w.table.procs[w.table.current].pid != 0
    ensures Slots(w.table.killed, NUM_PROC) && Slots(w.table.waiting, NUM_PROC)
    ensures e.Timer? ==> var t := WakeUp(w.table, WAIT_TICKS); Inv(t) && (t.ready == [] || CanSchedule(t))
    ensures InOrder(w.keys)
    ensures e.Resume? ==> w.table.current != IDLE
    ensures e.Resume? && w.cont[w.table.current].InRead? ==>
              w.cont[w.table.current].saved == w.keys.front && w.keys.front != w.keys.end
  {
    hide Holds, PidsOk, WakeUp, Yield, Sleep;
    QueueFacts(w.table);
    if w.table.current != IDLE {
      RunningHasPid(w.table);
      SleepKeepsInv(w.table, 0);
    }
    WakeUpKeepsInv(w.table, WAIT_TICKS);
    YieldKeepsInv(WakeUp(w.table, WAIT_TICKS));
    assert SlotOk(w, w.table.current);
  }

  lemma RunningHasPid(t: Table)
    requires Inv(t) && t.current != IDLE
    ensures t.procs[t.current].pid != 0
  {
  }

  // ------------------------------------------------------ every step keeps the invariant

  /** Nobody is newly killed from t to t'. */
  ghost predicate NoNewKilled(t: Table, t': Table) {
    && |t.procs| == |t'.procs| == NUM_PROC
    && forall i :: 1 <= i < NUM_PROC && t'.procs[i].state == KILLED ==> t.procs[i].state == KILLED && t.procs[i].pid == t'.procs[i].pid
  }

  /** A process to which nothing but taking turns has happened is still in order. */
  lemma SlotCarries(w: World, w': World, i: nat)
    requires i < NUM_PROC == |w.cont| == |w'.cont| == |w.table.procs| == |w'.table.procs| && SlotOk(w, i)
    requires TookTurns(w.table.procs[i], w'.table.procs[i]) && w'.cont[i] == w.cont[i]
    requires w'.ticks == w.ticks && w'.keys == w.keys && NoNewKilled(w.table, w'.table)
    ensures SlotOk(w', i)
  {
    match w.cont[i]
    case InWait(pid) => assert HasKilled(w'.table, pid) ==> HasKilled(w.table, pid);
    case _ =>
  }

  /** So is one that may have been woken: what it waits for has changed only if the sleepers
      with that reason have been woken. */
  lemma SlotWoken(w: World, w': World, i: nat, reason: int)
    requires i < NUM_PROC == |w.cont| == |w'.cont| == |w.table.procs| == |w'.table.procs| && SlotOk(w, i)
    requires var p := w.table.procs[i];
             TookTurns(if p.state == SLEEP && p.wait == reason then p.(state := READY) else p, w'.table.procs[i])
    requires w'.cont[i] == w.cont[i]
    requires w.ticks <= w'.ticks && (w'.ticks == w.ticks || reason == WAIT_TICKS)
    requires if reason == WAIT_KEY then w'.keys.front == w.keys.front && w'.keys.front != w'.keys.end else w'.keys == w.keys
    requires NoNewKilled(w.table, w'.table) || reason == WAIT_EXIT
    ensures SlotOk(w', i)
  {
    match w.cont[i]
    case InWait(pid) =>
      if reason != WAIT_EXIT {
        assert HasKilled(w'.table, pid) ==> HasKilled(w.table, pid);
      }
    case _ =>
  }

  lemma Basics(w: World)
    requires Ok(w)
    ensures |w.table.procs| == NUM_PROC && w.table.current < NUM_PROC && |w.cont| == NUM_PROC
    ensures w.table.procs[w.table.current].state == RUNNING
    ensures forall i :: 0 <= i < NUM_PROC ==> SlotOk(w, i)
  {
  }

  /** What c waits for has not happened. */
  ghost predicate Awaits(w: World, c: Cont)
    requires |w.table.procs| == NUM_PROC
  {
    match c
    case ToUser => false
    case InWait(pid) => !HasKilled(w.table, pid)
    case InSleep(since, length) => since <= w.ticks < since + length
    case InRead(saved) =>
      && saved == w.keys.front && w.keys.front == w.keys.end
      && forall i :: 0 <= i < |w.cont| && i != w.table.current ==> !w.cont[i].InRead?
  }

  function ReasonOf(c: Cont): int {
    match c
    case InWait(_) => WAIT_EXIT
    case InSleep(_, _) => WAIT_TICKS
    case _ => WAIT_KEY
  }

  /** The current process goes to sleep for something that has not happened yet. */
  lemma SleepInKeepsOk(w: World, c: Cont)
    requires Ok(w) && w.table.current != IDLE && Awaits(w, c)
    ensures CanSchedule(w.table) && Ok(SleepIn(w, ReasonOf(c), c))
  {
    SleepEffect(w.table, ReasonOf(c));
    hide Inv, Scheduler.Sleep, SlotOk;
    var w' := SleepIn(w, ReasonOf(c), c);
    SleeperOk(w, w', c);
    forall i | 0 <= i < NUM_PROC && i != w.table.current
      ensures SlotOk(w', i)
    {
      SlotCarries(w, w', i);
    }
  }

  lemma SleeperOk(w: World, w': World, c: Cont)
    requires |w.table.procs| == |w'.table.procs| == |w.cont| == |w'.cont| == NUM_PROC && w.table.current < NUM_PROC
    requires Awaits(w, c) && NoNewKilled(w.table, w'.table) && w'.ticks == w.ticks && w'.keys == w.keys
    requires w'.cont[w.table.current] == c
    requires w'.table.procs[w.table.current] == w.table.procs[w.table.current].(state := SLEEP, wait := ReasonOf(c))
    ensures SlotOk(w', w.table.current)
  {
    match c
    case InWait(pid) => assert HasKilled(w'.table, pid) ==> HasKilled(w.table, pid);
    case _ =>
  }

  /** Back in user mode, nothing is awaited. */
  lemma ContinueKeepsOk(w: World)
    requires |w.cont| == NUM_PROC && Inv(w.table) && KeysOk(w) && OneReader(w.cont) && w.cont[IDLE] == ToUser
    requires forall i :: 0 <= i < NUM_PROC && i != w.table.current ==> SlotOk(w, i)
    ensures Ok(Continue(w))
  {
    forall i | 0 <= i < NUM_PROC && i != w.table.current
      ensures SlotOk(Continue(w), i)
    {
      SlotCarries(w, Continue(w), i);
    }
  }

  lemma ReapKeepsSlots(w: World, pid: int)
    requires Ok(w) && Slots(w.table.killed, NUM_PROC) && Reapable(w.table, pid).Some?
    ensures var w1 := w.(table := Reap(w.table, pid));
            forall i :: 0 <= i < NUM_PROC && i != w.table.current ==> |w1.table.procs| == NUM_PROC && SlotOk(w1, i)
  {
    var w1 := w.(table := Reap(w.table, pid));
    ReapEffect(w.table, pid);
    hide Inv, Reap, Reapable, NotLost, Reason;
    forall i | 0 <= i < NUM_PROC && i != w.table.current
      ensures SlotOk(w1, i)
    {
      if i != Reapable(w.table, pid).value {
        SlotCarries(w, w1, i);
      } else {
        assert SlotOk(w, i);
        EmptySlotOk(w1, i);
      }
    }
  }

  lemma WaitTurnKeepsOk(w: World, pid: int)
    requires Ok(w) && w.table.current != IDLE
    ensures CanSchedule(w.table) && Slots(w.table.killed, NUM_PROC) && Ok(WaitTurn(w, pid))
  {
    var t := w.table;
    SleepKeepsInv(t, 0);
    ReapKeepsInv(t, pid);
    ReapableIffKilled(t, pid);
    hide Inv, Reap, Reapable, SlotOk;
    if Reapable(t, pid).Some? {
      ReapKeepsSlots(w, pid);
      ContinueKeepsOk(w.(table := Reap(t, pid)));
    } else {
      SleepInKeepsOk(w, InWait(pid));
    }
  }

  lemma EmptySlotOk(w: World, i: nat)
    requires i < |w.cont| && i < |w.table.procs| && w.cont[i] == ToUser && w.table.procs[i].state != SLEEP
    ensures SlotOk(w, i)
  {
  }

  lemma SleepTurnKeepsOk(w: World, since: nat, length: nat)
    requires Ok(w) && w.table.current != IDLE && since <= w.ticks
    ensures CanSchedule(w.table) && Ok(SleepTurn(w, since, length))
  {
    hide Inv, SlotOk;
    if w.ticks - since < length {
      SleepInKeepsOk(w, InSleep(since, length));
    } else {
      SleepKeepsInv(w.table, 0);
      ContinueKeepsOk(w);
    }
  }

  /** Taking the last character leaves nobody waiting who was promised one. */
  lemma TakeKeyKeepsOk(w: World)
    requires Ok(w) && w.keys.front != w.keys.end
    requires forall i :: 0 <= i < NUM_PROC && i != w.table.current ==> !w.cont[i].InRead?
    ensures Ok(TakeKey(w, w.keys.front))
  {
    Basics(w);
    hide Inv;
    var w' := TakeKey(w, w.keys.front);
    AdvancedWaits(w.keys);
    assert w'.read + Waiting(w'.keys) == w.read + Waiting(w.keys);
    forall i | 0 <= i < NUM_PROC
      ensures SlotOk(w', i)
    {
      assert SlotOk(w, i);
    }
  }

  lemma TimerKeepsOk(w: World)
    requires Ok(w) && Enabled(w, Timer)
    ensures Ok(Step(w, Timer))
  {
    hide Inv, WakeUp, Yield, SlotOk;
    Basics(w);
    TimerEffect(w.table, WAIT_TICKS);
    var w' := Step(w, Timer);
    forall i | 0 <= i < NUM_PROC
      ensures SlotOk(w', i)
    {
      SlotWoken(w, w', i, WAIT_TICKS);
    }
  }

  lemma KeyWritten(k: Keyboard, ch: char)
    requires InOrder(k)
    ensures InOrder(Written(k, ch)) && Waiting(Written(k, ch)) == if Full(k) then Waiting(k) else Waiting(k) + [ch]
    ensures Written(k, ch).front == k.front && Written(k, ch).front != Written(k, ch).end
  {
    hide Waiting;
    WrittenWaits(k, ch);
  }

  lemma KeyKeepsOk(w: World, ch: char)
    requires Ok(w) && Enabled(w, Key(ch))
    ensures Ok(Step(w, Key(ch)))
  {
    hide Inv, WakeUp, SlotOk, InOrder, Waiting, Written, Full;
    Basics(w);
    KeyEffect(w.table, WAIT_KEY);
    var w' := Step(w, Key(ch));
    assert w'.keys == Written(w.keys, ch) && w'.typed == if Full(w.keys) then w.typed else w.typed + [ch];
    assert w'.table == WakeUp(w.table, WAIT_KEY) && w'.cont == w.cont && w'.ticks == w.ticks && w'.read == w.read;
    hide Step, Enabled;
    KeyWritten(w.keys, ch);
    assert KeysOk(w');
    forall i | 0 <= i < NUM_PROC
      ensures SlotOk(w', i)
    {
      SlotWoken(w, w', i, WAIT_KEY);
    }
  }

  lemma ExitKeepsOk(w: World)
    requires Ok(w) && Enabled(w, Event.Exit)
    ensures Ok(Step(w, Event.Exit))
  {
    hide Inv, Scheduler.Exit, SlotOk;
    Basics(w);
    ExitEffect(w.table);
    var w' := Step(w, Event.Exit);
    forall i | 0 <= i < NUM_PROC
      ensures SlotOk(w', i)
    {
      if i == w.table.current {
        EmptySlotOk(w', i);
      } else {
        SlotWoken(w, w', i, WAIT_EXIT);
      }
    }
  }

  lemma ForkKeepsOk(w: World, stack: nat, pageMap: nat)
    requires Ok(w) && Enabled(w, Event.Fork(stack, pageMap))
    ensures Ok(Step(w, Event.Fork(stack, pageMap)))
  {
    ForkKeepsInv(w.table, stack, pageMap);
    hide Inv;
    var w' := Step(w, Event.Fork(stack, pageMap));
    forall i | 0 <= i < NUM_PROC
      ensures SlotOk(w', i)
    {
      assert SlotOk(w, i);
      if i == FirstUnused(w.table.procs, 0) {
        EmptySlotOk(w', i);
      } else {
        SlotCarries(w, w', i);
      }
    }
  }

  /** The invariant survives every step: the slots stay split by state, no wake-up is lost,
      and the characters read are the characters typed, in order. */
  lemma StepKeepsOk(w: World, e: Event)
    requires Ok(w) && Enabled(w, e)
    ensures Ok(Step(w, e))
  {
    StepIsSafe(w, e);
    match e
    case Timer => TimerKeepsOk(w);
    case Key(ch) => KeyKeepsOk(w, ch);
    case Exit => ExitKeepsOk(w);
    case Fork(stack, pageMap) => ForkKeepsOk(w, stack, pageMap);
    case Wait(pid) => WaitTurnKeepsOk(w, pid);
    case SleepFor(length) => SleepTurnKeepsOk(w, w.ticks, length);
    case Read => ReadKeepsOk(w);
    case Resume => ResumeKeepsOk(w);
  }

  lemma ReadKeepsOk(w: World)
    requires Ok(w) && Enabled(w, Read)
    ensures Ok(Step(w, Read))
  {
    if w.keys.front == w.keys.end {
      SleepInKeepsOk(w, InRead(w.keys.front));
    } else {
      TakeKeyKeepsOk(w);
    }
  }

  lemma ResumeKeepsOk(w: World)
    requires Ok(w) && Enabled(w, Resume)
    ensures Ok(Step(w, Resume))
  {
    StepIsSafe(w, Resume);
    assert SlotOk(w, w.table.current);
    match w.cont[w.table.current]
    case InWait(pid) => WaitTurnKeepsOk(w, pid);
    case InSleep(since, length) => SleepTurnKeepsOk(w, since, length);
    case InRead(_) => TakeKeyKeepsOk(w);
  }
}
