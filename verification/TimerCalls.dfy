/** What the four timer calls are for, told by when the handlers run afterwards. */
module TimerCalls {
  import opened Common
  import opened TimerBoard
  import opened TimerDeadlines

  /** A run that begins with a timer call made outside callbacks. */
  lemma FirstMake<D(!new)>(b: Board<D>, cb: Callbacks<D>, c: Command, es: seq<Doing>)
    requires Valid(b) && WellBehaved(cb) && CanRun(b, cb, [Make(c)] + es)
    ensures Legal(b, c) && CanRun(Do(b, c), cb, es) && ClockRun(b, cb, [Make(c)] + es) == ClockRun(Do(b, c), cb, es)
  {
    var all := [Make(c)] + es;
    assert all[0] == Make(c) && all[1..] == es;
    hide Do, Sound, WellBehaved, Legal;
  }

  /** The deadline and period that ticks asks for: at least one tick. */
  function AtLeastOne(ticks: nat): nat {
    if ticks == 0 then 1 else ticks
  }

  /** When a slot fires that is armed at time now. */
  function Firings(now: nat, ticks: nat, continuous: bool, end: nat): seq<nat> {
    var p := AtLeastOne(ticks);
    if continuous then Occurrences(now + p, p, end) else if now + p <= end then [now + p] else []
  }

  lemma Fires<D(!new)>(b: Board<D>, cb: Callbacks<D>, i: nat, es: seq<Doing>, now: nat, ticks: nat, continuous: bool)
    requires Valid(b) && WellBehaved(cb) && CanRun(b, cb, es) && LeftAlone(cb, i) && NotNamed(es, i) && Registered(b, i)
    requires var t, p := b.timers[i], AtLeastOne(ticks);
             t.active && t.continuous == continuous && t.period == p && t.timeToFire == now + p
    ensures FiringTimes(ClockRun(b, cb, es).log, i) == FiringTimes(b.log, i) + Firings(now, ticks, continuous, ClockRun(b, cb, es).now)
  {
    hide ClockRun, CanRun, LeftAlone, NotNamed, WellBehaved, FiringTimes, Sound, Occurrences;
    if continuous {
      ContinuousFiresEveryPeriod(b, cb, i, es);
    } else {
      OneShotFiresOnce(b, cb, i, es);
    }
  }

  /** A timer activated for ticks from now fires that much later and, if it is continuous, at
      every such period from then on, and at no other time, unless it is named again. */
  lemma ActivateFires<D(!new)>(b: Board<D>, cb: Callbacks<D>, i: nat, ticks: nat, continuous: bool, es: seq<Doing>)
    requires Valid(b) && WellBehaved(cb) && CanRun(b, cb, [Make(Activate(i, ticks, continuous))] + es)
    requires LeftAlone(cb, i) && NotNamed(es, i) && Registered(b, i)
    ensures var r := ClockRun(b, cb, [Make(Activate(i, ticks, continuous))] + es);
            FiringTimes(r.log, i) == FiringTimes(b.log, i) + Firings(b.now, ticks, continuous, r.now)
  {
    hide ClockRun, CanRun, LeftAlone, NotNamed, WellBehaved, FiringTimes;
    FirstMake(b, cb, Activate(i, ticks, continuous), es);
    Fires(Do(b, Activate(i, ticks, continuous)), cb, i, es, b.now, ticks, continuous);
  }

  /** So does a timer registered active; it is put into the first slot that is not in use. */
  lemma RegisterFires<D(!new)>(b: Board<D>, cb: Callbacks<D>, h: Handler, ticks: nat, continuous: bool, i: nat, es: seq<Doing>)
    requires Valid(b) && WellBehaved(cb) && CanRun(b, cb, [Make(Register(Some(h), ticks, continuous, true))] + es)
    requires LeftAlone(cb, i) && NotNamed(es, i)
    requires 1 <= i <= b.num < MAX_TIMERS == |b.timers| && (i == b.num || !b.timers[i].inUse)
    requires forall j :: 1 <= j < i ==> b.timers[j].inUse
    ensures var r := ClockRun(b, cb, [Make(Register(Some(h), ticks, continuous, true))] + es);
            && FiringTimes(r.log, i) == FiringTimes(b.log, i) + Firings(b.now, ticks, continuous, r.now)
            && Registered(r, i) && r.timers[i].funct == Some(h)
  {
    hide ClockRun, CanRun, LeftAlone, NotNamed, WellBehaved, FiringTimes;
    var c := Register(Some(h), ticks, continuous, true);
    FirstMake(b, cb, c, es);
    assert FreeSlot(b.timers, b.num, 1) == i;
    var b1 := Do(b, c);
    assert Registered(b1, i) && b1.timers[i] == Timer(true, AtLeastOne(ticks), b.now + AtLeastOne(ticks), true, continuous, Some(h));
    Fires(b1, cb, i, es, b.now, ticks, continuous);
    if continuous {
      ContinuousFiresEveryPeriod(b1, cb, i, es);
    } else {
      OneShotFiresOnce(b1, cb, i, es);
    }
  }

  // ------------------------------------------------------------------ a slot that is off

  /** The call c, made on board b, turns slot i on: it activates it, or registers an active timer
      that is put there. */
  predicate Arms<D>(b: Board<D>, c: Command, i: nat)
    requires Valid(b)
  {
    match c
    case Register(_, _, _, active) => active && b.num < MAX_TIMERS && FreeSlot(b.timers, b.num, 1) == i
    case Activate(j, _, _) => i == j
    case Deactivate(_) => false
    case Unregister(_) => false
  }

  predicate ArmsInAll<D>(b: Board<D>, cs: seq<Command>, i: nat)
    requires Valid(b) && LegalAll(b, cs)
    decreases |cs|
  {
    cs != [] && (Arms(b, cs[0], i) || ArmsInAll(Do(b, cs[0]), cs[1..], i))
  }

  /** A callback before the turn of slot k turns slot i on. */
  predicate ArmedBefore<D(!new)>(b: Board<D>, cb: Callbacks<D>, due: seq<bool>, k: nat, i: nat)
    requires Valid(b) && WellBehaved(cb) && |due| == MAX_TIMERS && k <= MAX_TIMERS
  {
    k > 0 &&
    (ArmedBefore(b, cb, due, k - 1, i)
     || var p := AtTurn(b, cb, due, k - 1);
        && due[k - 1] && p.timers[k - 1].funct.Some?
        && var h := p.timers[k - 1].funct.value;
           ArmsInAll(Entered(p, cb, h, k - 1), cb(h, k - 1, p).1, i))
  }

  predicate ArmedInTicks<D(!new)>(b: Board<D>, cb: Callbacks<D>, n: nat, i: nat)
    requires Valid(b) && b.now + n <= HORIZON && WellBehaved(cb)
  {
    n > 0 &&
    (ArmedInTicks(b, cb, n - 1, i)
     || var p := ClockTicks(b, cb, n - 1);
        ArmedBefore(Rearmed(p.(now := p.now + 1)), cb, DueFlags(p.timers, p.num, p.now + 1), MAX_TIMERS, i))
  }

  /** Some timer call in the run, inside a callback or outside, turns slot i on. */
  ghost predicate ArmedInRun<D(!new)>(b: Board<D>, cb: Callbacks<D>, es: seq<Doing>, i: nat)
    requires Valid(b) && WellBehaved(cb) && CanRun(b, cb, es)
    decreases |es|
  {
    es != [] &&
    ((match es[0] case Ticks(n) => ArmedInTicks(b, cb, n, i) case Make(c) => Arms(b, c, i))
     || ArmedInRun(ClockStep(b, cb, es[0]), cb, es[1..], i))
  }

  ghost predicate Off<D>(b: Board<D>, i: nat, before: seq<nat>) {
    i < |b.timers| && !b.timers[i].active && FiringTimes(b.log, i) == before
  }

  lemma DoOff<D>(b: Board<D>, c: Command, i: nat, before: seq<nat>)
    requires Valid(b) && Legal(b, c) && Off(b, i, before) && !Arms(b, c, i)
    ensures Off(Do(b, c), i, before)
  {
    hide FiringTimes;
  }

  lemma {:induction false} DoAllOff<D>(b: Board<D>, cs: seq<Command>, i: nat, before: seq<nat>)
    requires Valid(b) && LegalAll(b, cs) && Off(b, i, before) && !ArmsInAll(b, cs, i)
    ensures Off(DoAll(b, cs), i, before)
    decreases |cs|
  {
    hide FiringTimes, Do, Arms, Sound, Off;
    if cs != [] {
      DoOff(b, cs[0], i, before);
      DoAllOff(Do(b, cs[0]), cs[1..], i, before);
    }
  }

  lemma EnteredOff<D(!new)>(b: Board<D>, cb: Callbacks<D>, h: Handler, k: nat, i: nat, before: seq<nat>)
    requires Off(b, i, before) && k != i
    ensures Off(Entered(b, cb, h, k), i, before)
  {
    var log := b.log + [Firing(b.now, k, h)];
    assert log[..|log| - 1] == b.log;
  }

  lemma {:induction false} TurnsOff<D(!new)>(b: Board<D>, cb: Callbacks<D>, due: seq<bool>, k: nat, i: nat, before: seq<nat>)
    requires Valid(b) && WellBehaved(cb) && |due| == MAX_TIMERS && k <= MAX_TIMERS && i < MAX_TIMERS && !due[i]
    requires Off(b, i, before) && !ArmedBefore(b, cb, due, k, i)
    ensures Off(AtTurn(b, cb, due, k), i, before)
  {
    hide Sound, WellBehaved, DoAll, ArmsInAll, Off;
    if k > 0 {
      var p := AtTurn(b, cb, due, k - 1);
      InRange(p, k - 1);
      TurnsOff(b, cb, due, k - 1, i, before);
      if due[k - 1] && p.timers[k - 1].funct.Some? {
        var h := p.timers[k - 1].funct.value;
        CallMakesLegal(p, cb, h, k - 1);
        EnteredOff(p, cb, h, k - 1, i, before);
        DoAllOff(Entered(p, cb, h, k - 1), cb(h, k - 1, p).1, i, before);
      }
    }
  }

  lemma TickOff<D(!new)>(b: Board<D>, cb: Callbacks<D>, i: nat, before: seq<nat>)
    requires Valid(b) && b.now < HORIZON && WellBehaved(cb) && i < MAX_TIMERS && Off(b, i, before)
    requires !ArmedBefore(Rearmed(b.(now := b.now + 1)), cb, DueFlags(b.timers, b.num, b.now + 1), MAX_TIMERS, i)
    ensures Off(ClockTick(b, cb), i, before)
  {
    hide ArmedBefore, AtTurn, WellBehaved, FiringTimes;
    var b1, due := Rearmed(b.(now := b.now + 1)), DueFlags(b.timers, b.num, b.now + 1);
    TurnsOff(b1, cb, due, MAX_TIMERS, i, before);
    TurnsReachEnd(b1, cb, due, MAX_TIMERS);
  }

  lemma {:induction false} TicksOff<D(!new)>(b: Board<D>, cb: Callbacks<D>, n: nat, i: nat, before: seq<nat>)
    requires Valid(b) && b.now + n <= HORIZON && WellBehaved(cb) && i < MAX_TIMERS && Off(b, i, before)
    requires !ArmedInTicks(b, cb, n, i)
    ensures Off(ClockTicks(b, cb, n), i, before)
  {
    hide ArmedBefore, ClockTick, WellBehaved, Off, Sound;
    if n > 0 {
      TicksOff(b, cb, n - 1, i, before);
      TickOff(ClockTicks(b, cb, n - 1), cb, i, before);
    }
  }

  /** A timer that is off is not called, and stays off, in any run that does not turn it on. */
  lemma {:induction false} OffIsSilent<D(!new)>(b: Board<D>, cb: Callbacks<D>, es: seq<Doing>, i: nat)
    requires Valid(b) && WellBehaved(cb) && CanRun(b, cb, es) && i < MAX_TIMERS == |b.timers|
    requires !b.timers[i].active && !ArmedInRun(b, cb, es, i)
    ensures var r := ClockRun(b, cb, es); i < |r.timers| && !r.timers[i].active && FiringTimes(r.log, i) == FiringTimes(b.log, i)
    decreases |es|
  {
    hide ArmedInTicks, Arms, ClockTicks, Do, WellBehaved, FiringTimes, Sound;
    if es != [] {
      match es[0] {
        case Ticks(n) => TicksOff(b, cb, n, i, FiringTimes(b.log, i));
        case Make(c) => DoOff(b, c, i, FiringTimes(b.log, i));
      }
      InRange(ClockStep(b, cb, es[0]), i);
      OffIsSilent(ClockStep(b, cb, es[0]), cb, es[1..], i);
    }
  }

  /** Deactivating a timer turns it off, and changes nothing else; so it is not called until some
      timer call turns it on. */
  lemma DeactivateSilences<D(!new)>(b: Board<D>, cb: Callbacks<D>, i: nat, es: seq<Doing>)
    requires Valid(b) && WellBehaved(cb) && CanRun(b, cb, [Make(Deactivate(i))] + es)
    requires !ArmedInRun(b, cb, [Make(Deactivate(i))] + es, i)
    ensures i < |b.timers|
    ensures es == [] ==> ClockRun(b, cb, [Make(Deactivate(i))] + es) == b.(timers := b.timers[i := b.timers[i].(active := false)])
    ensures FiringTimes(ClockRun(b, cb, [Make(Deactivate(i))] + es).log, i) == FiringTimes(b.log, i)
  {
    hide WellBehaved, FiringTimes, ArmedInTicks, ClockTicks;
    FirstMake(b, cb, Deactivate(i), es);
    assert ([Make(Deactivate(i))] + es)[1..] == es;
    OffIsSilent(Do(b, Deactivate(i)), cb, es, i);
  }

  /** Unregistering a timer that is off frees its slot, and it is not called until a timer call
      turns the slot on; unregistering one that is on changes nothing. */
  lemma UnregisterFrees<D(!new)>(b: Board<D>, cb: Callbacks<D>, i: nat, es: seq<Doing>)
    requires Valid(b) && WellBehaved(cb) && CanRun(b, cb, [Make(Unregister(i))] + es)
    ensures i < |b.timers|
    ensures es == [] ==>
              var r := ClockRun(b, cb, [Make(Unregister(i))] + es);
              if b.timers[i].active then r == b
              else
                && |r.timers| == |b.timers| && !r.timers[i].inUse && r.timers[i].funct == None
                && (forall j :: 0 <= j < |b.timers| && j != i ==> r.timers[j] == b.timers[j])
                && r.num == if i == b.num - 1 then i else b.num
    ensures !b.timers[i].active && !ArmedInRun(b, cb, [Make(Unregister(i))] + es, i) ==>
              FiringTimes(ClockRun(b, cb, [Make(Unregister(i))] + es).log, i) == FiringTimes(b.log, i)
  {
    hide WellBehaved, FiringTimes, ArmedInTicks, ClockTicks;
    FirstMake(b, cb, Unregister(i), es);
    assert ([Make(Unregister(i))] + es)[1..] == es;
    if !b.timers[i].active && !ArmedInRun(b, cb, [Make(Unregister(i))] + es, i) {
      OffIsSilent(Do(b, Unregister(i)), cb, es, i);
    }
  }
}
