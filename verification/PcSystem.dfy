/** The timer half of bx_pc_system_c, with its fields and its relative 32-bit countdown. */
module PcSystem {
  import opened Common
  import opened TimerBoard
  import opened TimerWheel

  /** What registering a timer does to the wheel. */
  lemma RegisterIs<D>(w: Wheel<D>, h: Option<Handler>, ticks: nat, continuous: bool, active: bool)
    requires WheelValid(w) && Legal(w.board, Register(h, ticks, continuous, active))
    ensures 1 <= w.board.num <= |w.board.timers|
    ensures var w' := WheelDo(w, Register(h, ticks, continuous, active));
            if w.board.num >= MAX_TIMERS then w' == w
            else
              var b, t, i := w.board, Interval(ticks), FreeSlot(w.board.timers, w.board.num, 1);
              && (i < b.num ==> !b.timers[i].inUse)
              && w' == Wheel(b.(timers := b.timers[i := Timer(true, t, b.now + t, active, continuous, h)],
                                num := if i == b.num then b.num + 1 else b.num),
                             w.last, if active then Min(b.now + t, w.next) else w.next)
  {
  }

  /** And activating one. */
  lemma ActivateIs<D>(w: Wheel<D>, i: nat, ticks: nat, continuous: bool)
    requires WheelValid(w) && Legal(w.board, Activate(i, ticks, continuous))
    ensures i < |w.board.timers|
    ensures var b, p := w.board, Interval(ticks);
            WheelDo(w, Activate(i, ticks, continuous)) ==
              Wheel(b.(timers := b.timers[i := b.timers[i].(period := p, timeToFire := b.now + p, active := true,
                                                           continuous := continuous)]),
                    w.last, Min(b.now + p, w.next))
  {
  }

  function Ticked<D>(w: Wheel<D>): Wheel<D> {
    w.(board := w.board.(now := w.board.now + 1))
  }

  lemma TickIs<D(!new)>(w: Wheel<D>, cb: Callbacks<D>)
    requires WheelValid(w) && w.board.now < HORIZON && WellBehaved(cb)
    ensures if w.board.now + 1 == w.next then AtEvent(Ticked(w)) && WheelTick(w, cb) == TimerWheel.CountdownEvent(Ticked(w), cb)
            else WheelTick(w, cb) == Ticked(w) && WheelValid(Ticked(w))
  {
  }

  lemma EventIs<D(!new)>(w: Wheel<D>, cb: Callbacks<D>)
    requires AtEvent(w) && WellBehaved(cb)
    ensures var b := w.board;
            && |b.timers| == MAX_TIMERS
            && TimerWheel.CountdownEvent(w, cb) == WheelCallDue(Rescheduled(w), cb, DueFlags(b.timers, b.num, b.now), 0)
  {
  }

  lemma CallIs<D(!new)>(w: Wheel<D>, cb: Callbacks<D>, h: Handler, i: nat)
    requires WheelValid(w) && WellBehaved(cb)
    ensures WheelCall(w, cb, h, i) == WheelDoAll(WheelEntered(w, cb, h, i), cb(h, i, w.board).1)
  {
  }

  lemma CountdownFits(now: nat, next: nat)
    requires now < next <= now + NULL_TIMER_INTERVAL && next < U64
    ensures (next - now) % U64 % U32 == next - now
  {
  }

  /** Where the first loop of countdownEvent is after i of the num slots: those are rearmed and
      their flags set, the flagged ones lie from first to last, and min is their earliest
      deadline. */
  ghost predicate Scanned(before: seq<Timer>, num: nat, now: nat, i: nat,
                          timer: seq<Timer>, triggered: seq<bool>, first: nat, last: nat, min: nat) {
    && |before| == |timer| == |triggered| == MAX_TIMERS && i <= num <= MAX_TIMERS
    && (forall k :: 0 <= k < MAX_TIMERS ==> timer[k] == if k < i then TimerBoard.Rearm(before[k], now) else before[k])
    && (forall k :: 0 <= k < MAX_TIMERS ==> triggered[k] == (k < i && Due(before[k], now)))
    && min == EarliestDeadline(timer, i)
    && ((first == num && last == 0) || first <= last < i)
    && forall k :: 0 <= k < MAX_TIMERS && triggered[k] ==> first <= k <= last
  }

  lemma NothingScanned(before: seq<Timer>, num: nat, now: nat)
    requires |before| == MAX_TIMERS && num <= MAX_TIMERS
    ensures Scanned(before, num, now, 0, before, seq(MAX_TIMERS, _ => false), num, 0, U64 - 1)
  {
  }

  lemma ScannedNext(before: seq<Timer>, num: nat, now: nat, i: nat,
                    timer: seq<Timer>, triggered: seq<bool>, first: nat, last: nat, min: nat)
    requires Scanned(before, num, now, i, timer, triggered, first, last, min) && i < num
    ensures |before| == |timer| == |triggered| == MAX_TIMERS && i < MAX_TIMERS
    ensures var due, t := Due(before[i], now), TimerBoard.Rearm(before[i], now);
            && timer[i := t][i + 1..] == timer[i + 1..]
            && Scanned(before, num, now, i + 1, timer[i := t], triggered[i := due],
                       if due then Min(i, first) else first, if due then i else last,
                       if t.active then Min(t.timeToFire, min) else min)
  {
    hide TimerBoard.Rearm, Due;
    var t := TimerBoard.Rearm(before[i], now);
    SameDeadline(timer, timer[i := t], i);
  }

  lemma {:induction false} SameDeadline(s: seq<Timer>, t: seq<Timer>, n: nat)
    requires n <= |s| && n <= |t| && forall k :: 0 <= k < n ==> s[k] == t[k]
    ensures EarliestDeadline(s, n) == EarliestDeadline(t, n)
  {
    if n > 0 {
      SameDeadline(s, t, n - 1);
    }
  }

  lemma AllScanned(before: seq<Timer>, num: nat, now: nat,
                   timer: seq<Timer>, triggered: seq<bool>, first: nat, last: nat, min: nat)
    requires Scanned(before, num, now, num, timer, triggered, first, last, min)
    ensures timer == RearmAll(before, num, now) && triggered == DueFlags(before, num, now)
    ensures min == EarliestDeadline(timer, num)
    ensures first <= num && last < MAX_TIMERS && (first == num ==> last == 0)
    ensures forall k :: 0 <= k < MAX_TIMERS && triggered[k] ==> first <= k <= last
  {
    hide TimerBoard.Rearm, Due;
  }

  function Microseconds(ticks: nat, mIps: real): (r: nat)
    requires mIps > 0.0
    ensures r as real <= ticks as real / mIps < (r + 1) as real
  {
    var quotient := ticks as real / mIps;
    assert quotient >= 0.0;
    quotient.Floor
  }

  lemma MicrosecondsPass(a: nat, b: nat, mIps: real)
    requires a <= b && mIps > 0.0
    ensures Microseconds(a, mIps) <= Microseconds(b, mIps)
  {
    var x, y := a as real / mIps, b as real / mIps;
    assert y - x == (b - a) as real / mIps >= 0.0;
  }

  class PcSystem<D(!new)> {
    const cb: Callbacks<D>
    /** ticks in a microsecond */
    const mIps: real
    /** BX_MAX_TIMERS slots inside the object. */
    var timer: seq<Timer>
    var numTimers: nat
    var triggeredTimer: nat
    var currCountdown: nat
    var currCountdownPeriod: nat
    var ticksTotal: nat
    var lastTimeUsec: nat
    var usecSinceLast: nat
    var dev: D
    var log: seq<Firing>

    /** The fields hold what a 32-bit and a 64-bit field can hold. */
    ghost predicate InRange()
      reads this
    {
      && |timer| == MAX_TIMERS
      && currCountdown <= currCountdownPeriod < U32
      && ticksTotal + (currCountdownPeriod - currCountdown) < U64
    }

    function Slots(): Board<D>
      requires InRange()
      reads this
    {
      Board(ticksTotal + (currCountdownPeriod - currCountdown), timer, numTimers, dev, log)
    }

    /** time_ticks, in 32-bit and 64-bit arithmetic */
    method TimeTicks() returns (r: nat)
      requires InRange()
      ensures r == Slots().now
    {
      r := (ticksTotal + (currCountdownPeriod - currCountdown) % U32) % U64;
    }

    /** The countdown read as absolute times. */
    function State(): Wheel<D>
      requires InRange()
      reads this
    {
      Wheel(Slots(), ticksTotal, ticksTotal + currCountdownPeriod)
    }

    /** The time last reported in microseconds does not lie ahead of the clock. */
    ghost predicate Punctual()
      requires InRange()
      reads this
    {
      mIps > 0.0 && lastTimeUsec <= Microseconds(Slots().now, mIps)
    }

    ghost predicate Ready()
      reads this
    {
      InRange() && WheelValid(State()) && WellBehaved(cb) && Punctual()
    }

    constructor Initialize(cb: Callbacks<D>, dev: D, ips: nat)
      requires WellBehaved(cb) && 0 < ips < U32
      ensures Ready() && this.cb == cb && this.dev == dev && mIps == ips as real / 1000000.0
      ensures State().board.now == 0 && State().board.log == [] && currCountdown == NULL_TIMER_INTERVAL
    {
      this.cb := cb;
      this.dev := dev;
      mIps := ips as real / 1000000.0;
      var unused := Timer(false, 0, 0, false, false, None);
      timer := [Timer(true, NULL_TIMER_INTERVAL, NULL_TIMER_INTERVAL, true, true, None)]
        + seq(MAX_TIMERS - 1, _ => unused);
      numTimers := 1;
      triggeredTimer := 0;
      lastTimeUsec, usecSinceLast := 0, 0;
      ticksTotal, currCountdown, currCountdownPeriod := 0, NULL_TIMER_INTERVAL, NULL_TIMER_INTERVAL;
      log := [];
    }

    /** Common tail of register_timer_ticks and activate_timer_ticks: when the new timer
        fires before the countdown does, shorten countdown and period by the same delta. */
    method Skew(ticks: nat)
      requires InRange() && 1 <= currCountdown
      modifies `currCountdown, `currCountdownPeriod
      ensures InRange() && Slots() == old(Slots()) && ticksTotal == old(ticksTotal)
      ensures State().next == Min(old(State().next), Slots().now + ticks)
    {
      if ticks < currCountdown {
        currCountdownPeriod := currCountdownPeriod - (currCountdown - ticks % U32);
        currCountdown := ticks % U32;
      }
    }

    method RegisterTimerTicks(handler: Option<Handler>, ticks: nat, continuous: bool, active: bool) returns (id: int)
      requires Ready() && Legal(Slots(), Register(handler, ticks, continuous, active))
      modifies `timer, `numTimers, `triggeredTimer, `currCountdown, `currCountdownPeriod, `ticksTotal, `dev, `log
      ensures Ready() && State() == WheelDo(old(State()), Register(handler, ticks, continuous, active))
      ensures old(numTimers) >= MAX_TIMERS ==> id == -1 && State() == old(State())
      ensures old(numTimers) < MAX_TIMERS ==>
                && 1 <= id < numTimers
                && timer[id] == Timer(true, Interval(ticks), Slots().now + Interval(ticks), active, continuous, handler)
                && (id < old(numTimers) ==> !old(timer)[id].inUse)
      ensures triggeredTimer == old(triggeredTimer)
    {
      hide WheelValid, Sound, WheelDo, Do, FreeSlot, Microseconds;
      Bounds(State());
      RegisterIs(State(), handler, ticks, continuous, active);
      var t := if ticks < MIN_TIMER_PERIOD then MIN_TIMER_PERIOD else ticks;
      var i := FindSlot();
      if numTimers >= MAX_TIMERS {
        return -1;
      }
      PutTimer(i, t, handler, continuous, active);
      id := i;
    }

    /** The new timer goes into slot i. */
    method PutTimer(i: nat, t: nat, handler: Option<Handler>, continuous: bool, active: bool)
      requires InRange() && 1 <= currCountdown && 1 <= i <= numTimers < MAX_TIMERS && Slots().now + t < U64
      modifies `timer, `numTimers, `currCountdown, `currCountdownPeriod
      ensures InRange() && ticksTotal == old(ticksTotal)
      ensures Slots() == old(Slots()).(timers := old(timer)[i := Timer(true, t, Slots().now + t, active, continuous, handler)],
                                       num := if i == old(numTimers) then i + 1 else old(numTimers))
      ensures State().next == if active then Min(Slots().now + t, old(State().next)) else old(State().next)
    {
      var now := TimeTicks();
      timer := timer[i := Timer(true, t, (now + t) % U64, active, continuous, handler)];
      if active {
        Skew(t);
      }
      if i == numTimers {
        numTimers := numTimers + 1;
      }
    }

    /** The search for a slot that is not in use. */
    method FindSlot() returns (i: nat)
      requires 1 <= numTimers <= |timer|
      ensures i == FreeSlot(timer, numTimers, 1)
    {
      i := 1;
      while i < numTimers && timer[i].inUse
        invariant 1 <= i <= numTimers
        invariant FreeSlot(timer, numTimers, i) == FreeSlot(timer, numTimers, 1)
      {
        i := i + 1;
      }
    }

    method ActivateTimerTicks(i: nat, ticks: nat, continuous: bool)
      requires Ready() && Legal(Slots(), Activate(i, ticks, continuous))
      modifies `timer, `numTimers, `triggeredTimer, `currCountdown, `currCountdownPeriod, `ticksTotal, `dev, `log
      ensures Ready() && State() == WheelDo(old(State()), Activate(i, ticks, continuous))
      ensures var p := if ticks == 0 then 1 else ticks;
              && i < |old(timer)| && Slots().now == old(Slots().now) && numTimers == old(numTimers)
              && timer == old(timer)[i := old(timer)[i].(period := p, timeToFire := Slots().now + p, active := true,
                                                         continuous := continuous)]
      ensures triggeredTimer == old(triggeredTimer)
    {
      hide WheelValid, Sound, Microseconds, WheelDo, Do, WellBehaved;
      Bounds(State());
      ActivateIs(State(), i, ticks, continuous);
      var t := if ticks < MIN_TIMER_PERIOD then MIN_TIMER_PERIOD else ticks;
      var now := TimeTicks();
      assert (now + t) % U64 == now + t;
      timer := timer[i := timer[i].(period := t, timeToFire := (now + t) % U64, active := true, continuous := continuous)];
      Skew(t);
    }

    method DeactivateTimer(i: nat)
      requires Ready() && Legal(Slots(), Deactivate(i))
      modifies `timer, `numTimers, `triggeredTimer, `currCountdown, `currCountdownPeriod, `ticksTotal, `dev, `log
      ensures Ready() && State() == WheelDo(old(State()), Deactivate(i))
      ensures i < |old(timer)| && timer == old(timer)[i := old(timer)[i].(active := false)]
      ensures State() == old(State()).(board := old(Slots()).(timers := timer))
      ensures triggeredTimer == old(triggeredTimer)
    {
      hide WheelValid, Microseconds;
      Bounds(State());
      ghost var before := State();
      timer := timer[i := timer[i].(active := false)];
      assert State() == WheelDo(before, Deactivate(i));
    }

    method UnregisterTimer(i: nat) returns (ok: bool)
      requires Ready() && Legal(Slots(), Unregister(i))
      modifies `timer, `numTimers, `triggeredTimer, `currCountdown, `currCountdownPeriod, `ticksTotal, `dev, `log
      ensures Ready() && State() == WheelDo(old(State()), Unregister(i))
      ensures ok == !old(timer[i].active) && (!ok ==> State() == old(State()))
      ensures ok ==>
                && i < |timer| == |old(timer)| && !timer[i].inUse && !timer[i].active && timer[i].funct == None
                && timer == old(timer)[i := timer[i]] && numTimers == (if i == old(numTimers) - 1 then i else old(numTimers))
                && Slots().now == old(Slots().now)
      ensures triggeredTimer == old(triggeredTimer)
    {
      hide WheelValid, Microseconds;
      Bounds(State());
      if timer[i].active {
        return false;
      }
      ghost var before := State();
      timer := timer[i := timer[i].(inUse := false, period := INVALID_PERIOD, timeToFire := INVALID_PERIOD,
                                    continuous := false, funct := None)];
      if i == numTimers - 1 {
        numTimers := numTimers - 1;
      }
      assert State() == WheelDo(before, Unregister(i));
      ok := true;
    }

    /** Makes the timer calls of one callback, in order. */
    method Perform(cs: seq<Command>)
      requires Ready() && LegalAll(Slots(), cs)
      modifies `timer, `numTimers, `triggeredTimer, `currCountdown, `currCountdownPeriod, `ticksTotal, `dev, `log
      ensures Ready() && State() == WheelDoAll(old(State()), cs)
      ensures triggeredTimer == old(triggeredTimer)
    {
      hide WheelValid, Microseconds;
      ghost var before := State();
      Bounds(before);
      for k := 0 to |cs|
        invariant Ready() && Valid(Slots()) && LegalAll(Slots(), cs[k..])
        invariant WheelDoAll(State(), cs[k..]) == WheelDoAll(before, cs)
        invariant triggeredTimer == old(triggeredTimer)
      {
        assert cs[k..][1..] == cs[k + 1..];
        match cs[k]
        case Register(h, ticks, continuous, active) => var _ := RegisterTimerTicks(h, ticks, continuous, active);
        case Activate(i, ticks, continuous) => ActivateTimerTicks(i, ticks, continuous);
        case Deactivate(i) => DeactivateTimer(i);
        case Unregister(i) => var _ := UnregisterTimer(i);
        Bounds(State());
      }
    }

    /** timer[i].funct(timer[i].this_ptr) */
    method Invoke(i: nat, handler: Handler)
      requires Ready() && i < MAX_TIMERS
      modifies `timer, `numTimers, `triggeredTimer, `currCountdown, `currCountdownPeriod, `ticksTotal, `dev, `log
      ensures Ready() && State() == WheelCall(old(State()), cb, handler, i)
    {
      hide WheelValid, Microseconds, WheelCall, Sound;
      Bounds(State());
      CallIs(State(), cb, handler, i);
      triggeredTimer := i;
      ghost var before := State();
      var (d, cs) := cb(handler, i, Slots());
      var now := TimeTicks();
      dev, log := d, log + [Firing(now, i, handler)];
      assert State() == WheelEntered(before, cb, handler, i);
      hide WheelEntered;
      Perform(cs);
      triggeredTimer := 0;
    }

    /** Any mixture of tickn and timer calls made outside callbacks leaves the board that the
        simple clock has after it. */
    method Drive(es: seq<Doing>)
      requires Ready() && Valid(Slots()) && CanRun(Slots(), cb, es) && forall k :: 0 <= k < |es| && es[k].Ticks? ==> es[k].n < U32
      modifies `timer, `numTimers, `triggeredTimer, `currCountdown, `currCountdownPeriod, `ticksTotal, `dev, `log
      ensures Ready() && State() == WheelRun(old(State()), cb, es) && Slots() == ClockRun(old(Slots()), cb, es)
    {
      hide WheelValid, Sound, WheelTicks, ClockTicks, WheelDo, Do, Legal, Punctual, ClockRun;
      ghost var before := State();
      RunsRefineClock(before, cb, es);
      for k := 0 to |es|
        invariant Ready() && Valid(Slots()) && CanRun(Slots(), cb, es[k..])
        invariant WheelRun(State(), cb, es[k..]) == WheelRun(before, cb, es)
      {
        assert es[k..][0] == es[k] && es[k..][1..] == es[k + 1..];
        StepRefinesClock(State(), cb, es[k]);
        match es[k]
        case Ticks(n) => TickN(n);
        case Make(Register(h, ticks, continuous, active)) => var _ := RegisterTimerTicks(h, ticks, continuous, active);
        case Make(Activate(i, ticks, continuous)) => ActivateTimerTicks(i, ticks, continuous);
        case Make(Deactivate(i)) => DeactivateTimer(i);
        case Make(Unregister(i)) => var _ := UnregisterTimer(i);
        Bounds(State());
      }
    }

    /** What the first loop of countdownEvent does to one slot. */
    method ScanSlot(i: nat, minTimeToFire: nat) returns (due: bool, min: nat)
      requires i < |timer| && (Due(timer[i], ticksTotal) ==> timer[i].timeToFire + timer[i].period < U64)
      modifies `timer
      ensures timer == old(timer)[i := TimerBoard.Rearm(old(timer)[i], ticksTotal)]
      ensures due == Due(old(timer)[i], ticksTotal)
      ensures min == if timer[i].active then Min(timer[i].timeToFire, minTimeToFire) else minTimeToFire
    {
      due, min := false, minTimeToFire;
      if timer[i].active {
        if ticksTotal == timer[i].timeToFire {
          due := true;
          if !timer[i].continuous {
            timer := timer[i := timer[i].(active := false)];
          } else {
            timer := timer[i := timer[i].(timeToFire := (timer[i].timeToFire + timer[i].period) % U64)];
            if timer[i].timeToFire < min {
              min := timer[i].timeToFire;
            }
          }
        } else if timer[i].timeToFire < min {
          min := timer[i].timeToFire;
        }
      }
    }

    /** The first loop of countdownEvent: find the timers that are due, rearm them or turn
        them off, and compute the earliest deadline left. */
    method Scan() returns (triggered: seq<bool>, first: nat, last: nat, minTimeToFire: nat)
      requires Sound(Board(ticksTotal, timer, numTimers, dev, log), ticksTotal)
      modifies `timer
      ensures |timer| == MAX_TIMERS && timer == RearmAll(old(timer), numTimers, ticksTotal)
      ensures minTimeToFire == EarliestDeadline(timer, numTimers)
      ensures triggered == DueFlags(old(timer), numTimers, ticksTotal)
      ensures first <= numTimers && last < MAX_TIMERS && (first == numTimers ==> last == 0)
      ensures forall k :: 0 <= k < MAX_TIMERS && triggered[k] ==> first <= k <= last
    {
      hide Sound, Scanned, RearmAll, DueFlags;
      ghost var before := Board(ticksTotal, timer, numTimers, dev, log);
      DueTimer(before, 0);
      first, last := numTimers, 0;
      minTimeToFire := U64 - 1;
      triggered := seq(MAX_TIMERS, _ => false);
      NothingScanned(timer, numTimers, ticksTotal);
      for i := 0 to numTimers
        modifies `timer
        invariant |triggered| == |timer| == MAX_TIMERS && timer[i..] == before.timers[i..]
        invariant first <= numTimers && last < MAX_TIMERS
        invariant Scanned(before.timers, numTimers, ticksTotal, i, timer, triggered, first, last, minTimeToFire)
      {
        DueTimer(before, i);
        assert timer[i] == before.timers[i] by { assert timer[i..][0] == timer[i] && before.timers[i..][0] == before.timers[i]; }
        ScannedNext(before.timers, numTimers, ticksTotal, i, timer, triggered, first, last, minTimeToFire);
        var due;
        due, minTimeToFire := ScanSlot(i, minTimeToFire);
        triggered := triggered[i := due];
        if due {
          if i < first { first := i; }
          last := i;
        }
      }
      AllScanned(before.timers, numTimers, ticksTotal, timer, triggered, first, last, minTimeToFire);
    }

    method CountdownEvent()
      requires InRange() && AtEvent(State()) && WellBehaved(cb) && Punctual() && currCountdown == 0
      modifies `timer, `numTimers, `triggeredTimer, `currCountdown, `currCountdownPeriod, `ticksTotal, `dev, `log
      ensures Ready() && State() == TimerWheel.CountdownEvent(old(State()), cb)
    {
      hide WheelValid, Sound, CallDue, WheelCallDue, EarliestDeadline, Expire, RearmAll, DueFlags, Microseconds;
      hide TimerWheel.CountdownEvent, Rescheduled, AtEvent;
      EventIs(State(), cb);
      var triggered, first, last := Reschedule();
      RunTriggered(triggered, first, last);
    }

    /** countdownEvent up to its second loop: the due timers are rearmed and the next event is set. */
    method Reschedule() returns (triggered: seq<bool>, first: nat, last: nat)
      requires InRange() && AtEvent(State()) && WellBehaved(cb) && Punctual() && currCountdown == 0
      modifies `timer, `currCountdown, `currCountdownPeriod, `ticksTotal
      ensures Ready() && State() == Rescheduled(old(State()))
      ensures triggered == old(DueFlags(Slots().timers, Slots().num, Slots().now)) && |triggered| == MAX_TIMERS
      ensures first <= numTimers && last < MAX_TIMERS && (first == numTimers ==> last == 0)
      ensures forall k :: 0 <= k < MAX_TIMERS && triggered[k] ==> first <= k <= last
    {
      hide WheelValid, Sound, EarliestDeadline, RearmAll, DueFlags, Microseconds;
      ghost var start := Rescheduled(State());
      Bounds(start);
      ticksTotal := (ticksTotal + currCountdownPeriod) % U64;
      assert Board(ticksTotal, timer, numTimers, dev, log) == old(Slots());
      var minTimeToFire;
      triggered, first, last, minTimeToFire := Scan();
      assert minTimeToFire == start.next && ticksTotal == start.last;
      CountdownFits(ticksTotal, minTimeToFire);
      currCountdownPeriod := (minTimeToFire - ticksTotal) % U64 % U32;
      currCountdown := currCountdownPeriod;
      hide Rescheduled, AtEvent, WellBehaved;
      assert State() == start;
    }

    /** The second loop of countdownEvent: call the handlers of the slots that were due. */
    method RunTriggered(triggered: seq<bool>, first: nat, last: nat)
      requires Ready() && |triggered| == MAX_TIMERS && first <= numTimers && last < MAX_TIMERS
      requires first == numTimers ==> last == 0
      requires forall k :: 0 <= k < MAX_TIMERS && triggered[k] ==> first <= k <= last
      modifies `timer, `numTimers, `triggeredTimer, `currCountdown, `currCountdownPeriod, `ticksTotal, `dev, `log
      ensures Ready() && State() == WheelCallDue(old(State()), cb, triggered, 0)
    {
      hide WheelValid, AtEvent, Microseconds;
      ghost var start := State();
      Bounds(start);
      var i := first;
      SkipIdle(start, cb, triggered, 0, first);
      while i <= last
        invariant Ready() && first <= i <= MAX_TIMERS
        invariant WheelCallDue(State(), cb, triggered, i) == WheelCallDue(start, cb, triggered, 0)
      {
        if triggered[i] && timer[i].funct.Some? {
          Invoke(i, timer[i].funct.value);
        }
        i := i + 1;
      }
      SkipIdle(State(), cb, triggered, i, MAX_TIMERS);
    }

    /** while (n >= currCountdown) ... */
    method TickN(n: nat)
      requires Ready() && n < U32 && Slots().now + n <= HORIZON
      modifies `timer, `numTimers, `triggeredTimer, `currCountdown, `currCountdownPeriod, `ticksTotal, `dev, `log
      ensures Ready() && State() == WheelTicks(old(State()), cb, n)
    {
      hide WheelValid, AtEvent, Sound, WheelTick, TimerWheel.CountdownEvent, Microseconds;
      ghost var before := State();
      Bounds(before);
      var left := n;
      while left >= currCountdown
        invariant Ready() && 1 <= currCountdown && 0 <= left <= n && Slots().now + left == before.board.now + n
        invariant State() == WheelTicks(before, cb, n - left)
        decreases left
      {
        ghost var w := State();
        ghost var m := n - left;
        TicksThroughEvent(before, cb, m, currCountdown - 1);
        MicrosecondsPass(w.board.now, w.next, mIps);
        left := left - currCountdown;
        currCountdown := 0;
        assert State() == Run(w);
        CountdownEvent();
        Bounds(State());
      }
      TicksThenQuiet(before, cb, n - left, left);
      MicrosecondsPass(Slots().now, Slots().now + left, mIps);
      currCountdown := currCountdown - left;
    }

    method Tick1()
      requires Ready() && Slots().now < HORIZON
      modifies `timer, `numTimers, `triggeredTimer, `currCountdown, `currCountdownPeriod, `ticksTotal, `dev, `log
      ensures Ready() && State() == WheelTick(old(State()), cb)
    {
      hide WheelValid, AtEvent, Sound, TimerWheel.CountdownEvent, Microseconds;
      ghost var before := State();
      Bounds(before);
      TickIs(before, cb);
      MicrosecondsPass(before.board.now, before.board.now + 1, mIps);
      currCountdown := currCountdown - 1;
      if currCountdown == 0 {
        assert State() == Ticked(before);
        CountdownEvent();
        Bounds(State());
      }
    }

    /** time_usec */
    method TimeUsec() returns (r: nat)
      requires Ready() && Slots().now < HORIZON
      ensures r == Microseconds(Slots().now, mIps)
    {
      var ticks := TimeTicks();
      r := Microseconds(ticks, mIps);
    }

    /** time_usec_sequential: the value returned is one more than the larger of the present time
        and the value returned before, however much time has passed in between: strictly
        increasing, and never further ahead than that. */
    method TimeUsecSequential() returns (r: nat)
      requires Ready() && Slots().now < HORIZON && Microseconds(Slots().now, mIps) + usecSinceLast + 1 < U64
      modifies `lastTimeUsec, `usecSinceLast
      ensures Ready() && State() == old(State()) && r == lastTimeUsec + usecSinceLast
      ensures var time, was := Microseconds(Slots().now, mIps), old(lastTimeUsec + usecSinceLast);
              lastTimeUsec == time && r == (if was <= time then time else was) + 1
    {
      hide WheelValid, Microseconds, Sound, WellBehaved;
      var thisTimeUsec := TimeUsec();
      if thisTimeUsec != lastTimeUsec {
        var diffUsec := thisTimeUsec - lastTimeUsec;
        lastTimeUsec := thisTimeUsec;
        if diffUsec >= usecSinceLast {
          usecSinceLast := 0;
        } else {
          usecSinceLast := usecSinceLast - diffUsec;
        }
      }
      usecSinceLast := usecSinceLast + 1;
      r := (thisTimeUsec + usecSinceLast) % U64;
    }
  }
}
