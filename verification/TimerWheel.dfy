/** The clock of TimerBoard with the absolute times of the last and the next countdown
    event added.  Nothing is inspected until the next event, so the wheel is right only if
    no active deadline ever comes before it; the refinement lemmas say that it never does. */
module TimerWheel {
  import opened Common
  import opened TimerBoard

  datatype Wheel<D> = Wheel(board: Board<D>, last: nat, next: nat)

  /** The next event is in the future, at most a 32-bit countdown after the last one, and
      no active timer is due before it. */
  ghost predicate WheelValid<D>(w: Wheel<D>) {
    && Valid(w.board)
    && w.last <= w.board.now < w.next <= w.last + NULL_TIMER_INTERVAL
    && forall i :: 0 <= i < MAX_TIMERS ==> TimerOk(w.board.timers[i], w.next)
  }

  lemma Bounds<D>(w: Wheel<D>)
    requires WheelValid(w)
    ensures |w.board.timers| == MAX_TIMERS && 1 <= w.board.num <= MAX_TIMERS
    ensures w.last <= w.board.now < w.next <= w.last + NULL_TIMER_INTERVAL && w.board.now <= HORIZON
    ensures Valid(w.board)
  {
  }

  /** The deadline a timer call arms, if any. */
  function Armed<D>(b: Board<D>, c: Command): Option<nat> {
    match c
    case Register(_, ticks, _, active) =>
      if active && b.num < MAX_TIMERS then Some(b.now + Interval(ticks)) else None
    case Activate(_, ticks, _) => Some(b.now + Interval(ticks))
    case Deactivate(_) => None
    case Unregister(_) => None
  }

  /** A timer call pulls the next event forward when it arms an earlier deadline. */
  function WheelDo<D>(w: Wheel<D>, c: Command): (r: Wheel<D>)
    requires WheelValid(w) && Legal(w.board, c)
    ensures WheelValid(r) && r.board == Do(w.board, c) && r.last == w.last
  {
    var next := match Armed(w.board, c) case Some(d) => Min(d, w.next) case None => w.next;
    Wheel(Do(w.board, c), w.last, next)
  }

  function WheelDoAll<D>(w: Wheel<D>, cs: seq<Command>): (r: Wheel<D>)
    requires WheelValid(w) && LegalAll(w.board, cs)
    ensures WheelValid(r) && r.board == DoAll(w.board, cs) && r.last == w.last
    decreases |cs|
  {
    if cs == [] then w else WheelDoAll(WheelDo(w, cs[0]), cs[1..])
  }

  function WheelEntered<D(!new)>(w: Wheel<D>, cb: Callbacks<D>, h: Handler, i: nat): (r: Wheel<D>)
    requires WheelValid(w) && WellBehaved(cb)
    ensures WheelValid(r) && LegalAll(r.board, cb(h, i, w.board).1)
  {
    w.(board := Entered(w.board, cb, h, i))
  }

  function WheelCall<D(!new)>(w: Wheel<D>, cb: Callbacks<D>, h: Handler, i: nat): (r: Wheel<D>)
    requires WheelValid(w) && WellBehaved(cb)
    ensures WheelValid(r) && r.board == Call(w.board, cb, h, i) && r.last == w.last
  {
    WheelDoAll(WheelEntered(w, cb, h, i), cb(h, i, w.board).1)
  }

  function WheelCallDue<D(!new)>(w: Wheel<D>, cb: Callbacks<D>, due: seq<bool>, i: nat): (r: Wheel<D>)
    requires WheelValid(w) && WellBehaved(cb) && |due| == MAX_TIMERS && i <= MAX_TIMERS
    ensures WheelValid(r) && r.board == CallDue(w.board, cb, due, i) && r.last == w.last
    decreases |due| - i
  {
    if i == |due| then w
    else if due[i] && w.board.timers[i].funct.Some? then
      WheelCallDue(WheelCall(w, cb, w.board.timers[i].funct.value, i), cb, due, i + 1)
    else WheelCallDue(w, cb, due, i + 1)
  }

  /** The earliest active deadline among the first num slots, or the largest 64-bit value. */
  function EarliestDeadline(timers: seq<Timer>, num: nat): (r: nat)
    requires num <= |timers|
    ensures forall i :: 0 <= i < num && timers[i].active ==> r <= timers[i].timeToFire
    ensures r == U64 - 1 || exists i :: 0 <= i < num && timers[i].active && r == timers[i].timeToFire
  {
    if num == 0 then U64 - 1
    else
      var r := EarliestDeadline(timers, num - 1);
      if timers[num - 1].active then Min(timers[num - 1].timeToFire, r) else r
  }

  /** The countdown has run out: everything the wheel has promised about the future now
      holds of the present moment instead. */
  ghost predicate AtEvent<D>(w: Wheel<D>) {
    && Sound(w.board, w.board.now)
    && w.last <= w.next == w.board.now <= w.last + NULL_TIMER_INTERVAL
  }

  /** The new deadline of a continuous timer that is due does not wrap. */
  lemma DueTimer<D>(b: Board<D>, i: nat)
    requires Sound(b, b.now) && i < MAX_TIMERS
    ensures |b.timers| == MAX_TIMERS && 1 <= b.num <= MAX_TIMERS
    ensures Due(b.timers[i], b.now) ==> b.timers[i].timeToFire + b.timers[i].period < U64
  {
  }

  function CountdownEvent<D(!new)>(w: Wheel<D>, cb: Callbacks<D>): (r: Wheel<D>)
    requires AtEvent(w) && WellBehaved(cb)
    ensures WheelValid(r) && r.board == Expire(w.board, cb)
  {
    WheelCallDue(Rescheduled(w), cb, DueFlags(w.board.timers, w.board.num, w.board.now), 0)
  }

  function Rescheduled<D>(w: Wheel<D>): (r: Wheel<D>)
    requires AtEvent(w)
    ensures WheelValid(r) && r.board == Rearmed(w.board) && r.last == w.board.now
  {
    var b := Rearmed(w.board);
    Wheel(b, b.now, EarliestDeadline(b.timers, b.num))
  }

  function WheelTick<D(!new)>(w: Wheel<D>, cb: Callbacks<D>): (r: Wheel<D>)
    requires WheelValid(w) && w.board.now < HORIZON && WellBehaved(cb)
    ensures WheelValid(r) && r.board.now == w.board.now + 1
  {
    var w1 := w.(board := w.board.(now := w.board.now + 1));
    if w1.board.now == w.next then CountdownEvent(w1, cb) else w1
  }

  function WheelTicks<D(!new)>(w: Wheel<D>, cb: Callbacks<D>, n: nat): (r: Wheel<D>)
    requires WheelValid(w) && w.board.now + n <= HORIZON && WellBehaved(cb)
    ensures WheelValid(r) && r.board.now == w.board.now + n
  {
    if n == 0 then w else WheelTick(WheelTicks(w, cb, n - 1), cb)
  }

  // ------------------------------------------------------- the wheel refines the clock

  /** At a moment when no timer is due, expiring does nothing. */
  lemma {:induction false} NothingDue<D(!new)>(b: Board<D>, cb: Callbacks<D>, due: seq<bool>, i: nat)
    requires Valid(b) && WellBehaved(cb) && |due| == MAX_TIMERS && i <= MAX_TIMERS
    requires forall k :: i <= k < MAX_TIMERS ==> !due[k]
    ensures CallDue(b, cb, due, i) == b
    decreases |due| - i
  {
    if i < MAX_TIMERS {
      NothingDue(b, cb, due, i + 1);
    }
  }

  /** Slots that are not due are passed over. */
  lemma {:induction false} SkipIdle<D(!new)>(w: Wheel<D>, cb: Callbacks<D>, due: seq<bool>, i: nat, j: nat)
    requires WheelValid(w) && WellBehaved(cb) && |due| == MAX_TIMERS && i <= j <= MAX_TIMERS
    requires forall k :: i <= k < j ==> !due[k]
    ensures WheelCallDue(w, cb, due, i) == WheelCallDue(w, cb, due, j)
    ensures j == MAX_TIMERS ==> WheelCallDue(w, cb, due, i) == w
    decreases j - i
  {
    if i < j {
      SkipIdle(w, cb, due, i + 1, j);
    }
  }

  lemma TickRefinesClock<D(!new)>(w: Wheel<D>, cb: Callbacks<D>)
    requires WheelValid(w) && w.board.now < HORIZON && WellBehaved(cb)
    ensures WheelTick(w, cb).board == ClockTick(w.board, cb)
  {
    var b := w.board.(now := w.board.now + 1);
    if b.now != w.next {
      assert forall i :: 0 <= i < MAX_TIMERS ==> TimerOk(b.timers[i], b.now + 1);
      assert RearmAll(b.timers, b.num, b.now) == b.timers;
      NothingDue(b, cb, DueFlags(b.timers, b.num, b.now), 0);
    }
  }

  /** The wheel shows the same board as the clock after any number of ticks: the same
      timers, the same device state, the same callbacks at the same times. */
  lemma {:induction false} TicksRefineClock<D(!new)>(w: Wheel<D>, cb: Callbacks<D>, n: nat)
    requires WheelValid(w) && w.board.now + n <= HORIZON && WellBehaved(cb)
    ensures WheelTicks(w, cb, n).board == ClockTicks(w.board, cb, n)
  {
    hide WheelTick, ClockTick, WheelValid, Sound;
    if n > 0 {
      TicksRefineClock(w, cb, n - 1);
      TickRefinesClock(WheelTicks(w, cb, n - 1), cb);
    }
  }

  function WheelStep<D(!new)>(w: Wheel<D>, cb: Callbacks<D>, e: Doing): (r: Wheel<D>)
    requires WheelValid(w) && WellBehaved(cb) && CanDo(w.board, e)
    ensures WheelValid(r)
  {
    match e
    case Ticks(n) => WheelTicks(w, cb, n)
    case Make(c) => WheelDo(w, c)
  }

  lemma StepRefinesClock<D(!new)>(w: Wheel<D>, cb: Callbacks<D>, e: Doing)
    requires WheelValid(w) && WellBehaved(cb) && CanDo(w.board, e)
    ensures Valid(w.board) && WheelStep(w, cb, e).board == ClockStep(w.board, cb, e)
  {
    hide Sound, WheelTicks, ClockTicks, Do, WheelDo;
    Bounds(w);
    if e.Ticks? {
      TicksRefineClock(w, cb, e.n);
    }
  }

  ghost function WheelRun<D(!new)>(w: Wheel<D>, cb: Callbacks<D>, es: seq<Doing>): (r: Wheel<D>)
    requires WheelValid(w) && Valid(w.board) && WellBehaved(cb) && CanRun(w.board, cb, es)
    ensures WheelValid(r)
    decreases |es|
  {
    if es == [] then w
    else
      StepRefinesClock(w, cb, es[0]);
      WheelRun(WheelStep(w, cb, es[0]), cb, es[1..])
  }

  /** The same over any run of ticks and timer calls. */
  lemma {:induction false} RunsRefineClock<D(!new)>(w: Wheel<D>, cb: Callbacks<D>, es: seq<Doing>)
    requires WheelValid(w) && Valid(w.board) && WellBehaved(cb) && CanRun(w.board, cb, es)
    ensures WheelRun(w, cb, es).board == ClockRun(w.board, cb, es)
    decreases |es|
  {
    hide Sound, WheelStep, ClockStep, WheelValid, CanDo;
    if es != [] {
      StepRefinesClock(w, cb, es[0]);
      RunsRefineClock(WheelStep(w, cb, es[0]), cb, es[1..]);
    }
  }

  // ------------------------------------------------------------------ skipping ahead

  /** Ticks before the next event only advance the time. */
  lemma {:induction false} QuietTicks<D(!new)>(w: Wheel<D>, cb: Callbacks<D>, n: nat)
    requires WheelValid(w) && w.board.now + n <= HORIZON && WellBehaved(cb)
    requires w.board.now + n < w.next
    ensures WheelTicks(w, cb, n) == w.(board := w.board.(now := w.board.now + n))
  {
    hide CountdownEvent, Sound;
    if n > 0 {
      QuietTicks(w, cb, n - 1);
    }
  }

  lemma {:induction false} TicksCompose<D(!new)>(w: Wheel<D>, cb: Callbacks<D>, m: nat, n: nat)
    requires WheelValid(w) && w.board.now + m + n <= HORIZON && WellBehaved(cb)
    ensures WheelTicks(w, cb, m + n) == WheelTicks(WheelTicks(w, cb, m), cb, n)
  {
    hide WheelTick;
    if n > 0 {
      TicksCompose(w, cb, m, n - 1);
      assert m + n - 1 == m + (n - 1);
    }
  }

  /** The wheel moved to the time of its next event. */
  function Run<D>(w: Wheel<D>): (r: Wheel<D>)
    requires WheelValid(w) && w.next <= HORIZON
    ensures AtEvent(r)
  {
    w.(board := w.board.(now := w.next))
  }

  lemma LastTickIsEvent<D(!new)>(w: Wheel<D>, cb: Callbacks<D>)
    requires WheelValid(w) && w.board.now + 1 == w.next <= HORIZON && WellBehaved(cb)
    ensures WheelTick(w, cb) == CountdownEvent(Run(w), cb)
  {
    hide CountdownEvent;
  }

  /** Jumping to the next event and handling it there is the same as ticking up to it. */
  lemma TicksToEvent<D(!new)>(w: Wheel<D>, cb: Callbacks<D>, k: nat)
    requires WheelValid(w) && w.board.now + k + 1 == w.next <= HORIZON && WellBehaved(cb)
    ensures WheelTicks(w, cb, k + 1) == CountdownEvent(Run(w), cb)
  {
    hide CountdownEvent, WheelTick, WheelValid, AtEvent;
    QuietTicks(w, cb, k);
    LastTickIsEvent(WheelTicks(w, cb, k), cb);
  }

  /** After m ticks, jumping over the k ticks before the next event and handling it. */
  lemma TicksThroughEvent<D(!new)>(w: Wheel<D>, cb: Callbacks<D>, m: nat, k: nat)
    requires WheelValid(w) && w.board.now + m + k + 1 <= HORIZON && WellBehaved(cb)
    requires WheelTicks(w, cb, m).next == w.board.now + m + k + 1
    ensures WheelTicks(w, cb, m + k + 1) == CountdownEvent(Run(WheelTicks(w, cb, m)), cb)
  {
    hide CountdownEvent, WheelTick, WheelValid, AtEvent;
    TicksToEvent(WheelTicks(w, cb, m), cb, k);
    TicksCompose(w, cb, m, k + 1);
    assert m + k + 1 == m + (k + 1);
  }

  /** After m ticks, the next k come before the next event. */
  lemma TicksThenQuiet<D(!new)>(w: Wheel<D>, cb: Callbacks<D>, m: nat, k: nat)
    requires WheelValid(w) && w.board.now + m + k <= HORIZON && WellBehaved(cb)
    requires w.board.now + m + k < WheelTicks(w, cb, m).next
    ensures WheelTicks(w, cb, m + k)
         == WheelTicks(w, cb, m).(board := WheelTicks(w, cb, m).board.(now := w.board.now + m + k))
  {
    hide WheelTick, WheelValid;
    QuietTicks(WheelTicks(w, cb, m), cb, k);
    TicksCompose(w, cb, m, k);
  }
}
