/** The timers of the Bochs PC system object (config/bochs/pc_system.cc, pc_system.h),
    seen as a plain clock: there is a current time, a board of 64 timer slots with
    absolute deadlines, and no countdown.  One step of the clock advances the time by one
    tick and runs the callbacks of the timers whose deadline has come.

    This is the simple specification.  TimerWheel adds the absolute time of the next
    countdown event, and PcSystem the 32-bit relative countdown of the source. */
module TimerBoard {
  import opened Common

  const MAX_TIMERS := 64
  const NULL_TIMER_INTERVAL := 0xffff_ffff
  const MIN_TIMER_PERIOD := 1
  /** The period an unregistered slot is left with. */
  const INVALID_PERIOD := 0x7fff_ffff_ffff_ffff
  /** Requested intervals stay below this, and runs end at this time at the latest, so
      that no 64-bit deadline wraps. */
  const HORIZON := 0x8000_0000_0000_0000

  /** A handler is the callback function together with the object it is called on. */
  type Handler = nat

  datatype Timer = Timer(
    inUse: bool,
    period: nat,
    timeToFire: nat,
    active: bool,
    continuous: bool,
    funct: Option<Handler>)

  datatype Firing = Firing(time: nat, slot: nat, handler: Handler)

  /** dev is the state of the devices that own the callbacks; log the callbacks made. */
  datatype Board<D> = Board(now: nat, timers: seq<Timer>, num: nat, dev: D, log: seq<Firing>)

  datatype Command =
    | Register(handler: Option<Handler>, ticks: nat, continuous: bool, active: bool)
    | Activate(slot: nat, ticks: nat, continuous: bool)
    | Deactivate(slot: nat)
    | Unregister(slot: nat)

  /** What the devices do when a handler is called for a slot: the new device state and
      the timer calls made.  It may depend on all of the board, so the list of calls can
      be decided in advance without loss: every result of a timer call is determined. */
  type Callbacks<!D> = (Handler, nat, Board<D>) -> (D, seq<Command>)

  // ---------------------------------------------------------------- well-formed boards

  predicate IsNullTimer(t: Timer) {
    t.inUse && t.active && t.continuous && t.period == NULL_TIMER_INTERVAL && t.funct == None
  }

  ghost predicate TimerOk(t: Timer, floor: nat) {
    t.active ==> 1 <= t.period < HORIZON && floor <= t.timeToFire < U64
  }

  /** Every active deadline is at floor or later, and the null timer is never more than
      its interval away. */
  ghost predicate Sound<D>(b: Board<D>, floor: nat) {
    && |b.timers| == MAX_TIMERS
    && 1 <= b.num <= MAX_TIMERS
    && b.now <= HORIZON
    && IsNullTimer(b.timers[0])
    && b.timers[0].timeToFire <= b.now + NULL_TIMER_INTERVAL
    && (forall i :: b.num <= i < MAX_TIMERS ==> !b.timers[i].active)
    && (forall i :: 0 <= i < MAX_TIMERS ==> TimerOk(b.timers[i], floor))
  }

  /** Between ticks, every active deadline lies strictly in the future. */
  ghost predicate Valid<D>(b: Board<D>) {
    Sound(b, b.now + 1)
  }

  // ------------------------------------------------------------------- timer calls

  function Interval(ticks: nat): nat {
    if ticks < MIN_TIMER_PERIOD then MIN_TIMER_PERIOD else ticks
  }

  /** The first slot from i on that is not in use, or num. */
  function FreeSlot(timers: seq<Timer>, num: nat, i: nat): (r: nat)
    requires i <= num <= |timers|
    ensures i <= r <= num
    ensures forall k :: i <= k < r ==> timers[k].inUse
    ensures r < num ==> !timers[r].inUse
    decreases num - i
  {
    if i == num || !timers[i].inUse then i else FreeSlot(timers, num, i + 1)
  }

  /** The slots a caller may name: the debug build of the source panics on any other. */
  predicate Legal<D>(b: Board<D>, c: Command) {
    match c
    case Register(_, ticks, _, _) => ticks < HORIZON
    case Activate(i, ticks, _) => 1 <= i < b.num && ticks < HORIZON
    case Deactivate(i) => 1 <= i < b.num
    case Unregister(i) => 1 <= i < b.num <= |b.timers| && b.timers[i].inUse
  }

  function Unused(t: Timer): Timer {
    t.(inUse := false, period := INVALID_PERIOD, timeToFire := INVALID_PERIOD, continuous := false, funct := None)
  }

  function Do<D>(b: Board<D>, c: Command): (r: Board<D>)
    requires Valid(b) && Legal(b, c)
    ensures Valid(r) && r.now == b.now && r.dev == b.dev && r.log == b.log
  {
    match c
    case Register(h, ticks, continuous, active) =>
      if b.num >= MAX_TIMERS then b else
      var i := FreeSlot(b.timers, b.num, 1);
      var t := Timer(true, Interval(ticks), b.now + Interval(ticks), active, continuous, h);
      b.(timers := b.timers[i := t], num := if i == b.num then b.num + 1 else b.num)
    case Activate(i, ticks, continuous) =>
      var t := b.timers[i].(period := Interval(ticks), timeToFire := b.now + Interval(ticks),
                            active := true, continuous := continuous);
      b.(timers := b.timers[i := t])
    case Deactivate(i) =>
      b.(timers := b.timers[i := b.timers[i].(active := false)])
    case Unregister(i) =>
      if b.timers[i].active then b else
      b.(timers := b.timers[i := Unused(b.timers[i])], num := if i == b.num - 1 then b.num - 1 else b.num)
  }

  predicate LegalAll<D>(b: Board<D>, cs: seq<Command>)
    requires Valid(b)
    decreases |cs|
  {
    cs == [] || (Legal(b, cs[0]) && LegalAll(Do(b, cs[0]), cs[1..]))
  }

  function DoAll<D>(b: Board<D>, cs: seq<Command>): (r: Board<D>)
    requires Valid(b) && LegalAll(b, cs)
    ensures Valid(r) && r.now == b.now && r.log == b.log
    decreases |cs|
  {
    if cs == [] then b else DoAll(Do(b, cs[0]), cs[1..])
  }

  // -------------------------------------------------------------------- callbacks

  /** The board as the callback of slot i leaves it before its timer calls. */
  function Entered<D>(b: Board<D>, cb: Callbacks<D>, h: Handler, i: nat): Board<D> {
    b.(dev := cb(h, i, b).0, log := b.log + [Firing(b.now, i, h)])
  }

  /** Callbacks only make legal timer calls. */
  ghost predicate WellBehaved<D(!new)>(cb: Callbacks<D>) {
    forall h: Handler, i: nat, b: Board<D> ::
      Valid(b) ==> LegalAll(Entered(b, cb, h, i), cb(h, i, b).1)
  }

  function Call<D(!new)>(b: Board<D>, cb: Callbacks<D>, h: Handler, i: nat): (r: Board<D>)
    requires Valid(b) && WellBehaved(cb)
    ensures Valid(r) && r.now == b.now && r.log == b.log + [Firing(b.now, i, h)]
  {
    DoAll(Entered(b, cb, h, i), cb(h, i, b).1)
  }

  /** Calls the handlers of the slots flagged in due, from slot i upwards; a slot without
      a handler at its turn is skipped. */
  function CallDue<D(!new)>(b: Board<D>, cb: Callbacks<D>, due: seq<bool>, i: nat): (r: Board<D>)
    requires Valid(b) && WellBehaved(cb) && |due| == MAX_TIMERS && i <= MAX_TIMERS
    ensures Valid(r) && r.now == b.now
    decreases |due| - i
  {
    if i == |due| then b
    else if due[i] && b.timers[i].funct.Some? then
      CallDue(Call(b, cb, b.timers[i].funct.value, i), cb, due, i + 1)
    else CallDue(b, cb, due, i + 1)
  }

  // ---------------------------------------------------------------- one clock tick

  predicate Due(t: Timer, now: nat) {
    t.active && t.timeToFire == now
  }

  function Rearm(t: Timer, now: nat): Timer {
    if !Due(t, now) then t
    else if t.continuous then t.(timeToFire := t.timeToFire + t.period)
    else t.(active := false)
  }

  function RearmAll(timers: seq<Timer>, num: nat, now: nat): (r: seq<Timer>)
    ensures |r| == |timers|
    ensures forall i :: 0 <= i < |r| ==> r[i] == if i < num then Rearm(timers[i], now) else timers[i]
  {
    seq(|timers|, i requires 0 <= i < |timers| => if i < num then Rearm(timers[i], now) else timers[i])
  }

  function DueFlags(timers: seq<Timer>, num: nat, now: nat): (r: seq<bool>)
    ensures |r| == |timers|
    ensures forall i :: 0 <= i < |r| ==> (r[i] <==> i < num && Due(timers[i], now))
  {
    seq(|timers|, i requires 0 <= i < |timers| => i < num && Due(timers[i], now))
  }

  /** The timers whose deadline is the present moment are rearmed or, if one-shot, turned
      off, and then their callbacks run. */
  function Expire<D(!new)>(b: Board<D>, cb: Callbacks<D>): (r: Board<D>)
    requires Sound(b, b.now) && WellBehaved(cb)
    ensures Valid(r) && r.now == b.now
  {
    CallDue(Rearmed(b), cb, DueFlags(b.timers, b.num, b.now), 0)
  }

  function Rearmed<D>(b: Board<D>): (r: Board<D>)
    requires Sound(b, b.now)
    ensures Valid(r) && r.now == b.now
  {
    b.(timers := RearmAll(b.timers, b.num, b.now))
  }

  function ClockTick<D(!new)>(b: Board<D>, cb: Callbacks<D>): (r: Board<D>)
    requires Valid(b) && b.now < HORIZON && WellBehaved(cb)
    ensures Valid(r) && r.now == b.now + 1
  {
    Expire(b.(now := b.now + 1), cb)
  }

  function ClockTicks<D(!new)>(b: Board<D>, cb: Callbacks<D>, n: nat): (r: Board<D>)
    requires Valid(b) && b.now + n <= HORIZON && WellBehaved(cb)
    ensures Valid(r) && r.now == b.now + n
  {
    if n == 0 then b else ClockTick(ClockTicks(b, cb, n - 1), cb)
  }

  // ------------------------------------------------------------------ whole runs

  /** What happens outside callbacks: ticks pass, and a device makes a timer call. */
  datatype Doing = Ticks(n: nat) | Make(c: Command)

  predicate CanDo<D>(b: Board<D>, e: Doing) {
    match e
    case Ticks(n) => b.now + n <= HORIZON
    case Make(c) => Legal(b, c)
  }

  function ClockStep<D(!new)>(b: Board<D>, cb: Callbacks<D>, e: Doing): (r: Board<D>)
    requires Valid(b) && WellBehaved(cb) && CanDo(b, e)
    ensures Valid(r)
  {
    match e
    case Ticks(n) => ClockTicks(b, cb, n)
    case Make(c) => Do(b, c)
  }

  /** Every step is possible when it comes. */
  ghost predicate CanRun<D(!new)>(b: Board<D>, cb: Callbacks<D>, es: seq<Doing>)
    requires Valid(b) && WellBehaved(cb)
    decreases |es|
  {
    es == [] || (CanDo(b, es[0]) && CanRun(ClockStep(b, cb, es[0]), cb, es[1..]))
  }

  ghost function ClockRun<D(!new)>(b: Board<D>, cb: Callbacks<D>, es: seq<Doing>): (r: Board<D>)
    requires Valid(b) && WellBehaved(cb) && CanRun(b, cb, es)
    ensures Valid(r)
    decreases |es|
  {
    if es == [] then b else ClockRun(ClockStep(b, cb, es[0]), cb, es[1..])
  }
}
