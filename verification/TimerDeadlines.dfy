/** When timers fire, over whole runs of ticks and timer calls.  By the contract of PcSystem.Drive
    the same holds of the source's countdown. */
module TimerDeadlines {
  import opened Common
  import opened TimerBoard
  import opened TimerWheel

  // -------------------------------------------------- a timer that nobody touches

  predicate Names(c: Command, i: nat) {
    match c
    case Register(_, _, _, _) => false
    case Activate(j, _, _) => i == j
    case Deactivate(j) => i == j
    case Unregister(j) => i == j
  }

  /** No callback ever makes a timer call about slot i. */
  ghost predicate LeftAlone<D(!new)>(cb: Callbacks<D>, i: nat) {
    forall h: Handler, s: nat, b: Board<D>, k: nat ::
      k < |cb(h, s, b).1| ==> !Names(cb(h, s, b).1[k], i)
  }

  ghost predicate Registered<D>(b: Board<D>, i: nat) {
    i < b.num <= |b.timers| && b.timers[i].inUse && b.timers[i].funct.Some?
  }

  /** The times at which slot i was called. */
  function FiringTimes(log: seq<Firing>, i: nat): seq<nat> {
    if log == [] then []
    else
      var f := log[|log| - 1];
      FiringTimes(log[..|log| - 1], i) + if f.slot == i then [f.time] else []
  }

  lemma DoLeaves<D>(b: Board<D>, c: Command, i: nat)
    requires Valid(b) && Legal(b, c) && Registered(b, i) && !Names(c, i)
    ensures Registered(Do(b, c), i) && Do(b, c).timers[i] == b.timers[i]
  {
  }

  lemma {:induction false} DoAllLeaves<D>(b: Board<D>, cs: seq<Command>, i: nat)
    requires Valid(b) && LegalAll(b, cs) && Registered(b, i)
    requires forall k :: 0 <= k < |cs| ==> !Names(cs[k], i)
    ensures Registered(DoAll(b, cs), i) && DoAll(b, cs).timers[i] == b.timers[i]
    decreases |cs|
  {
    if cs != [] {
      DoLeaves(b, cs[0], i);
      DoAllLeaves(Do(b, cs[0]), cs[1..], i);
    }
  }

  lemma CallLeaves<D(!new)>(b: Board<D>, cb: Callbacks<D>, h: Handler, s: nat, i: nat)
    requires Valid(b) && WellBehaved(cb) && LeftAlone(cb, i) && Registered(b, i)
    ensures Registered(Call(b, cb, h, s), i) && Call(b, cb, h, s).timers[i] == b.timers[i]
    ensures FiringTimes(Call(b, cb, h, s).log, i) == FiringTimes(b.log, i) + if s == i then [b.now] else []
  {
    DoAllLeaves(Entered(b, cb, h, s), cb(h, s, b).1, i);
    var log := b.log + [Firing(b.now, s, h)];
    assert log[..|log| - 1] == b.log;
  }

  lemma {:induction false} CallDueLeaves<D(!new)>(b: Board<D>, cb: Callbacks<D>, due: seq<bool>, k: nat, i: nat)
    requires Valid(b) && WellBehaved(cb) && |due| == MAX_TIMERS && k <= MAX_TIMERS
    requires LeftAlone(cb, i) && Registered(b, i) && i < MAX_TIMERS
    ensures Registered(CallDue(b, cb, due, k), i) && CallDue(b, cb, due, k).timers[i] == b.timers[i]
    ensures FiringTimes(CallDue(b, cb, due, k).log, i)
         == FiringTimes(b.log, i) + if k <= i && due[i] then [b.now] else []
    decreases |due| - k
  {
    hide Sound, Call, CallDue, LeftAlone, Registered, WellBehaved, FiringTimes;
    InRange(b, k);
    CallDueStep(b, cb, due, k);
    HasHandler(b, i);
    if k < |due| {
      if due[k] && b.timers[k].funct.Some? {
        var h := b.timers[k].funct.value;
        CallLeaves(b, cb, h, k, i);
        CallDueLeaves(Call(b, cb, h, k), cb, due, k + 1, i);
      } else {
        CallDueLeaves(b, cb, due, k + 1, i);
      }
    }
  }

  lemma CallDueStep<D(!new)>(b: Board<D>, cb: Callbacks<D>, due: seq<bool>, k: nat)
    requires Valid(b) && WellBehaved(cb) && |due| == MAX_TIMERS && k <= MAX_TIMERS
    ensures k == |due| ==> CallDue(b, cb, due, k) == b
    ensures k < |due| ==>
              && k < |b.timers|
              && CallDue(b, cb, due, k) == if due[k] && b.timers[k].funct.Some?
                 then CallDue(Call(b, cb, b.timers[k].funct.value, k), cb, due, k + 1) else CallDue(b, cb, due, k + 1)
  {
  }

  lemma InRange<D>(b: Board<D>, k: nat)
    requires Valid(b)
    ensures |b.timers| == MAX_TIMERS
  {
  }

  lemma HasHandler<D>(b: Board<D>, i: nat)
    requires Registered(b, i)
    ensures i < |b.timers| && b.timers[i].funct.Some?
  {
  }

  /** One tick fires a timer left alone exactly if its deadline is the new time. */
  lemma TickOfOne<D(!new)>(b: Board<D>, cb: Callbacks<D>, i: nat)
    requires Valid(b) && b.now < HORIZON && WellBehaved(cb) && LeftAlone(cb, i) && Registered(b, i)
    ensures Registered(ClockTick(b, cb), i)
    ensures ClockTick(b, cb).timers[i] == Rearm(b.timers[i], b.now + 1)
    ensures FiringTimes(ClockTick(b, cb).log, i)
         == FiringTimes(b.log, i) + if Due(b.timers[i], b.now + 1) then [b.now + 1] else []
  {
    hide CallDue, LeftAlone, FiringTimes, WellBehaved;
    var b1 := b.(now := b.now + 1);
    CallDueLeaves(Rearmed(b1), cb, DueFlags(b1.timers, b1.num, b1.now), 0, i);
  }

  /** No timer call made outside callbacks is about slot i. */
  predicate NotNamed(es: seq<Doing>, i: nat) {
    forall k :: 0 <= k < |es| && es[k].Make? ==> !Names(es[k].c, i)
  }

  /** Slot i holds what the one-shot timer t is at the time, and has been called at the times
      before and, when it came, at the deadline. */
  ghost predicate OneShotAt<D>(b: Board<D>, i: nat, t: Timer, before: seq<nat>) {
    && Registered(b, i) && b.timers[i] == t.(active := b.now < t.timeToFire)
    && FiringTimes(b.log, i) == before + if t.timeToFire <= b.now then [t.timeToFire] else []
  }

  lemma {:induction false} OneShotTicks<D(!new)>(b: Board<D>, cb: Callbacks<D>, i: nat, n: nat, t: Timer, before: seq<nat>)
    requires Valid(b) && b.now + n <= HORIZON && WellBehaved(cb) && LeftAlone(cb, i)
    requires OneShotAt(b, i, t, before) && !t.continuous
    ensures OneShotAt(ClockTicks(b, cb, n), i, t, before)
  {
    hide ClockTick, LeftAlone, FiringTimes, Sound, WellBehaved;
    if n > 0 {
      OneShotTicks(b, cb, i, n - 1, t, before);
      TickOfOne(ClockTicks(b, cb, n - 1), cb, i);
    }
  }

  lemma {:induction false} OneShotRuns<D(!new)>(b: Board<D>, cb: Callbacks<D>, i: nat, es: seq<Doing>, t: Timer, before: seq<nat>)
    requires Valid(b) && WellBehaved(cb) && CanRun(b, cb, es) && LeftAlone(cb, i) && NotNamed(es, i)
    requires OneShotAt(b, i, t, before) && !t.continuous
    ensures OneShotAt(ClockRun(b, cb, es), i, t, before)
    decreases |es|
  {
    hide Do, ClockTicks, LeftAlone, FiringTimes, Sound, WellBehaved;
    if es != [] {
      match es[0] {
        case Ticks(n) => OneShotTicks(b, cb, i, n, t, before);
        case Make(c) => DoLeaves(b, c, i);
      }
      OneShotRuns(ClockStep(b, cb, es[0]), cb, i, es[1..], t, before);
    }
  }

  /** A one-shot timer left alone fires once, at its deadline, and is then inactive, however the
      run mixes ticks with timer calls about other slots. */
  lemma OneShotFiresOnce<D(!new)>(b: Board<D>, cb: Callbacks<D>, i: nat, es: seq<Doing>)
    requires Valid(b) && WellBehaved(cb) && CanRun(b, cb, es) && LeftAlone(cb, i) && NotNamed(es, i)
    requires Registered(b, i) && b.timers[i].active && !b.timers[i].continuous
    ensures var r, t := ClockRun(b, cb, es), b.timers[i];
            && Registered(r, i)
            && r.timers[i] == t.(active := r.now < t.timeToFire)
            && FiringTimes(r.log, i) == FiringTimes(b.log, i) + if t.timeToFire <= r.now then [t.timeToFire] else []
  {
    hide ClockRun, CanRun, LeftAlone, NotNamed, WellBehaved, FiringTimes;
    FiresLater(b, i);
    OneShotRuns(b, cb, i, es, b.timers[i], FiringTimes(b.log, i));
  }

  lemma FiresLater<D>(b: Board<D>, i: nat)
    requires Valid(b) && Registered(b, i)
    ensures b.timers[i].active ==> b.now < b.timers[i].timeToFire && b.timers[i].period >= 1
  {
  }

  // ------------------------------------------------------------ continuous timers

  /** The moments d, d + p, d + 2p, ... up to end. */
  function Occurrences(d: nat, p: nat, end: nat): seq<nat>
    requires p >= 1
    decreases end + 1 - d
  {
    if end < d then [] else [d] + Occurrences(d + p, p, end)
  }

  /** The first of them after end. */
  function NextAfter(d: nat, p: nat, end: nat): (r: nat)
    requires p >= 1
    ensures r > end && r >= d
    decreases end + 1 - d
  {
    if end < d then d else NextAfter(d + p, p, end)
  }

  lemma {:induction false} OccurrencesStep(d: nat, p: nat, end: nat)
    requires p >= 1
    ensures Occurrences(d, p, end + 1) == Occurrences(d, p, end) + if NextAfter(d, p, end) == end + 1 then [end + 1] else []
    ensures NextAfter(d, p, end + 1) == NextAfter(d, p, end) + if NextAfter(d, p, end) == end + 1 then p else 0
    decreases end + 1 - d
  {
    if d <= end {
      OccurrencesStep(d + p, p, end);
    }
  }

  /** The k-th moment is d + k * p, none is left out, and all are at most end. */
  lemma {:induction false} OccurrencesAt(d: nat, p: nat, end: nat)
    requires p >= 1
    ensures NextAfter(d, p, end) == d + |Occurrences(d, p, end)| * p
    ensures forall k :: 0 <= k < |Occurrences(d, p, end)| ==> Occurrences(d, p, end)[k] == d + k * p <= end
    decreases end + 1 - d
  {
    if d <= end {
      OccurrencesAt(d + p, p, end);
      var rest := Occurrences(d + p, p, end);
      assert (|rest| + 1) * p == |rest| * p + p;
      forall k | 0 <= k < |rest| + 1
        ensures ([d] + rest)[k] == d + k * p <= end
      {
        if k > 0 {
          assert rest[k - 1] == d + p + (k - 1) * p;
          assert (k - 1) * p + p == k * p;
        }
      }
    }
  }

  /** Slot i holds what the continuous timer t is at the time, and has been called at the times
      before and at all moments of t that have come. */
  ghost predicate ContinuousAt<D>(b: Board<D>, i: nat, t: Timer, before: seq<nat>)
    requires t.period >= 1
  {
    && Registered(b, i) && b.timers[i] == t.(timeToFire := NextAfter(t.timeToFire, t.period, b.now))
    && FiringTimes(b.log, i) == before + Occurrences(t.timeToFire, t.period, b.now)
  }

  lemma {:induction false} ContinuousTicks<D(!new)>(b: Board<D>, cb: Callbacks<D>, i: nat, n: nat, t: Timer, before: seq<nat>)
    requires Valid(b) && b.now + n <= HORIZON && WellBehaved(cb) && LeftAlone(cb, i)
    requires t.period >= 1 && t.active && t.continuous && ContinuousAt(b, i, t, before)
    ensures ContinuousAt(ClockTicks(b, cb, n), i, t, before)
  {
    hide ClockTick, LeftAlone, FiringTimes, Sound, WellBehaved, Occurrences, NextAfter;
    if n > 0 {
      ContinuousTicks(b, cb, i, n - 1, t, before);
      TickOfOne(ClockTicks(b, cb, n - 1), cb, i);
      OccurrencesStep(t.timeToFire, t.period, b.now + n - 1);
    }
  }

  lemma {:induction false} ContinuousRuns<D(!new)>(b: Board<D>, cb: Callbacks<D>, i: nat, es: seq<Doing>, t: Timer, before: seq<nat>)
    requires Valid(b) && WellBehaved(cb) && CanRun(b, cb, es) && LeftAlone(cb, i) && NotNamed(es, i)
    requires t.period >= 1 && t.active && t.continuous && ContinuousAt(b, i, t, before)
    ensures ContinuousAt(ClockRun(b, cb, es), i, t, before)
    decreases |es|
  {
    hide Do, ClockTicks, LeftAlone, FiringTimes, Sound, WellBehaved, Occurrences, NextAfter;
    if es != [] {
      match es[0] {
        case Ticks(n) => ContinuousTicks(b, cb, i, n, t, before);
        case Make(c) => DoLeaves(b, c, i);
      }
      ContinuousRuns(ClockStep(b, cb, es[0]), cb, i, es[1..], t, before);
    }
  }

  /** A continuous timer left alone fires at its deadline and then at every period after it, and
      its next deadline is the first of these moments still to come, however the run mixes ticks
      with timer calls about other slots. */
  lemma ContinuousFiresEveryPeriod<D(!new)>(b: Board<D>, cb: Callbacks<D>, i: nat, es: seq<Doing>)
    requires Valid(b) && WellBehaved(cb) && CanRun(b, cb, es) && LeftAlone(cb, i) && NotNamed(es, i)
    requires Registered(b, i) && b.timers[i].active && b.timers[i].continuous
    ensures var r, t := ClockRun(b, cb, es), b.timers[i];
            && Registered(r, i)
            && r.timers[i] == t.(timeToFire := NextAfter(t.timeToFire, t.period, r.now))
            && FiringTimes(r.log, i) == FiringTimes(b.log, i) + Occurrences(t.timeToFire, t.period, r.now)
  {
    hide ClockRun, CanRun, LeftAlone, NotNamed, WellBehaved, FiringTimes;
    FiresLater(b, i);
    ContinuousRuns(b, cb, i, es, b.timers[i], FiringTimes(b.log, i));
  }

  // ------------------------------------------------------------ what one tick fires

  /** The callbacks that the due slots below k call for, in slot order. */
  function DueCalls(timers: seq<Timer>, due: seq<bool>, now: nat, k: nat): seq<Firing>
    requires |timers| == |due| && k <= |due|
  {
    if k == 0 then [] else DueCalls(timers, due, now, k - 1) + CallOf(timers[k - 1].funct, due[k - 1], now, k - 1)
  }

  /** The call, if any, that a slot with this handler calls for. */
  function CallOf(funct: Option<Handler>, due: bool, now: nat, slot: nat): seq<Firing> {
    if due && funct.Some? then [Firing(now, slot, funct.value)] else []
  }

  /** A timer call that gives a slot another handler, or takes it away. */
  datatype Change = Change(slot: nat, handler: Option<Handler>)

  /** What the call c, made on board b, changes about handlers: unregistering a timer that is not
      active takes its handler away, registering puts one into the free slot that is found. */
  function ChangesOf<D>(b: Board<D>, c: Command): seq<Change>
    requires Valid(b)
  {
    match c
    case Register(h, _, _, _) => if b.num >= MAX_TIMERS then [] else [Change(FreeSlot(b.timers, b.num, 1), h)]
    case Unregister(i) => if i < MAX_TIMERS && !b.timers[i].active then [Change(i, None)] else []
    case Activate(_, _, _) => []
    case Deactivate(_) => []
  }

  function ChangesOfAll<D>(b: Board<D>, cs: seq<Command>): seq<Change>
    requires Valid(b) && LegalAll(b, cs)
    decreases |cs|
  {
    if cs == [] then [] else ChangesOf(b, cs[0]) + ChangesOfAll(Do(b, cs[0]), cs[1..])
  }

  /** The board when the turn of slot k comes. */
  function AtTurn<D(!new)>(b: Board<D>, cb: Callbacks<D>, due: seq<bool>, k: nat): (r: Board<D>)
    requires Valid(b) && WellBehaved(cb) && |due| == MAX_TIMERS && k <= MAX_TIMERS
    ensures Valid(r) && r.now == b.now
  {
    if k == 0 then b
    else
      var p := AtTurn(b, cb, due, k - 1);
      if due[k - 1] && p.timers[k - 1].funct.Some? then Call(p, cb, p.timers[k - 1].funct.value, k - 1) else p
  }

  /** The changes of handlers that the callbacks before the turn of slot k have made. */
  function ChangesBefore<D(!new)>(b: Board<D>, cb: Callbacks<D>, due: seq<bool>, k: nat): seq<Change>
    requires Valid(b) && WellBehaved(cb) && |due| == MAX_TIMERS && k <= MAX_TIMERS
  {
    if k == 0 then []
    else
      var p := AtTurn(b, cb, due, k - 1);
      ChangesBefore(b, cb, due, k - 1) +
      if due[k - 1] && p.timers[k - 1].funct.Some? then
        var h := p.timers[k - 1].funct.value;
        ChangesOfAll(Entered(p, cb, h, k - 1), cb(h, k - 1, p).1)
      else []
  }

  /** The handler that a slot is left with: the last one that a change put there, or h. */
  function LeftWith(h: Option<Handler>, changes: seq<Change>, slot: nat): Option<Handler> {
    if changes == [] then h
    else
      var c := changes[|changes| - 1];
      if c.slot == slot then c.handler else LeftWith(h, changes[..|changes| - 1], slot)
  }

  lemma {:induction false} LeftWithJoin(h: Option<Handler>, a: seq<Change>, b: seq<Change>, slot: nat)
    ensures LeftWith(h, a + b, slot) == LeftWith(LeftWith(h, a, slot), b, slot)
    decreases |b|
  {
    if b == [] {
      assert a + b == a;
    } else {
      assert (a + b)[..|a + b| - 1] == a + b[..|b| - 1];
      LeftWithJoin(h, a, b[..|b| - 1], slot);
    }
  }

  lemma DoChanges<D>(b: Board<D>, c: Command, slot: nat)
    requires Valid(b) && Legal(b, c) && slot < MAX_TIMERS
    ensures Do(b, c).timers[slot].funct == LeftWith(b.timers[slot].funct, ChangesOf(b, c), slot)
  {
  }

  lemma {:induction false} DoAllChanges<D>(b: Board<D>, cs: seq<Command>, slot: nat)
    requires Valid(b) && LegalAll(b, cs) && slot < MAX_TIMERS
    ensures DoAll(b, cs).timers[slot].funct == LeftWith(b.timers[slot].funct, ChangesOfAll(b, cs), slot)
    decreases |cs|
  {
    hide Sound, LeftWith, ChangesOf, Do;
    InRange(b, slot);
    if cs == [] {
      NoChange(b.timers[slot].funct, slot);
    } else {
      DoChanges(b, cs[0], slot);
      InRange(Do(b, cs[0]), slot);
      DoAllChanges(Do(b, cs[0]), cs[1..], slot);
      LeftWithJoin(b.timers[slot].funct, ChangesOf(b, cs[0]), ChangesOfAll(Do(b, cs[0]), cs[1..]), slot);
    }
  }

  lemma NoChange(h: Option<Handler>, slot: nat)
    ensures LeftWith(h, [], slot) == h
  {
  }

  lemma CallMakesLegal<D(!new)>(b: Board<D>, cb: Callbacks<D>, h: Handler, k: nat)
    requires Valid(b) && WellBehaved(cb)
    ensures Valid(Entered(b, cb, h, k)) && LegalAll(Entered(b, cb, h, k), cb(h, k, b).1)
  {
  }

  /** A slot's handler at its turn is the one the changes before have left it with. */
  lemma {:induction false} TurnChanges<D(!new)>(b: Board<D>, cb: Callbacks<D>, due: seq<bool>, k: nat, slot: nat)
    requires Valid(b) && WellBehaved(cb) && |due| == MAX_TIMERS && k <= MAX_TIMERS && slot < MAX_TIMERS
    ensures |b.timers| == |AtTurn(b, cb, due, k).timers| == MAX_TIMERS
    ensures AtTurn(b, cb, due, k).timers[slot].funct == LeftWith(b.timers[slot].funct, ChangesBefore(b, cb, due, k), slot)
  {
    hide Sound, LeftWith, WellBehaved, ChangesOfAll, DoAll;
    InRange(b, slot);
    InRange(AtTurn(b, cb, due, k), slot);
    if k == 0 {
      NoChange(b.timers[slot].funct, slot);
    } else {
      var p := AtTurn(b, cb, due, k - 1);
      InRange(p, k - 1);
      TurnChanges(b, cb, due, k - 1, slot);
      if due[k - 1] && p.timers[k - 1].funct.Some? {
        var h := p.timers[k - 1].funct.value;
        CallMakesLegal(p, cb, h, k - 1);
        DoAllChanges(Entered(p, cb, h, k - 1), cb(h, k - 1, p).1, slot);
        LeftWithJoin(b.timers[slot].funct, ChangesBefore(b, cb, due, k - 1),
                     ChangesOfAll(Entered(p, cb, h, k - 1), cb(h, k - 1, p).1), slot);
      } else {
        assert ChangesBefore(b, cb, due, k) == ChangesBefore(b, cb, due, k - 1);
      }
    }
  }

  /** Calling the due slots from some turn on is calling them all. */
  lemma {:induction false} TurnsReachEnd<D(!new)>(b: Board<D>, cb: Callbacks<D>, due: seq<bool>, k: nat)
    requires Valid(b) && WellBehaved(cb) && |due| == MAX_TIMERS && k <= MAX_TIMERS
    ensures CallDue(AtTurn(b, cb, due, k), cb, due, k) == CallDue(b, cb, due, 0)
  {
    hide Sound, WellBehaved, Call;
    if k > 0 {
      InRange(AtTurn(b, cb, due, k - 1), k - 1);
      TurnsReachEnd(b, cb, due, k - 1);
    }
  }

  /** Every slot below k that was due had, at its turn, the handler it was due with. */
  ghost predicate KeptHandlers<D(!new)>(b: Board<D>, cb: Callbacks<D>, due: seq<bool>, k: nat)
    requires Valid(b) && WellBehaved(cb) && |due| == MAX_TIMERS && k <= MAX_TIMERS
  {
    forall j :: 0 <= j < k && due[j] ==>
      LeftWith(b.timers[j].funct, ChangesBefore(b, cb, due, j), j) == b.timers[j].funct
  }

  /** All firings are of slots below k. */
  ghost predicate Below(calls: seq<Firing>, k: nat) {
    forall i :: 0 <= i < |calls| ==> calls[i].slot < k
  }

  /** What has been called before the turn of slot k: it is what the slots called for exactly if
      they all kept their handlers. */
  lemma {:induction false} TurnsFire<D(!new)>(b: Board<D>, cb: Callbacks<D>, due: seq<bool>, k: nat) returns (calls: seq<Firing>)
    requires Valid(b) && WellBehaved(cb) && |due| == MAX_TIMERS && k <= MAX_TIMERS
    ensures |b.timers| == MAX_TIMERS
    ensures AtTurn(b, cb, due, k).log == b.log + calls && Below(calls, k) && Below(DueCalls(b.timers, due, b.now, k), k)
    ensures calls == DueCalls(b.timers, due, b.now, k) <==> KeptHandlers(b, cb, due, k)
  {
    hide Sound, WellBehaved, Call, LeftWith, ChangesBefore;
    InRange(b, 0);
    if k == 0 {
      calls := [];
    } else {
      var before := TurnsFire(b, cb, due, k - 1);
      var p := AtTurn(b, cb, due, k - 1);
      TurnChanges(b, cb, due, k - 1, k - 1);
      var made := CallOf(p.timers[k - 1].funct, due[k - 1], b.now, k - 1);
      calls := before + made;
      assert AtTurn(b, cb, due, k).log == p.log + made;
      var wanted := CallOf(b.timers[k - 1].funct, due[k - 1], b.now, k - 1);
      LastCalls(before, made, DueCalls(b.timers, due, b.now, k - 1), wanted, k - 1);
      KeptOneMore(b, cb, due, k - 1);
    }
  }

  lemma LastCalls(a: seq<Firing>, x: seq<Firing>, b: seq<Firing>, y: seq<Firing>, k: nat)
    requires Below(a, k) && Below(b, k) && |x| <= 1 && |y| <= 1
    requires (x != [] ==> x[0].slot == k) && (y != [] ==> y[0].slot == k)
    ensures a + x == b + y <==> a == b && x == y
    ensures Below(a + x, k + 1) && Below(b + y, k + 1)
  {
    if a + x == b + y {
      assert |a| + |x| == |b| + |y|;
      if x != [] {
        assert (a + x)[|a|] == x[0];
        assert (b + y)[|a|] == x[0];
      }
      if y != [] {
        assert (b + y)[|b|] == y[0];
        assert (a + x)[|b|] == y[0];
      }
      assert a == (a + x)[..|a|] && b == (b + y)[..|b|];
    }
  }

  lemma KeptOneMore<D(!new)>(b: Board<D>, cb: Callbacks<D>, due: seq<bool>, k: nat)
    requires Valid(b) && WellBehaved(cb) && |due| == MAX_TIMERS && k < MAX_TIMERS
    ensures |b.timers| == MAX_TIMERS
    ensures KeptHandlers(b, cb, due, k + 1) <==>
            KeptHandlers(b, cb, due, k) && (due[k] ==> LeftWith(b.timers[k].funct, ChangesBefore(b, cb, due, k), k) == b.timers[k].funct)
  {
    hide LeftWith, ChangesBefore, WellBehaved;
  }

  /** A tick calls the handlers of exactly the timers whose deadline has come, once each and in
      slot order, if and only if each of them is left, by the timer calls that the callbacks
      before its turn make, with the handler it had: it is not unregistered, or the last to be
      registered in its slot is the same handler. */
  lemma TickFiresTheDue<D(!new)>(b: Board<D>, cb: Callbacks<D>)
    requires Valid(b) && b.now < HORIZON && WellBehaved(cb)
    ensures var b1 := Rearmed(b.(now := b.now + 1));
            var due := DueFlags(b.timers, b.num, b.now + 1);
            && |due| == |b.timers| == MAX_TIMERS
            && (ClockTick(b, cb).log == b.log + DueCalls(b.timers, due, b.now + 1, MAX_TIMERS)
                <==> forall j :: 0 <= j < MAX_TIMERS && due[j] ==>
                       LeftWith(b.timers[j].funct, ChangesBefore(b1, cb, due, j), j) == b.timers[j].funct)
  {
    hide WellBehaved, LeftWith, ChangesBefore, Call, Sound, AtTurn;
    InRange(b, 0);
    RearmKeepsHandlers(b);
    var b1 := Rearmed(b.(now := b.now + 1));
    var due := DueFlags(b.timers, b.num, b.now + 1);
    TurnsReachEnd(b1, cb, due, MAX_TIMERS);
    var calls := TurnsFire(b1, cb, due, MAX_TIMERS);
    SameCalls(b1.timers, b.timers, due, b.now + 1, MAX_TIMERS);
    SameFront(b.log, calls, DueCalls(b.timers, due, b.now + 1, MAX_TIMERS));
  }

  lemma SameFront(a: seq<Firing>, x: seq<Firing>, y: seq<Firing>)
    ensures a + x == a + y <==> x == y
  {
    assert x == (a + x)[|a|..] && y == (a + y)[|a|..];
  }

  lemma RearmKeepsHandlers<D>(b: Board<D>)
    requires Valid(b) && b.now < HORIZON
    ensures Sound(b.(now := b.now + 1), b.now + 1)
    ensures var b1 := Rearmed(b.(now := b.now + 1));
            |b1.timers| == |b.timers| && forall j :: 0 <= j < |b.timers| ==> b1.timers[j].funct == b.timers[j].funct
  {
  }

  /** Rearming changes no handler. */
  lemma {:induction false} SameCalls(timers: seq<Timer>, timers': seq<Timer>, due: seq<bool>, now: nat, k: nat)
    requires |timers| == |timers'| == |due| && k <= |due|
    requires forall j :: 0 <= j < |timers| ==> timers[j].funct == timers'[j].funct
    ensures DueCalls(timers, due, now, k) == DueCalls(timers', due, now, k)
  {
    if k > 0 {
      SameCalls(timers, timers', due, now, k - 1);
    }
  }

  /** Where it is not: a callback that unregisters a timer due at the same moment and registers
      another one in the freed slot makes the new handler run at once, 100 ticks before its
      deadline. */
  lemma ReusedSlotFiresEarly() returns (b: Board<()>, cb: Callbacks<()>)
    ensures Valid(b) && b.now < HORIZON && WellBehaved(cb) && b.log == []
    ensures var r := ClockTick(b, cb);
            && r.log == [Firing(10, 1, 1), Firing(10, 2, 7)]
            && r.timers[2] == Timer(true, 100, 110, true, false, Some(7))
  {
    var heartbeat := Timer(true, NULL_TIMER_INTERVAL, NULL_TIMER_INTERVAL, true, true, None);
    var unused := Timer(false, 0, 0, false, false, None);
    var first := Timer(true, 10, 10, true, false, Some(1));
    var second := Timer(true, 10, 10, true, false, Some(2));
    b := Board(9, [heartbeat, first, second] + seq(61, _ => unused), 3, (), []);
    cb := (h: Handler, i: nat, b: Board<()>) =>
      if h == 1 && b.num == 3 && |b.timers| == MAX_TIMERS && b.timers[1].inUse && b.timers[2].inUse && !b.timers[2].active
      then ((), [Unregister(2), Register(Some(7), 100, false, true)])
      else ((), []);
    forall h: Handler, i: nat, b: Board<()> | Valid(b)
      ensures LegalAll(Entered(b, cb, h, i), cb(h, i, b).1)
    {
      var cs := cb(h, i, b).1;
      if cs != [] {
        assert cs[1..] == [Register(Some(7), 100, false, true)];
        assert cs[1..][1..] == [];
      }
    }
    RunsTheReplacement(b, cb);
  }

  lemma RunsTheReplacement(b: Board<()>, cb: Callbacks<()>)
    requires Valid(b) && WellBehaved(cb) && b.now == 9 && b.num == 3 && b.log == []
    requires b.timers[0] == Timer(true, NULL_TIMER_INTERVAL, NULL_TIMER_INTERVAL, true, true, None)
    requires b.timers[1] == Timer(true, 10, 10, true, false, Some(1))
    requires b.timers[2] == Timer(true, 10, 10, true, false, Some(2))
    requires forall h: Handler, i: nat, b: Board<()> ::
      cb(h, i, b) == if h == 1 && b.num == 3 && |b.timers| == MAX_TIMERS && b.timers[1].inUse && b.timers[2].inUse && !b.timers[2].active
                     then ((), [Unregister(2), Register(Some(7), 100, false, true)])
                     else ((), [])
    ensures var r := ClockTick(b, cb);
            && r.log == [Firing(10, 1, 1), Firing(10, 2, 7)]
            && r.timers[2] == Timer(true, 100, 110, true, false, Some(7))
  {
    var b1 := Rearmed(b.(now := 10));
    var due := DueFlags(b.timers, 3, 10);
    var cs := [Unregister(2), Register(Some(7), 100, false, true)];
    assert cb(1, 1, b1).1 == cs && cs[1..] == [cs[1]] && cs[1..][1..] == [];
    var b2 := Call(b1, cb, 1, 1);
    assert b2 == Do(Do(Entered(b1, cb, 1, 1), cs[0]), cs[1]);
    assert b2.timers[2] == Timer(true, 100, 110, true, false, Some(7));
    var b3 := Call(b2, cb, 7, 2);
    NothingDue(b3, cb, due, 3);
    assert CallDue(b2, cb, due, 2) == b3;
    assert CallDue(b1, cb, due, 1) == b3;
  }
}
