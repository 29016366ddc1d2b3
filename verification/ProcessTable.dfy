/** process.c over lib.c: the process table updated in place.  Every operation is proved to do
    what its counterpart in Scheduler says. */
module ProcessTable {
  import opened Common
  import opened Scheduler
  import opened Queues

  class Processes {
    const procs: array<Proc>
    const next: array<int>
    const tail: array<int>
    var current: nat
    var pidNum: int
    ghost var lists: seq<seq<nat>>
    ghost var log: seq<nat>

    ghost predicate Valid()
      reads this, procs, next, tail
    {
      && procs.Length == NUM_PROC && next.Length == NUM_PROC + HEADS && tail.Length == HEADS && next != tail
      && current < NUM_PROC
      && AllLists(next[..], tail[..], lists)
    }

    /** The table as a value. */
    ghost function Abs(): Table
      reads this, procs, next, tail
      requires Valid()
    {
      Table(procs[..], current, lists[READY_LIST], lists[WAIT_LIST], lists[KILL_LIST], pidNum, log)
    }

    // ----------------------------------------------------------------------------- lib.c

    method AppendListTail(h: nat, item: nat)
      requires Valid() && h < HEADS && item < NUM_PROC && Unlisted(lists, item)
      modifies next, tail, this`lists
      ensures Valid() && lists == old(lists)[h := old(lists)[h] + [item]]
    {
      hide AllLists, Unlisted;
      ghost var next0, tail0 := next[..], tail[..];
      AppendStep(next0, tail0, lists, h, item);
      next[item] := NULL;
      if next[Head(h)] == NULL {
        next[Head(h)] := item;
      } else {
        next[tail[h]] := item;
      }
      tail[h] := item;
      lists := lists[h := lists[h] + [item]];
      assert next[..] == AppendNext(next0, tail0, h, item) && tail[..] == tail0[h := item];
    }

    method RemoveListHead(h: nat) returns (item: int)
      requires Valid() && h < HEADS
      modifies next, tail, this`lists
      ensures Valid()
      ensures old(lists)[h] == [] ==> item == NULL && lists == old(lists)
      ensures old(lists)[h] != [] ==> item == old(lists)[h][0] && lists == old(lists)[h := old(lists)[h][1..]]
    {
      hide AllLists, Slots;
      ghost var next0, tail0 := next[..], tail[..];
      HeadOf(next0, tail0, lists, h);
      if next[Head(h)] == NULL {
        return NULL;
      }
      item := next[Head(h)];
      CutStep(next0, tail0, lists, h, 0);
      next[Head(h)] := next[item];
      if next[Head(h)] == NULL {
        tail[h] := NULL;
      }
      assert next[..] == CutNext(next0, Head(h), item) && tail[..] == CutTail(next[..], tail0, h, Head(h), item);
      lists := lists[h := Without(lists[h], 0)];
      assert lists[h] == old(lists)[h][1..];
    }

    /** The search of remove_list: the first member of list h with the reason, and what points
        at it. */
    method FindFirst(h: nat, wait: int) returns (prev: int, node: int, ghost k: nat)
      requires Valid() && h < HEADS
      ensures |lists| == HEADS && Slots(lists[h], NUM_PROC)
      ensures k == FirstMatch(procs[..], lists[h], wait) && prev == Before(h, lists[h], k)
      ensures if k < |lists[h]| then node == lists[h][k] else node == NULL
    {
      hide AllLists, FirstMatch, Before, PointerTo;
      HeadOf(next[..], tail[..], lists, h);
      MembersOf(next[..], tail[..], lists, h);
      ghost var s := lists[h];
      node, prev, k := next[Head(h)], Head(h), 0;
      Along(h, s, 0);
      while node != NULL
        invariant k <= |s| && node == PointerTo(s, k) && prev == Before(h, s, k)
        invariant forall i :: 0 <= i < k ==> procs[..][s[i]].wait != wait
        decreases |s| - k
      {
        Along(h, s, k);
        if procs[node].wait == wait {
          break;
        }
        prev := node;
        node := next[node];
        k := k + 1;
      }
      Along(h, s, k);
      FirstMatchIs(procs[..], s, wait, k);
    }

    method RemoveList(h: nat, wait: int) returns (item: int)
      requires Valid() && h < HEADS
      modifies next, tail, this`lists
      ensures Valid() && Slots(old(lists)[h], NUM_PROC) && (item != NULL ==> 0 <= item < NUM_PROC && Unlisted(lists, item))
      ensures var s := old(lists)[h];
              var k := FirstMatch(procs[..], s, wait);
              if k < |s| then item == s[k] && lists == old(lists)[h := Without(s, k)]
              else item == NULL && lists == old(lists)
    {
      hide AllLists, Unlisted, FirstMatch;
      var prev, node;
      ghost var k;
      prev, node, k := FindFirst(h, wait);
      item := NULL;
      if node != NULL {
        item := Unlink(h, k, prev, node);
      }
    }

    method Unlink(h: nat, ghost k: nat, prev: nat, node: nat) returns (item: int)
      requires Valid() && h < HEADS && |lists| == HEADS && k < |lists[h]| && prev == Before(h, lists[h], k)
      requires node == lists[h][k]
      modifies next, tail, this`lists
      ensures Unlisted(lists, node)
      ensures Valid() && item == node && lists == old(lists)[h := Without(old(lists)[h], k)]
    {
      hide AllLists, Slots;
      ghost var next0, tail0 := next[..], tail[..];
      CutStep(next0, tail0, lists, h, k);
      CutUnlisted(next0, tail0, lists, h, k);
      next[prev] := next[node];
      if next[Head(h)] == NULL {
        tail[h] := NULL;
      } else if next[node] == NULL {
        tail[h] := prev;
      }
      item := node;
      assert next[..] == CutNext(next0, prev, node) && tail[..] == CutTail(next[..], tail0, h, prev, node);
      lists := lists[h := Without(lists[h], k)];
    }

    // ------------------------------------------------------------------------- process.c

    method Schedule()
      requires Valid() && CanSchedule(Abs())
      modifies this, procs, next, tail
      ensures Valid() && Abs() == Scheduler.Schedule(old(Abs()))
    {
      hide AllLists, Slots;
      ListSizes(next[..], tail[..], lists);
      var c: int := IDLE;
      if next[Head(READY_LIST)] != NULL {
        c := RemoveListHead(READY_LIST);
      }
      ListBounds(old(next[..]), old(tail[..]), old(lists), READY_LIST);
      ListSizes(next[..], tail[..], lists);
      procs[c] := procs[c].(state := RUNNING);
      current := c;
      log := log + [c];
      assert procs[..] == old(procs[..])[c := old(procs[c]).(state := RUNNING)];
    }

    method Yield()
      requires Valid() && Inv(Abs())
      modifies this, procs, next, tail
      ensures Valid() && (old(Abs()).ready == [] || CanSchedule(old(Abs())))
      ensures Abs() == Scheduler.Yield(old(Abs()))
    {
      hide AllLists, Scheduler.Schedule, Holds, PidsOk;
      ListSizes(next[..], tail[..], lists);
      YieldKeepsInv(Abs());
      if next[Head(READY_LIST)] == NULL {
        return;
      }
      CurrentUnlisted(Abs(), lists);
      ReadyNonEmpty(Abs());
      procs[current] := procs[current].(state := READY);
      assert procs[..] == old(procs[..])[current := old(procs[current]).(state := READY)];
      if procs[current].pid != 0 {
        AppendListTail(READY_LIST, current);
      }
      Schedule();
    }

    method Sleep(wait: int)
      requires Valid() && Inv(Abs()) && current != IDLE
      modifies this, procs, next, tail
      ensures Valid() && CanSchedule(old(Abs())) && Abs() == Scheduler.Sleep(old(Abs()), wait)
    {
      hide AllLists, Slots, Scheduler.Schedule, Holds, PidsOk;
      ListSizes(next[..], tail[..], lists);
      SleepKeepsInv(Abs(), wait);
      CurrentUnlisted(Abs(), lists);
      procs[current] := procs[current].(state := SLEEP, wait := wait);
      assert procs[..] == old(procs[..])[current := old(procs[current]).(state := SLEEP, wait := wait)];
      AppendListTail(WAIT_LIST, current);
      Schedule();
    }

    /** remove_list until it finds nobody is a filter. */
    method WakeUp(wait: int)
      requires Valid()
      modifies procs, next, tail, this`lists
      ensures Valid() && Slots(old(Abs()).waiting, NUM_PROC) && Abs() == Scheduler.WakeUp(old(Abs()), wait)
    {
      hide AllLists, Slots, SetStates, Matching, Others, FirstMatch, IsList, Unlisted;
      ListSizes(next[..], tail[..], lists);
      ghost var procs0, lists0 := procs[..], lists;
      ghost var woken: seq<nat> := [];
      ListBounds(next[..], tail[..], lists, WAIT_LIST);
      NobodyWoken(procs0);
      Removed(procs0, procs[..], lists[WAIT_LIST], wait);
      var item := RemoveList(WAIT_LIST, wait);
      while item != NULL
        invariant Valid() && |lists| == |lists0| == HEADS && |procs0| == NUM_PROC
        invariant Slots(lists0[WAIT_LIST], NUM_PROC) && Slots(lists[WAIT_LIST], NUM_PROC)
        invariant item != NULL ==> 0 <= item < NUM_PROC && Unlisted(lists, item)
        invariant procs[..] == SetStates(procs0, woken, READY)
        invariant lists[READY_LIST] == lists0[READY_LIST] + woken && lists[KILL_LIST] == lists0[KILL_LIST]
        invariant Matching(procs0, lists0[WAIT_LIST], wait) ==
                  if item == NULL then woken else woken + [item] + Matching(procs0, lists[WAIT_LIST], wait)
        invariant Others(procs0, lists0[WAIT_LIST], wait) ==
                  if item == NULL then lists[WAIT_LIST] else Others(procs0, lists[WAIT_LIST], wait)
        decreases |lists[WAIT_LIST]| + if item == NULL then 0 else 1
      {
        OneMoreWoken(procs0, woken, item);
        procs[item] := procs[item].(state := READY);
        AppendListTail(READY_LIST, item);
        woken := woken + [item];
        Removed(procs0, procs[..], lists[WAIT_LIST], wait);
        item := RemoveList(WAIT_LIST, wait);
      }
    }

    method Exit()
      requires Valid() && Inv(Abs()) && current != IDLE
      modifies this, procs, next, tail
      ensures Valid() && CanSchedule(old(Abs())) && old(procs[current]).pid != 0
      ensures Slots(old(lists[WAIT_LIST]), NUM_PROC)
      ensures Abs() == Scheduler.Exit(old(Abs()))
    {
      hide AllLists, Slots, Scheduler.Schedule, Scheduler.WakeUp, Holds, PidsOk;
      ListSizes(next[..], tail[..], lists);
      ExitEffect(Abs());
      DyingParked(Abs());
      CurrentUnlisted(Abs(), lists);
      procs[current] := procs[current].(state := KILLED, wait := procs[current].pid);
      assert procs[..] == old(procs[..])[current := old(procs[current]).(state := KILLED, wait := old(procs[current]).pid)];
      AppendListTail(KILL_LIST, current);
      assert Abs() == Dying(old(Abs()));
      DyingCanWake(Abs());
      WakeUp(-3);
      Schedule();
    }

    /** One turn of the loop in wait: reap a killed process with that pid, or sleep (then slot
        is NULL).  What the process was is returned, for its memory to be given back. */
    method WaitTurn(pid: int) returns (slot: int, was: Proc)
      requires Valid() && Inv(Abs()) && current != IDLE
      modifies this, procs, next, tail
      ensures Valid() && CanSchedule(old(Abs())) && Slots(old(Abs()).killed, NUM_PROC)
      ensures if Reapable(old(Abs()), pid).Some?
              then slot == Reapable(old(Abs()), pid).value && was == old(procs[..])[slot] && Abs() == Scheduler.Reap(old(Abs()), pid)
              else slot == NULL && Abs() == Scheduler.Sleep(old(Abs()), -3)
    {
      hide AllLists, Slots, Scheduler.Sleep, Holds, PidsOk;
      ListSizes(next[..], tail[..], lists);
      ListBounds(next[..], tail[..], lists, KILL_LIST);
      SleepKeepsInv(Abs(), -3);
      slot, was := NULL, NO_PROC;
      if next[Head(KILL_LIST)] != NULL {
        slot := RemoveList(KILL_LIST, pid);
        if slot != NULL {
          was := procs[slot];
          procs[slot] := NO_PROC;
          assert procs[..] == old(procs[..])[slot := NO_PROC];
          return;
        }
        assert lists == old(lists);
      }
      Sleep(-3);
    }

    method FindUnused() returns (slot: int)
      requires Valid()
      ensures var i := FirstUnused(procs[..], 0); slot == if i < NUM_PROC then i else NULL
    {
      slot := NULL;
      var i := 0;
      while i < NUM_PROC
        invariant 0 <= i <= NUM_PROC && FirstUnused(procs[..], 0) == FirstUnused(procs[..], i) && slot == NULL
      {
        if procs[i].state == UNUSED {
          slot := i;
          break;
        }
        i := i + 1;
      }
    }

    /** The process table's part of fork; the new stack and address space come from Memory. */
    method Fork(stack: nat, pageMap: nat) returns (pid: int)
      requires Valid() && Inv(Abs()) && FirstUnused(procs[..], 0) < NUM_PROC
      modifies this, procs, next, tail
      ensures Valid() && Abs() == Scheduler.Fork(old(Abs()), stack, pageMap) && pid == old(pidNum)
    {
      hide AllLists, Slots, Holds, PidsOk, FirstUnused;
      ListSizes(next[..], tail[..], lists);
      UnusedUnlisted(Abs(), lists);
      var i := FindUnused();
      procs[i] := procs[i].(state := INIT, pid := pidNum);
      pidNum := pidNum + 1;
      procs[i] := procs[i].(stack := stack, pageMap := pageMap);
      procs[i] := procs[i].(state := READY);
      assert procs[..] == old(procs[..])[i := old(procs[i]).(state := READY, pid := old(pidNum), stack := stack, pageMap := pageMap)];
      AppendListTail(READY_LIST, i);
      pid := procs[i].pid;
    }

    /** init_process: slot 0 becomes the running idle process, slot 1 the first user process. */
    constructor (idleMap: nat, stack: nat, userMap: nat)
      ensures Valid() && fresh(procs) && fresh(next) && fresh(tail)
      ensures Abs() == BootTable(idleMap, stack, userMap)
      ensures procs[0] == Proc(RUNNING, 0, 0, 0, idleMap) && procs[1] == Proc(READY, 1, 0, stack, userMap)
      ensures (forall i :: 2 <= i < NUM_PROC ==> procs[i].state == UNUSED) && pidNum == 2 && current == 0
      ensures lists == [[1], [], []]
    {
      hide AllLists, Unlisted;
      procs := new Proc[NUM_PROC](_ => NO_PROC);
      next := new int[NUM_PROC + HEADS](_ => NULL);
      tail := new int[HEADS](_ => NULL);
      current := IDLE;
      pidNum := 1;
      lists := [[], [], []];
      log := [];
      new;
      NoLists(next[..], tail[..], lists);
      procs[IDLE] := procs[IDLE].(state := RUNNING, pid := 0, pageMap := idleMap);
      procs[1] := procs[1].(state := INIT, pid := pidNum);
      pidNum := pidNum + 1;
      procs[1] := procs[1].(stack := stack, pageMap := userMap);
      procs[1] := procs[1].(state := READY);
      AppendListTail(READY_LIST, 1);
    }
  }

  lemma NoLists(next: seq<int>, tail: seq<int>, lists: seq<seq<nat>>)
    requires Sizes(next, tail, lists) && lists == [[], [], []]
    requires forall h :: 0 <= h < HEADS ==> next[Head(h)] == NULL && tail[h] == NULL
    ensures AllLists(next, tail, lists) && Unlisted(lists, 1)
  {
  }

  lemma ListSizes(next: seq<int>, tail: seq<int>, lists: seq<seq<nat>>)
    requires AllLists(next, tail, lists)
    ensures Sizes(next, tail, lists)
    ensures forall h :: 0 <= h < HEADS ==> (next[Head(h)] == NULL <==> lists[h] == [])
    ensures forall h :: 0 <= h < HEADS ==> Slots(lists[h], NUM_PROC)
  {
    assert IsList(next, tail, 0, lists[0]) && IsList(next, tail, 1, lists[1]) && IsList(next, tail, 2, lists[2]);
  }

  lemma ListBounds(next: seq<int>, tail: seq<int>, lists: seq<seq<nat>>, h: nat)
    requires AllLists(next, tail, lists) && h < HEADS
    ensures |lists| == HEADS && Slots(lists[h], NUM_PROC)
    ensures forall k :: 0 <= k < |lists[h]| ==> lists[h][k] < NUM_PROC
  {
    assert IsList(next, tail, h, lists[h]);
  }

  /** Only ready, sleeping and killed processes are in a list. */
  lemma CurrentUnlisted(t: Table, lists: seq<seq<nat>>)
    requires Inv(t) && lists == [t.ready, t.waiting, t.killed]
    ensures Unlisted(lists, t.current)
  {
    QueueFacts(t);
  }

  lemma UnusedUnlisted(t: Table, lists: seq<seq<nat>>)
    requires Inv(t) && lists == [t.ready, t.waiting, t.killed] && FirstUnused(t.procs, 0) < NUM_PROC
    ensures Unlisted(lists, FirstUnused(t.procs, 0))
  {
    QueueFacts(t);
  }

  lemma ReadyNonEmpty(t: Table)
    requires Inv(t) && t.ready != []
    ensures 1 <= t.ready[0] < NUM_PROC
  {
    QueueFacts(t);
  }

  lemma DyingCanWake(t: Table)
    requires Parked(t) && t.current != IDLE && t.procs[t.current].state == KILLED
    ensures Slots(t.waiting, NUM_PROC) && CanSchedule(Scheduler.WakeUp(t, -3))
  {
    hide Holds, PidsOk, Scheduler.WakeUp;
    WakeUpKeepsCore(t, -3);
    WakeUpEffect(t, -3);
    DyingCanSchedule(Scheduler.WakeUp(t, -3));
  }

  lemma NobodyWoken(procs: seq<Proc>)
    ensures SetStates(procs, [], READY) == procs
  {
  }

  lemma OneMoreWoken(procs: seq<Proc>, woken: seq<nat>, item: nat)
    requires item < |procs|
    ensures SetStates(procs, woken + [item], READY) ==
            SetStates(procs, woken, READY)[item := SetStates(procs, woken, READY)[item].(state := READY)]
  {
    assert forall i :: i in woken + [item] <==> i in woken || i == item;
  }

  /** What one remove_list takes from a list is the first member of the filtered list; states
      do not matter, only what the processes wait for. */
  lemma {:induction false} Removed(procs0: seq<Proc>, procs: seq<Proc>, q: seq<nat>, w: int)
    requires |procs| == |procs0| && Slots(q, |procs|)
    requires forall i :: 0 <= i < |procs| ==> procs[i].wait == procs0[i].wait
    ensures var k := FirstMatch(procs, q, w);
            if k < |q| then Slots(Without(q, k), |procs|)
                            && Matching(procs0, q, w) == [q[k]] + Matching(procs0, Without(q, k), w)
                            && Others(procs0, q, w) == Others(procs0, Without(q, k), w)
            else Matching(procs0, q, w) == [] && Others(procs0, q, w) == q
  {
    hide Matching, Others, Without;
    FilterHead(procs0, q, w);
    if q != [] {
      if procs[q[0]].wait == w {
        assert Without(q, 0) == q[1..] by { WithoutFirst(q, 0); }
      } else {
        Removed(procs0, procs, q[1..], w);
        var k := FirstMatch(procs, q[1..], w);
        if k < |q[1..]| {
          WithoutFirst(q, k + 1);
          FilterSkips(procs0, q[0], Without(q[1..], k), w);
        }
      }
    }
  }

  lemma WithoutFirst(q: seq<nat>, k: nat)
    requires k < |q|
    ensures Without(q, k) == if k == 0 then q[1..] else [q[0]] + Without(q[1..], k - 1)
  {
  }

  lemma FilterHead(procs: seq<Proc>, q: seq<nat>, w: int)
    requires Slots(q, |procs|)
    ensures q == [] ==> Matching(procs, q, w) == [] && Others(procs, q, w) == []
    ensures q != [] && procs[q[0]].wait == w ==>
              Matching(procs, q, w) == [q[0]] + Matching(procs, q[1..], w) && Others(procs, q, w) == Others(procs, q[1..], w)
    ensures q != [] && procs[q[0]].wait != w ==>
              Matching(procs, q, w) == Matching(procs, q[1..], w) && Others(procs, q, w) == [q[0]] + Others(procs, q[1..], w)
  {
  }

  lemma FilterSkips(procs: seq<Proc>, x: nat, q: seq<nat>, w: int)
    requires x < |procs| && Slots(q, |procs|) && procs[x].wait != w
    ensures Slots([x] + q, |procs|)
    ensures Matching(procs, [x] + q, w) == Matching(procs, q, w)
    ensures Others(procs, [x] + q, w) == [x] + Others(procs, q, w)
  {
    assert ([x] + q)[1..] == q;
  }

  lemma CutUnlisted(next: seq<int>, tail: seq<int>, lists: seq<seq<nat>>, h: nat, k: nat)
    requires AllLists(next, tail, lists) && |lists| == HEADS && h < HEADS && k < |lists[h]|
    ensures Unlisted(lists[h := Without(lists[h], k)], lists[h][k])
  {
    assert IsList(next, tail, h, lists[h]);
  }

  lemma HeadOf(next: seq<int>, tail: seq<int>, lists: seq<seq<nat>>, h: nat)
    requires AllLists(next, tail, lists) && h < HEADS
    ensures Sizes(next, tail, lists) && next[Head(h)] == PointerTo(lists[h], 0)
  {
    assert IsList(next, tail, h, lists[h]);
  }

  lemma Along(h: nat, s: seq<nat>, k: nat)
    requires k <= |s|
    ensures PointerTo(s, k) == if k < |s| then s[k] else NULL
    ensures k < |s| ==> PointerTo(s, k) != NULL && Before(h, s, k + 1) == s[k]
    ensures Before(h, s, 0) == Head(h)
  {
  }

  lemma MembersOf(next: seq<int>, tail: seq<int>, lists: seq<seq<nat>>, h: nat)
    requires AllLists(next, tail, lists) && h < HEADS
    ensures Sizes(next, tail, lists) && Slots(lists[h], NUM_PROC)
    ensures forall k :: 0 <= k < |lists[h]| ==> lists[h][k] < NUM_PROC && next[lists[h][k]] == PointerTo(lists[h], k + 1)
  {
    assert IsList(next, tail, h, lists[h]);
  }

  lemma {:induction false} FirstMatchIs(procs: seq<Proc>, q: seq<nat>, w: int, k: nat)
    requires Slots(q, |procs|) && k <= |q|
    requires forall i :: 0 <= i < k ==> procs[q[i]].wait != w
    requires k < |q| ==> procs[q[k]].wait == w
    ensures k == FirstMatch(procs, q, w)
  {
  }
}
