/** The intrusive lists of lib.c.  A process and a list head both start with a next pointer, so
    all pointers are one array indexed by node: the 20 process slots, then the three heads. */
module Queues {
  import opened Common
  import opened Scheduler

  const NULL := -1
  const HEADS := 3
  const READY_LIST := 0
  const WAIT_LIST := 1
  const KILL_LIST := 2

  function Head(h: nat): nat {
    NUM_PROC + h
  }

  /** What a pointer to the member of s at position k holds. */
  function PointerTo(s: seq<nat>, k: int): int {
    if 0 <= k < |s| then s[k] else NULL
  }

  /** Following next from head h visits exactly s and ends, and the tail is its last member. */
  ghost predicate IsList(next: seq<int>, tail: seq<int>, h: nat, s: seq<nat>) {
    && |next| == NUM_PROC + HEADS && |tail| == HEADS && h < HEADS
    && Slots(s, NUM_PROC) && NoDup(s)
    && next[Head(h)] == PointerTo(s, 0) && tail[h] == PointerTo(s, |s| - 1)
    && forall k :: 0 <= k < |s| ==> next[s[k]] == PointerTo(s, k + 1)
  }

  /** The three lists share no member. */
  ghost predicate AllLists(next: seq<int>, tail: seq<int>, lists: seq<seq<nat>>) {
    && |lists| == HEADS
    && (forall h :: 0 <= h < HEADS ==> IsList(next, tail, h, lists[h]))
    && (forall g, h, k :: 0 <= g < HEADS && 0 <= h < HEADS && g != h && 0 <= k < |lists[g]| ==> lists[g][k] !in lists[h])
  }

  ghost predicate Unlisted(lists: seq<seq<nat>>, i: nat) {
    forall h :: 0 <= h < |lists| ==> i !in lists[h]
  }

  /** A list whose nodes keep their pointers is still that list. */
  lemma ListKept(next: seq<int>, tail: seq<int>, next': seq<int>, tail': seq<int>, h: nat, s: seq<nat>)
    requires IsList(next, tail, h, s) && |next'| == |next| && |tail'| == |tail|
    requires next'[Head(h)] == next[Head(h)] && tail'[h] == tail[h]
    requires forall k :: 0 <= k < |s| ==> next'[s[k]] == next[s[k]]
    ensures IsList(next', tail', h, s)
  {
  }

  lemma ListAppended(next: seq<int>, tail: seq<int>, h: nat, s: seq<nat>, item: nat)
    requires IsList(next, tail, h, s) && item < NUM_PROC && item !in s
    ensures s == [] <==> next[Head(h)] == NULL
    ensures s != [] ==> 0 <= tail[h] < NUM_PROC
    ensures var next1 := next[item := NULL];
            IsList(if s == [] then next1[Head(h) := item] else next1[tail[h] := item], tail[h := item], h, s + [item])
  {
    var s' := s + [item];
    assert s'[|s|] == item;
    if s != [] {
      assert tail[h] == s[|s| - 1];
    }
  }

  /** The node before position k: the head itself, used as a node, or the member before. */
  function Before(h: nat, s: seq<nat>, k: nat): nat
    requires k <= |s|
  {
    if k == 0 then Head(h) else s[k - 1]
  }

  lemma WithoutFacts(s: seq<nat>, k: nat)
    requires k < |s| && Slots(s, NUM_PROC) && NoDup(s)
    ensures var r := Without(s, k);
            |r| == |s| - 1 && Slots(r, NUM_PROC) && NoDup(r)
            && forall j :: 0 <= j < |r| ==> r[j] == (if j < k then s[j] else s[j + 1])
  {
  }

  lemma WithoutPointers(s: seq<nat>, k: nat, j: int)
    requires k < |s| && -1 <= j < |s|
    ensures j < k ==> PointerTo(Without(s, k), j) == PointerTo(s, j)
    ensures k <= j ==> PointerTo(Without(s, k), j) == PointerTo(s, j + 1)
  {
  }

  /** Cutting position k out of the list, as remove_list does with the node before it. */
  lemma ListCut(next: seq<int>, tail: seq<int>, h: nat, s: seq<nat>, k: nat)
    requires IsList(next, tail, h, s) && k < |s|
    ensures var next' := next[Before(h, s, k) := next[s[k]]];
            var tail' := if next'[Head(h)] == NULL then tail[h := NULL]
                         else if next[s[k]] == NULL then tail[h := Before(h, s, k)] else tail;
            IsList(next', tail', h, Without(s, k))
  {
    hide Without, NoDup;
    var r := Without(s, k);
    var next' := next[Before(h, s, k) := next[s[k]]];
    WithoutFacts(s, k);
    WithoutPointers(s, k, 0);
    assert next[s[k]] == PointerTo(s, k + 1);
    CutHead(next, tail, h, s, k);
    CutMembers(next, tail, h, s, k);
    CutLast(next, tail, h, s, k);
  }

  lemma CutHead(next: seq<int>, tail: seq<int>, h: nat, s: seq<nat>, k: nat)
    requires IsList(next, tail, h, s) && k < |s|
    ensures next[Before(h, s, k) := next[s[k]]][Head(h)] == PointerTo(Without(s, k), 0)
  {
  }

  lemma CutMembers(next: seq<int>, tail: seq<int>, h: nat, s: seq<nat>, k: nat)
    requires IsList(next, tail, h, s) && k < |s|
    ensures Slots(Without(s, k), NUM_PROC)
    ensures var r := Without(s, k);
            forall j :: 0 <= j < |r| ==> next[Before(h, s, k) := next[s[k]]][r[j]] == PointerTo(r, j + 1)
  {
    WithoutFacts(s, k);
    var r := Without(s, k);
    var next' := next[Before(h, s, k) := next[s[k]]];
    hide Without;
    forall j | 0 <= j < |r|
      ensures next'[r[j]] == PointerTo(r, j + 1)
    {
      CutMember(next, tail, h, s, k, j);
    }
  }

  lemma CutMember(next: seq<int>, tail: seq<int>, h: nat, s: seq<nat>, k: nat, j: nat)
    requires IsList(next, tail, h, s) && k < |s| && j < |s| - 1
    ensures |Without(s, k)| == |s| - 1 && Without(s, k)[j] < |next|
    ensures next[Before(h, s, k) := next[s[k]]][Without(s, k)[j]] == PointerTo(Without(s, k), j + 1)
  {
    WithoutFacts(s, k);
    WithoutPointers(s, k, j + 1);
    hide Without, PointerTo;
    var i := if j < k then j else j + 1;
    assert next[s[i]] == PointerTo(s, i + 1) && next[s[k]] == PointerTo(s, k + 1);
  }

  lemma CutLast(next: seq<int>, tail: seq<int>, h: nat, s: seq<nat>, k: nat)
    requires IsList(next, tail, h, s) && k < |s|
    ensures next[s[k]] == PointerTo(s, k + 1)
    ensures |s| == 1 <==> PointerTo(Without(s, k), 0) == NULL
    ensures var r := Without(s, k);
            PointerTo(r, |r| - 1) == if |s| == 1 then NULL else if k + 1 == |s| then Before(h, s, k) else tail[h]
  {
    hide IsList, Without, NoDup;
    ListSays(next, tail, h, s, k);
    WithoutFacts(s, k);
  }

  lemma ListSays(next: seq<int>, tail: seq<int>, h: nat, s: seq<nat>, k: nat)
    requires IsList(next, tail, h, s) && k < |s|
    ensures s[k] < NUM_PROC <= |next| && next[s[k]] == PointerTo(s, k + 1) && h < |tail| && tail[h] == s[|s| - 1]
    ensures Slots(s, NUM_PROC) && NoDup(s)
  {
  }

  /** Changing the pointers of one list, and of nodes in no list, leaves the others alone. */
  lemma ListsUpdated(next: seq<int>, tail: seq<int>, next': seq<int>, tail': seq<int>, lists: seq<seq<nat>>, h: nat, s': seq<nat>)
    requires |next| == |next'| == NUM_PROC + HEADS && |tail| == |tail'| == |lists| == HEADS
    requires AllLists(next, tail, lists) && h < HEADS && IsList(next', tail', h, s')
    requires forall g :: 0 <= g < HEADS && g != h ==> next'[Head(g)] == next[Head(g)] && tail'[g] == tail[g]
    requires forall i :: 0 <= i < NUM_PROC && next'[i] != next[i] ==> i in lists[h] || Unlisted(lists, i)
    requires forall i :: i in s' ==> i in lists[h] || Unlisted(lists, i)
    ensures AllLists(next', tail', lists[h := s'])
  {
    var lists' := lists[h := s'];
    forall g | 0 <= g < HEADS
      ensures IsList(next', tail', g, lists'[g])
    {
      if g != h {
        ListKept(next, tail, next', tail', g, lists[g]);
      }
    }
    assert forall k :: 0 <= k < |s'| ==> s'[k] in s';
    OthersApart(lists, h, s');
  }

  lemma OthersApart(lists: seq<seq<nat>>, h: nat, s': seq<nat>)
    requires |lists| == HEADS && h < HEADS
    requires forall g, j, k :: 0 <= g < HEADS && 0 <= j < HEADS && g != j && 0 <= k < |lists[g]| ==> lists[g][k] !in lists[j]
    requires forall i :: i in s' ==> i in lists[h] || Unlisted(lists, i)
    ensures var lists' := lists[h := s'];
            forall g, j, k :: 0 <= g < HEADS && 0 <= j < HEADS && g != j && 0 <= k < |lists'[g]| ==> lists'[g][k] !in lists'[j]
  {
    var lists' := lists[h := s'];
    forall g, j, k | 0 <= g < HEADS && 0 <= j < HEADS && g != j && 0 <= k < |lists'[g]|
      ensures lists'[g][k] !in lists'[j]
    {
      var x := lists'[g][k];
      assert x in lists'[g];
    }
  }

  // ---------------------------------------------------------------- the two updates of lib.c

  ghost predicate Sizes(next: seq<int>, tail: seq<int>, lists: seq<seq<nat>>) {
    |next| == NUM_PROC + HEADS && |tail| == HEADS && |lists| == HEADS
  }

  function AppendNext(next: seq<int>, tail: seq<int>, h: nat, item: nat): seq<int>
    requires |next| == NUM_PROC + HEADS && |tail| == HEADS && h < HEADS && item < NUM_PROC
    requires next[Head(h)] != NULL ==> 0 <= tail[h] < NUM_PROC
  {
    if next[Head(h)] == NULL then next[item := NULL][Head(h) := item] else next[item := NULL][tail[h] := item]
  }

  lemma AppendStep(next: seq<int>, tail: seq<int>, lists: seq<seq<nat>>, h: nat, item: nat)
    requires AllLists(next, tail, lists) && h < HEADS && item < NUM_PROC && Unlisted(lists, item)
    ensures Sizes(next, tail, lists) && (next[Head(h)] != NULL ==> 0 <= tail[h] < NUM_PROC)
    ensures AllLists(AppendNext(next, tail, h, item), tail[h := item], lists[h := lists[h] + [item]])
  {
    hide NoDup, Slots;
    var s := lists[h];
    assert IsList(next, tail, h, s);
    ListAppended(next, tail, h, s, item);
    assert s != [] ==> tail[h] == s[|s| - 1];
    ListsUpdated(next, tail, AppendNext(next, tail, h, item), tail[h := item], lists, h, s + [item]);
  }

  function CutNext(next: seq<int>, prev: nat, node: nat): seq<int>
    requires prev < |next| && node < |next|
  {
    next[prev := next[node]]
  }

  function CutTail(next: seq<int>, tail: seq<int>, h: nat, prev: nat, node: nat): seq<int>
    requires |next| == NUM_PROC + HEADS && |tail| == HEADS && h < HEADS && node < |next|
  {
    if next[Head(h)] == NULL then tail[h := NULL] else if next[node] == NULL then tail[h := prev] else tail
  }

  lemma ListAt(next: seq<int>, tail: seq<int>, lists: seq<seq<nat>>, h: nat)
    requires AllLists(next, tail, lists) && |lists| == HEADS && h < HEADS
    ensures IsList(next, tail, h, lists[h]) && Sizes(next, tail, lists) && Slots(lists[h], NUM_PROC) && NoDup(lists[h])
  {
  }

  lemma NodeBounds(s: seq<nat>, h: nat, k: nat)
    requires Slots(s, NUM_PROC) && NoDup(s) && h < HEADS && k < |s|
    ensures s[k] < NUM_PROC && Before(h, s, k) < NUM_PROC + HEADS && Before(h, s, k) != s[k]
    ensures forall g :: 0 <= g < HEADS && g != h ==> Before(h, s, k) != Head(g)
    ensures Before(h, s, k) < NUM_PROC ==> Before(h, s, k) in s
    ensures forall i :: i in Without(s, k) ==> i in s
  {
  }

  lemma CutStep(next: seq<int>, tail: seq<int>, lists: seq<seq<nat>>, h: nat, k: nat)
    requires AllLists(next, tail, lists) && |lists| == HEADS && h < HEADS && k < |lists[h]|
    ensures Sizes(next, tail, lists)
    ensures var prev, node := Before(h, lists[h], k), lists[h][k];
            prev < NUM_PROC + HEADS && node < NUM_PROC && prev != node
            && AllLists(CutNext(next, prev, node), CutTail(CutNext(next, prev, node), tail, h, prev, node),
                        lists[h := Without(lists[h], k)])
  {
    hide NoDup, Slots, AllLists;
    var s := lists[h];
    ListAt(next, tail, lists, h);
    NodeBounds(s, h, k);
    ListCut(next, tail, h, s, k);
    var prev, node := Before(h, s, k), s[k];
    var next' := CutNext(next, prev, node);
    ListsUpdated(next, tail, next', CutTail(next', tail, h, prev, node), lists, h, Without(s, k));
  }
}
