/** Any number of threads that each lock a set of distinct budget slots, in the order that
    lockBudgetSlots (internal/server/bandwidth.go) gives it, and unlock them in reverse. */
module SlotLocking {

  /** The slots copied and sorted by id. */
  function Sort(ids: seq<nat>): seq<nat> {
    if ids == [] then [] else Insert(ids[0], Sort(ids[1..]))
  }

  function Insert(x: nat, sorted: seq<nat>): seq<nat> {
    if sorted == [] || x <= sorted[0] then [x] + sorted else [sorted[0]] + Insert(x, sorted[1..])
  }

  ghost predicate Ascending(ids: seq<nat>) {
    forall i, j :: 0 <= i < j < |ids| ==> ids[i] < ids[j]
  }

  ghost predicate Distinct(ids: seq<nat>) {
    forall i, j :: 0 <= i < j < |ids| ==> ids[i] != ids[j]
  }

  lemma {:induction false} InsertPermutes(x: nat, sorted: seq<nat>)
    ensures multiset(Insert(x, sorted)) == multiset(sorted) + multiset{x}
  {
    if sorted != [] {
      assert sorted == [sorted[0]] + sorted[1..];
      InsertPermutes(x, sorted[1..]);
    }
  }

  lemma {:induction false} InsertMembers(x: nat, sorted: seq<nat>)
    ensures forall y :: y in Insert(x, sorted) ==> y == x || y in sorted
  {
    if sorted != [] {
      InsertMembers(x, sorted[1..]);
    }
  }

  lemma ConsAscends(x: nat, s: seq<nat>)
    requires Ascending(s) && forall y :: y in s ==> x < y
    ensures Ascending([x] + s)
  {
    assert forall i :: 0 <= i < |s| ==> s[i] in s;
  }

  lemma {:induction false} InsertKeeps(x: nat, sorted: seq<nat>)
    requires Ascending(sorted) && x !in sorted
    ensures Ascending(Insert(x, sorted))
  {
    if sorted != [] {
      InsertMembers(x, sorted[1..]);
      assert sorted[0] != x && forall y :: y in sorted[1..] ==> sorted[0] < y;
      if x < sorted[0] {
        assert forall y :: y in sorted ==> x < y;
        ConsAscends(x, sorted);
      } else {
        var rest := Insert(x, sorted[1..]);
        InsertKeeps(x, sorted[1..]);
        assert forall y :: y in rest ==> sorted[0] < y;
        ConsAscends(sorted[0], rest);
      }
    }
  }

  /** Sorting distinct ids puts them in strictly ascending order and loses none. */
  lemma {:induction false} SortAscends(ids: seq<nat>)
    requires Distinct(ids)
    ensures Ascending(Sort(ids)) && multiset(Sort(ids)) == multiset(ids)
  {
    if ids != [] {
      SortAscends(ids[1..]);
      assert ids == [ids[0]] + ids[1..];
      assert ids[0] !in ids[1..] && (ids[0] in Sort(ids[1..]) <==> ids[0] in multiset(Sort(ids[1..])));
      InsertKeeps(ids[0], Sort(ids[1..]));
      InsertPermutes(ids[0], Sort(ids[1..]));
    }
  }

  // ---------- threads ----------

  /** `held` counts the locks of `order` that the thread holds: those before index `held`. */
  datatype Thread = Thread(order: seq<nat>, held: nat, releasing: bool)

  predicate Finished(t: Thread) {
    t.releasing && t.held == 0
  }

  predicate Holds(t: Thread, id: nat) {
    exists k :: 0 <= k < t.held && k < |t.order| && t.order[k] == id
  }

  /** A thread can always start to release when it holds all, and always unlock; it can take its
      next lock when no thread holds it. */
  ghost predicate CanStep(s: seq<Thread>, i: nat) {
    && i < |s| && !Finished(s[i])
    && (s[i].releasing || s[i].held >= |s[i].order|
        || forall j :: 0 <= j < |s| ==> !Holds(s[j], s[i].order[s[i].held]))
  }

  function Step(s: seq<Thread>, i: nat): seq<Thread>
    requires i < |s| && !Finished(s[i])
  {
    var t := s[i];
    s[i := if t.releasing then t.(held := t.held - 1)
           else if t.held >= |t.order| then t.(releasing := true)
           else t.(held := t.held + 1)]
  }

  function Start(requests: seq<seq<nat>>): seq<Thread> {
    seq(|requests|, i requires 0 <= i < |requests| => Thread(Sort(requests[i]), 0, false))
  }

  ghost predicate Inv(s: seq<Thread>) {
    && (forall i :: 0 <= i < |s| ==> Ascending(s[i].order) && s[i].held <= |s[i].order|)
    && (forall i, j, id :: 0 <= i < j < |s| && Holds(s[i], id) ==> !Holds(s[j], id))
  }

  lemma StartInv(requests: seq<seq<nat>>)
    requires forall i :: 0 <= i < |requests| ==> Distinct(requests[i])
    ensures Inv(Start(requests))
  {
    forall i | 0 <= i < |requests| ensures Ascending(Start(requests)[i].order) {
      SortAscends(requests[i]);
    }
  }

  lemma StepKeepsInv(s: seq<Thread>, i: nat)
    requires Inv(s) && CanStep(s, i)
    ensures Inv(Step(s, i))
  {
    var s' := Step(s, i);
    forall j, id | 0 <= j < |s| && Holds(s'[j], id)
      ensures Holds(s[j], id) || (j == i && !s[i].releasing && s[i].held < |s[i].order| && id == s[i].order[s[i].held])
    {
      var k :| 0 <= k < s'[j].held && k < |s'[j].order| && s'[j].order[k] == id;
      assert s'[j].order == s[j].order;
      if k < s[j].held {
        assert Holds(s[j], id);
      }
    }
  }

  // ---------- no deadlock ----------

  /** Follows the chain of "waits for a lock held by" from an unfinished thread.  The ids waited for
      grow along the chain, so it ends, and it ends at a thread that can step. */
  lemma {:induction false} SomeoneCanStep(s: seq<Thread>, i: nat, bound: nat) returns (k: nat)
    requires Inv(s) && i < |s| && !Finished(s[i])
    requires forall j, n :: 0 <= j < |s| && 0 <= n < |s[j].order| ==> s[j].order[n] < bound
    ensures CanStep(s, k)
    decreases if s[i].releasing || s[i].held >= |s[i].order| then 0 else 1 + bound - s[i].order[s[i].held]
  {
    if CanStep(s, i) {
      k := i;
    } else {
      var wanted := s[i].order[s[i].held];
      var j :| 0 <= j < |s| && Holds(s[j], wanted);
      var n :| 0 <= n < s[j].held && n < |s[j].order| && s[j].order[n] == wanted;
      k := SomeoneCanStep(s, j, bound);
    }
  }

  lemma Bounded(s: seq<Thread>) returns (bound: nat)
    ensures forall j, n :: 0 <= j < |s| && 0 <= n < |s[j].order| ==> s[j].order[n] < bound
  {
    bound := 0;
    for j := 0 to |s|
      invariant forall i, n :: 0 <= i < j && 0 <= n < |s[i].order| ==> s[i].order[n] < bound
    {
      for m := 0 to |s[j].order|
        invariant forall i, n :: 0 <= i < j && 0 <= n < |s[i].order| ==> s[i].order[n] < bound
        invariant forall n :: 0 <= n < m ==> s[j].order[n] < bound
      {
        if s[j].order[m] >= bound {
          bound := s[j].order[m] + 1;
        }
      }
    }
  }

  // ---------- runs ----------

  ghost predicate Legal(s: seq<Thread>, schedule: seq<nat>)
    decreases |schedule|
  {
    schedule == [] || (CanStep(s, schedule[0]) && Legal(Step(s, schedule[0]), schedule[1..]))
  }

  ghost function Run(s: seq<Thread>, schedule: seq<nat>): seq<Thread>
    requires Legal(s, schedule)
    decreases |schedule|
  {
    if schedule == [] then s else Run(Step(s, schedule[0]), schedule[1..])
  }

  /** Steps a thread still has to take, and all threads together. */
  function Left(t: Thread): int {
    if t.releasing then t.held else 2 * |t.order| - t.held + 1
  }

  function Work(s: seq<Thread>): int {
    if s == [] then 0 else Left(s[0]) + Work(s[1..])
  }

  lemma WorkUpdate(s: seq<Thread>, i: nat, t: Thread)
    requires i < |s|
    ensures Work(s[i := t]) == Work(s) - Left(s[i]) + Left(t)
  {
    if i == 0 {
      assert s[0 := t][1..] == s[1..];
    } else {
      assert s[i := t][1..] == s[1..][i - 1 := t];
      WorkUpdate(s[1..], i - 1, t);
    }
  }

  lemma WorkZero(s: seq<Thread>)
    requires Inv(s)
    ensures Work(s) >= 0
    ensures (forall i :: 0 <= i < |s| ==> Finished(s[i])) ==> Work(s) == 0
  {
    if s != [] {
      var rest := s[1..];
      assert forall i :: 0 <= i < |rest| ==> rest[i] == s[i + 1];
      WorkZero(rest);
    }
  }

  lemma {:induction false} RunKeepsInv(s: seq<Thread>, schedule: seq<nat>)
    requires Inv(s) && Legal(s, schedule)
    ensures Inv(Run(s, schedule)) && Work(Run(s, schedule)) == Work(s) - |schedule|
    decreases |schedule|
  {
    if schedule != [] {
      var i := schedule[0];
      StepKeepsInv(s, i);
      WorkUpdate(s, i, Step(s, i)[i]);
      RunKeepsInv(Step(s, i), schedule[1..]);
    }
  }

  /** For any number of threads with any sets of distinct slots and any schedule: as long as a thread
      is unfinished, some thread can step. */
  lemma {:induction false} NeverDeadlocked(requests: seq<seq<nat>>, schedule: seq<nat>)
    requires forall i :: 0 <= i < |requests| ==> Distinct(requests[i])
    requires Legal(Start(requests), schedule)
    ensures var s := Run(Start(requests), schedule);
            (exists i :: 0 <= i < |s| && !Finished(s[i])) ==> exists k :: CanStep(s, k)
  {
    StartInv(requests);
    RunKeepsInv(Start(requests), schedule);
    var s := Run(Start(requests), schedule);
    if i :| 0 <= i < |s| && !Finished(s[i]) {
      var bound := Bounded(s);
      var k := SomeoneCanStep(s, i, bound);
    }
  }

  /** No schedule goes on for ever, and one that cannot be continued has finished every thread. */
  lemma {:induction false} EveryScheduleFinishes(requests: seq<seq<nat>>, schedule: seq<nat>)
    requires forall i :: 0 <= i < |requests| ==> Distinct(requests[i])
    requires Legal(Start(requests), schedule)
    ensures |schedule| <= Work(Start(requests))
    ensures var s := Run(Start(requests), schedule);
            (forall k :: !CanStep(s, k)) ==>
                (forall i :: 0 <= i < |s| ==> Finished(s[i])) && |schedule| == Work(Start(requests))
  {
    StartInv(requests);
    RunKeepsInv(Start(requests), schedule);
    NeverDeadlocked(requests, schedule);
    WorkZero(Run(Start(requests), schedule));
  }

  /** Without the sorting there is a deadlock: two threads, two slots, opposite orders. */
  lemma UnsortedOrdersCanDeadlock()
    ensures var s := [Thread([1, 2], 0, false), Thread([2, 1], 0, false)];
            Legal(s, [0, 1]) && !Finished(Run(s, [0, 1])[0]) && forall k :: !CanStep(Run(s, [0, 1]), k)
  {
    var s := [Thread([1, 2], 0, false), Thread([2, 1], 0, false)];
    assert CanStep(s, 0);
    var s1 := Step(s, 0);
    assert s1 == [Thread([1, 2], 1, false), Thread([2, 1], 0, false)];
    assert CanStep(s1, 1);
    var s2 := Step(s1, 1);
    assert s2 == [Thread([1, 2], 1, false), Thread([2, 1], 1, false)];
    assert [0, 1][1..] == [1] && [1][1..] == [];
    assert Run(s, [0, 1]) == s2;
    assert s2[0].order[0] == 1 && s2[1].order[0] == 2;
    assert Holds(s2[0], 1) && Holds(s2[1], 2);
  }
}
