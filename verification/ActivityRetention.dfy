/** Pruning the activity log (ActivityStore.Prune): for each severity, rows older than a cutoff go,
    except the newest ones that a minimum count protects. */
module ActivityRetention {
  import opened Durations
  import opened Activity

  datatype Rule = Rule(days: int, minCount: int)
  datatype Policy = Policy(debug: Rule, info: Rule, warning: Rule, error: Rule)

  const SEVERITIES: seq<Severity> := [Debug, Info, Warning, Error]

  function RuleFor(p: Policy, s: Severity): Rule {
    match s
    case Debug => p.debug
    case Info => p.info
    case Warning => p.warning
    case Error => p.error
  }

  predicate RuleOk(r: Rule) {
    1 <= r.days <= 3650 && 0 <= r.minCount <= 100000
  }

  predicate PolicyOk(p: Policy) {
    forall s: Severity :: RuleOk(RuleFor(p, s))
  }

  /** A policy is refused if and only if one of its four rules is out of bounds. */
  lemma PolicyBounds(p: Policy)
    ensures !PolicyOk(p) <==> exists rule :: rule in {p.debug, p.info, p.warning, p.error}
                                && !(1 <= rule.days <= 3650 && 0 <= rule.minCount <= 100_000)
  {
    assert PolicyOk(p) ==> RuleOk(RuleFor(p, Debug)) && RuleOk(RuleFor(p, Info))
                           && RuleOk(RuleFor(p, Warning)) && RuleOk(RuleFor(p, Error));
  }

  function Cutoff(now: int, r: Rule): int {
    now - r.days * DAY
  }

  // ---------- the newest rows of a severity ----------

  /** ORDER BY occurred_at_ns DESC, id DESC */
  predicate Newer(a: Event, b: Event) {
    a.occurred > b.occurred || (a.occurred == b.occurred && a.id > b.id)
  }

  predicate NewestFirst(s: seq<Event>) {
    forall i, j :: 0 <= i < j < |s| ==> Newer(s[i], s[j])
  }

  function OfSeverity(t: seq<Event>, s: Severity): seq<Event> {
    if t == [] then []
    else if t[0].severity == s then [t[0]] + OfSeverity(t[1..], s)
    else OfSeverity(t[1..], s)
  }

  function Insert(e: Event, s: seq<Event>): seq<Event> {
    if s == [] || Newer(e, s[0]) then [e] + s else [s[0]] + Insert(e, s[1..])
  }

  function Sorted(t: seq<Event>): seq<Event> {
    if t == [] then [] else Insert(t[0], Sorted(t[1..]))
  }

  function Newest(t: seq<Event>, s: Severity, n: nat): seq<Event> {
    var all := Sorted(OfSeverity(t, s));
    if |all| > n then all[..n] else all
  }

  /** How many rows of its severity are newer than e. */
  ghost function Rank(t: seq<Event>, e: Event): nat {
    |Above(t, e)|
  }

  ghost function Above(t: seq<Event>, e: Event): set<Event> {
    set x | x in t && x.severity == e.severity && (x.occurred > e.occurred || (x.occurred == e.occurred && x.id > e.id))
  }

  lemma {:induction false} OfSeverityMembers(t: seq<Event>, s: Severity)
    ensures forall e :: e in OfSeverity(t, s) <==> e in t && e.severity == s
  {
    if t != [] {
      OfSeverityMembers(t[1..], s);
      assert forall e :: e in t <==> e == t[0] || e in t[1..];
    }
  }

  lemma {:induction false} OfSeverityFacts(t: seq<Event>, s: Severity)
    requires Ascending(t)
    ensures Ascending(OfSeverity(t, s))
    ensures forall e :: e in OfSeverity(t, s) <==> e in t && e.severity == s
  {
    OfSeverityMembers(t, s);
    if t != [] {
      var rest := OfSeverity(t[1..], s);
      OfSeverityMembers(t[1..], s);
      OfSeverityFacts(t[1..], s);
      assert forall i :: 0 <= i < |rest| ==> rest[i] in t[1..];
    }
  }

  lemma {:induction false} InsertFacts(e: Event, s: seq<Event>)
    requires NewestFirst(s) && forall x :: x in s ==> x.id != e.id
    ensures NewestFirst(Insert(e, s)) && |Insert(e, s)| == |s| + 1
    ensures forall x :: x in Insert(e, s) <==> x == e || x in s
  {
    if s != [] && !Newer(e, s[0]) {
      InsertFacts(e, s[1..]);
      var rest := Insert(e, s[1..]);
      assert forall x :: x in s <==> x == s[0] || x in s[1..];
      assert s[0].id != e.id && Newer(s[0], e);
      assert forall x :: x in s[1..] ==> Newer(s[0], x);
      assert forall x :: x in rest ==> Newer(s[0], x);
    }
  }

  lemma {:induction false} SortedFacts(t: seq<Event>)
    requires Ascending(t)
    ensures NewestFirst(Sorted(t)) && |Sorted(t)| == |t|
    ensures forall e :: e in Sorted(t) <==> e in t
  {
    if t != [] {
      SortedFacts(t[1..]);
      assert forall e :: e in t <==> e == t[0] || e in t[1..];
      assert forall e :: e in t[1..] ==> t[0].id < e.id;
      InsertFacts(t[0], Sorted(t[1..]));
    }
  }

  /** A newest-first sequence is determined by its elements. */
  lemma {:induction false} NewestFirstUnique(a: seq<Event>, b: seq<Event>)
    requires NewestFirst(a) && NewestFirst(b)
    requires forall e :: e in a <==> e in b
    ensures a == b
  {
    if a != [] {
      HasElement(a);
    }
    if b != [] {
      HasElement(b);
    }
    if a != [] && b != [] {
      assert a[0] in b && b[0] in a;
      assert a[0] == b[0];
      forall e ensures e in a[1..] <==> e in b[1..] {
        InTail(a, e);
        InTail(b, e);
      }
      NewestFirstUnique(a[1..], b[1..]);
      assert a == [a[0]] + a[1..] && b == [b[0]] + b[1..];
    }
  }

  lemma InTail(s: seq<Event>, e: Event)
    requires NewestFirst(s) && s != []
    ensures e in s[1..] <==> e in s && e != s[0]
  {
    assert forall x :: x in s <==> x == s[0] || x in s[1..];
  }

  // ---------- who is protected ----------

  function Elements(s: seq<Event>): set<Event> {
    set x | x in s
  }

  lemma {:induction false} ElementsCounted(s: seq<Event>)
    requires NewestFirst(s)
    ensures |Elements(s)| == |s|
  {
    if s != [] {
      ElementsCounted(s[1..]);
      InTail(s, s[0]);
      hide NewestFirst;
      assert s == [s[0]] + s[1..];
      assert Elements(s) == Elements(s[1..]) + {s[0]};
    }
  }

  lemma FrontIsNewer(s: seq<Event>, i: nat, x: Event)
    requires NewestFirst(s) && i < |s|
    ensures x in s[..i] <==> x in s && Newer(x, s[i])
  {
    if x in s && Newer(x, s[i]) {
      var j :| 0 <= j < |s| && s[j] == x;
      assert s[..i][j] == x;
    }
  }

  /** In the sorted rows of a severity each row stands at the index that is its rank. */
  lemma RankIsPosition(t: seq<Event>, s: Severity, i: nat)
    requires Ascending(t) && i < |Sorted(OfSeverity(t, s))|
    ensures Rank(t, Sorted(OfSeverity(t, s))[i]) == i
  {
    var all := Sorted(OfSeverity(t, s));
    OfSeverityFacts(t, s);
    SortedFacts(OfSeverity(t, s));
    ElementsCounted(all[..i]);
    hide Sorted, OfSeverity, NewestFirst, Newer, Ascending;
    var e, front := all[i], Elements(all[..i]);
    assert e in all;
    forall x ensures x in Above(t, e) <==> x in front {
      FrontIsNewer(all, i, x);
    }
    assert Above(t, e) == front;
  }

  /** The rows picked by ORDER BY .. LIMIT n are those with fewer than n newer rows of their severity. */
  lemma NewestIffRank(t: seq<Event>, e: Event, n: nat)
    requires Ascending(t) && e in t
    ensures e in Newest(t, e.severity, n) <==> Rank(t, e) < n
  {
    var all := Sorted(OfSeverity(t, e.severity));
    OfSeverityFacts(t, e.severity);
    SortedFacts(OfSeverity(t, e.severity));
    var i :| 0 <= i < |all| && all[i] == e;
    RankIsPosition(t, e.severity, i);
    hide Sorted, OfSeverity, Rank;
    if |all| > n && i < n {
      assert all[..n][i] == e;
    }
  }

  // ---------- deleting ----------

  function Ids(s: seq<Event>): set<nat> {
    set e | e in s :: e.id
  }

  predicate Goes(e: Event, s: Severity, cutoff: int, safe: set<nat>) {
    e.severity == s && e.occurred < cutoff && e.id !in safe
  }

  function Delete(t: seq<Event>, s: Severity, cutoff: int, safe: set<nat>): seq<Event> {
    if t == [] then []
    else if Goes(t[0], s, cutoff, safe) then Delete(t[1..], s, cutoff, safe)
    else [t[0]] + Delete(t[1..], s, cutoff, safe)
  }

  /** The two DELETE statements of Prune. */
  function PruneOne(t: seq<Event>, s: Severity, now: int, rule: Rule): seq<Event>
    requires RuleOk(rule)
  {
    if rule.minCount == 0 then Delete(t, s, Cutoff(now, rule), {})
    else Delete(t, s, Cutoff(now, rule), Ids(Newest(t, s, rule.minCount)))
  }

  function PruneEach(t: seq<Event>, severities: seq<Severity>, now: int, policy: Policy): seq<Event>
    requires PolicyOk(policy)
  {
    if severities == [] then t
    else
      var n := |severities| - 1;
      PruneOne(PruneEach(t, severities[..n], now, policy), severities[n], now, RuleFor(policy, severities[n]))
  }

  function Pruned(t: seq<Event>, now: int, policy: Policy): seq<Event>
    requires PolicyOk(policy)
  {
    PruneEach(t, SEVERITIES, now, policy)
  }

  lemma {:induction false} DeleteMembers(t: seq<Event>, s: Severity, cutoff: int, safe: set<nat>)
    ensures forall e :: e in Delete(t, s, cutoff, safe) <==> e in t && !Goes(e, s, cutoff, safe)
  {
    if t != [] {
      DeleteMembers(t[1..], s, cutoff, safe);
      assert forall e :: e in t <==> e == t[0] || e in t[1..];
    }
  }

  /** Deleting keeps the order of what is left. */
  lemma {:induction false} DeleteAscends(t: seq<Event>, s: Severity, cutoff: int, safe: set<nat>)
    requires Ascending(t)
    ensures Ascending(Delete(t, s, cutoff, safe))
  {
    if t != [] {
      DeleteAscends(t[1..], s, cutoff, safe);
      DeleteMembers(t[1..], s, cutoff, safe);
      assert forall e :: e in t[1..] ==> t[0].id < e.id;
    }
  }

  lemma {:induction false} DeleteNewestFirst(t: seq<Event>, s: Severity, cutoff: int, safe: set<nat>)
    requires NewestFirst(t)
    ensures NewestFirst(Delete(t, s, cutoff, safe))
  {
    if t != [] {
      DeleteNewestFirst(t[1..], s, cutoff, safe);
      DeleteMembers(t[1..], s, cutoff, safe);
      hide Newer;
      assert forall e :: e in t[1..] ==> Newer(t[0], e);
    }
  }

  function DeleteFirst(e: Event, s: Severity, cutoff: int, safe: set<nat>): seq<Event> {
    if Goes(e, s, cutoff, safe) then [] else [e]
  }

  lemma DeleteStep(t: seq<Event>, s: Severity, cutoff: int, safe: set<nat>)
    requires t != []
    ensures Delete(t, s, cutoff, safe) == DeleteFirst(t[0], s, cutoff, safe) + Delete(t[1..], s, cutoff, safe)
  {
    hide Goes;
  }

  lemma {:induction false} DeleteConcat(a: seq<Event>, b: seq<Event>, s: Severity, cutoff: int, safe: set<nat>)
    ensures Delete(a + b, s, cutoff, safe) == Delete(a, s, cutoff, safe) + Delete(b, s, cutoff, safe)
    decreases |a|, 1
  {
    if a == [] {
      assert a + b == b;
    } else {
      DeleteConcatStep(a, b, s, cutoff, safe);
    }
  }

  lemma {:induction false} DeleteConcatStep(a: seq<Event>, b: seq<Event>, s: Severity, cutoff: int, safe: set<nat>)
    requires a != []
    ensures Delete(a + b, s, cutoff, safe) == Delete(a, s, cutoff, safe) + Delete(b, s, cutoff, safe)
    decreases |a|, 0
  {
    hide Delete, DeleteFirst;
    DeleteConcat(a[1..], b, s, cutoff, safe);
    DeleteStep(a, s, cutoff, safe);
    DeleteStep(a + b, s, cutoff, safe);
    assert (a + b)[1..] == a[1..] + b;
  }

  lemma {:induction false} DeleteNothing(t: seq<Event>, s: Severity, cutoff: int, safe: set<nat>)
    requires forall e :: e in t ==> !Goes(e, s, cutoff, safe)
    ensures Delete(t, s, cutoff, safe) == t
  {
    if t != [] {
      DeleteNothing(t[1..], s, cutoff, safe);
      assert t[0] in t && t == [t[0]] + t[1..];
    }
  }

  lemma {:induction false} OtherSeverities(t: seq<Event>, s: Severity, cutoff: int, safe: set<nat>, other: Severity)
    requires other != s
    ensures OfSeverity(Delete(t, s, cutoff, safe), other) == OfSeverity(t, other)
  {
    if t != [] {
      OtherSeverities(t[1..], s, cutoff, safe, other);
    }
  }

  lemma {:induction false} DeleteShrinks(t: seq<Event>, s: Severity, cutoff: int, safe: set<nat>)
    ensures |Delete(t, s, cutoff, safe)| <= |t|
  {
    if t != [] {
      DeleteShrinks(t[1..], s, cutoff, safe);
    }
  }

  lemma PruneOneShrinks(t: seq<Event>, s: Severity, now: int, rule: Rule)
    requires RuleOk(rule)
    ensures |PruneOne(t, s, now, rule)| <= |t|
  {
    DeleteShrinks(t, s, Cutoff(now, rule), {});
    DeleteShrinks(t, s, Cutoff(now, rule), Ids(Newest(t, s, rule.minCount)));
  }

  /** Deleting and sorting commute. */
  lemma SortedDelete(t: seq<Event>, s: Severity, cutoff: int, safe: set<nat>)
    requires Ascending(t)
    ensures Sorted(OfSeverity(Delete(t, s, cutoff, safe), s)) == Delete(Sorted(OfSeverity(t, s)), s, cutoff, safe)
  {
    var left := Delete(t, s, cutoff, safe);
    var all := Sorted(OfSeverity(t, s));
    DeleteAscends(t, s, cutoff, safe);
    DeleteMembers(t, s, cutoff, safe);
    OfSeverityFacts(t, s);
    SortedFacts(OfSeverity(t, s));
    DeleteNewestFirst(all, s, cutoff, safe);
    DeleteMembers(all, s, cutoff, safe);
    OfSeverityFacts(left, s);
    SortedFacts(OfSeverity(left, s));
    hide Sorted, OfSeverity, Delete, Goes, NewestFirst, Ascending;
    NewestFirstUnique(Sorted(OfSeverity(left, s)), Delete(all, s, cutoff, safe));
  }

  /** The protected rows of a severity are the same before and after deleting the unprotected. */
  lemma DeleteKeepsNewest(t: seq<Event>, s: Severity, cutoff: int, n: nat)
    requires Ascending(t)
    ensures Newest(Delete(t, s, cutoff, Ids(Newest(t, s, n))), s, n) == Newest(t, s, n)
  {
    var safe, all, near := Ids(Newest(t, s, n)), Sorted(OfSeverity(t, s)), Newest(t, s, n);
    SortedDelete(t, s, cutoff, safe);
    var rest := all[|near|..];
    assert all == near + rest;
    hide Sorted, OfSeverity;
    DeleteConcat(near, rest, s, cutoff, safe);
    DeleteNothing(near, s, cutoff, safe);
    if |all| <= n {
      assert rest == [];
    }
  }

  /** Pruning one severity protects the same rows of every severity as before. */
  lemma PruneOneFacts(t: seq<Event>, s: Severity, now: int, policy: Policy)
    requires Ascending(t) && PolicyOk(policy)
    ensures Ascending(PruneOne(t, s, now, RuleFor(policy, s)))
    ensures forall other :: Newest(PruneOne(t, s, now, RuleFor(policy, s)), other, RuleFor(policy, other).minCount) ==
              Newest(t, other, RuleFor(policy, other).minCount)
    ensures forall e :: e in PruneOne(t, s, now, RuleFor(policy, s)) <==>
              e in t && !(e.severity == s && Expires(t, e, now, policy))
  {
    var rule := RuleFor(policy, s);
    var n := rule.minCount;
    var cutoff, safe := Cutoff(now, rule), Ids(Newest(t, s, n));
    assert n == 0 ==> safe == {};
    var left := PruneOne(t, s, now, rule);
    assert left == Delete(t, s, cutoff, safe);
    DeleteAscends(t, s, cutoff, safe);
    DeleteMembers(t, s, cutoff, safe);
    DeleteKeepsNewest(t, s, cutoff, n);
    forall other | other != s ensures OfSeverity(left, other) == OfSeverity(t, other) {
      OtherSeverities(t, s, cutoff, safe, other);
    }
  }

  /** Old enough to go, and not among the protected rows of its severity. */
  predicate Expires(t: seq<Event>, e: Event, now: int, policy: Policy)
    requires PolicyOk(policy)
  {
    var rule := RuleFor(policy, e.severity);
    e.occurred < Cutoff(now, rule) && e.id !in Ids(Newest(t, e.severity, rule.minCount))
  }

  lemma {:induction false} PruneEachFacts(t: seq<Event>, severities: seq<Severity>, now: int, policy: Policy)
    requires Ascending(t) && PolicyOk(policy)
    ensures Ascending(PruneEach(t, severities, now, policy))
    ensures forall s :: Newest(PruneEach(t, severities, now, policy), s, RuleFor(policy, s).minCount) ==
              Newest(t, s, RuleFor(policy, s).minCount)
    ensures forall e :: e in PruneEach(t, severities, now, policy) <==>
              e in t && !(e.severity in severities && Expires(t, e, now, policy))
  {
    if severities != [] {
      var n := |severities| - 1;
      var mid := PruneEach(t, severities[..n], now, policy);
      PruneEachFacts(t, severities[..n], now, policy);
      PruneOneFacts(mid, severities[n], now, policy);
      hide Newest, PruneOne;
      assert forall s :: s in severities <==> s in severities[..n] || s == severities[n];
    }
  }

  /** Older than so many days of 24 hours, with at least so many newer rows of its severity. */
  ghost predicate Dispensable(t: seq<Event>, e: Event, now: int, days: int, minCount: int) {
    e.occurred < now - days * 86_400_000_000_000 && Rank(t, e) >= minCount
  }

  /** A row is removed exactly when it is older than the days of its own severity's rule and the minimum count
      of that rule is reached by newer rows of that severity; the order of the others is kept. */
  lemma PrunedExactly(t: seq<Event>, now: int, policy: Policy)
    requires Table(t) && PolicyOk(policy)
    ensures Table(Pruned(t, now, policy))
    ensures forall e :: e in Pruned(t, now, policy) <==>
      e in t && !match e.severity
                 case Debug => Dispensable(t, e, now, policy.debug.days, policy.debug.minCount)
                 case Info => Dispensable(t, e, now, policy.info.days, policy.info.minCount)
                 case Warning => Dispensable(t, e, now, policy.warning.days, policy.warning.minCount)
                 case Error => Dispensable(t, e, now, policy.error.days, policy.error.minCount)
  {
    PrunedByRank(t, now, policy);
    hide Rank, Pruned;
  }

  lemma PrunedByRank(t: seq<Event>, now: int, policy: Policy)
    requires Table(t) && PolicyOk(policy)
    ensures Table(Pruned(t, now, policy))
    ensures forall e :: e in Pruned(t, now, policy) <==>
      e in t && !(e.occurred < Cutoff(now, RuleFor(policy, e.severity)) &&
          Rank(t, e) >= RuleFor(policy, e.severity).minCount)
  {
    PruneEachFacts(t, SEVERITIES, now, policy);
    forall e: Event | e in t ensures e.id in Ids(Newest(t, e.severity, RuleFor(policy, e.severity).minCount)) <==>
        Rank(t, e) < RuleFor(policy, e.severity).minCount {
      NewestIffRank(t, e, RuleFor(policy, e.severity).minCount);
      NewestIds(t, e, RuleFor(policy, e.severity).minCount);
    }
  }

  lemma NewestIds(t: seq<Event>, e: Event, n: nat)
    requires Ascending(t) && e in t
    ensures e.id in Ids(Newest(t, e.severity, n)) <==> e in Newest(t, e.severity, n)
  {
    OfSeverityFacts(t, e.severity);
    SortedFacts(OfSeverity(t, e.severity));
  }

  /** At least the minimum count of each severity is left, or all there were. */
  lemma MinimumSurvives(t: seq<Event>, now: int, policy: Policy, s: Severity)
    requires Table(t) && PolicyOk(policy)
    ensures var n := RuleFor(policy, s).minCount;
      |OfSeverity(Pruned(t, now, policy), s)| >= if |OfSeverity(t, s)| < n then |OfSeverity(t, s)| else n
  {
    var left := Pruned(t, now, policy);
    PruneEachFacts(t, SEVERITIES, now, policy);
    OfSeverityFacts(t, s);
    SortedFacts(OfSeverity(t, s));
    OfSeverityFacts(left, s);
    SortedFacts(OfSeverity(left, s));
  }

  /** Pruning early changes nothing: a later prune alone gives the same table. */
  lemma PruneAbsorbs(t: seq<Event>, early: int, late: int, policy: Policy)
    requires Table(t) && PolicyOk(policy) && early <= late
    ensures Pruned(Pruned(t, early, policy), late, policy) == Pruned(t, late, policy)
  {
    var mid := Pruned(t, early, policy);
    PruneEachFacts(t, SEVERITIES, early, policy);
    PruneEachFacts(mid, SEVERITIES, late, policy);
    PruneEachFacts(t, SEVERITIES, late, policy);
    hide Newest, PruneEach;
    AscendingUnique(Pruned(mid, late, policy), Pruned(t, late, policy));
  }
}
