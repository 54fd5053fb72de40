/** The activity log as an object: its query and prune operations (internal/server/activity_store.go). */
module ActivityStore {
  import opened Activity
  import opened Options
  import opened Paging = ActivityPaging
  import Retention = ActivityRetention

  datatype PruneAnswer = Deleted(count: nat) | BadPolicy | NotCommitted

  class Store {
    var events: seq<Event>

    constructor ()
      ensures events == []
    {
      events := [];
    }

    /** The events that a query asks for: past its cursor, of its scope and user, of one of its severities and
        categories if it names any, and from `from` until before `to`. */
    static predicate Wanted(q: Query, e: Event) {
      && (q.before > 0 ==> e.id < q.before) && (q.after > 0 ==> q.after < e.id)
      && (q.scope == "client" ==> q.scopeId in e.clients) && (q.scope == "tunnel" ==> q.scopeId in e.tunnels)
      && (q.scopeUser == [] || q.scopeUser == e.scopeUser)
      && (q.categories == [] || e.category in q.categories)
      && (q.severities == [] || match e.severity
                                case Debug => "debug" in q.severities
                                case Info => "info" in q.severities
                                case Warning => "warning" in q.severities
                                case Error => "error" in q.severities)
      && (q.from.Some? ==> q.from.value <= e.occurred) && (q.to.Some? ==> e.occurred < q.to.value)
    }

    static lemma WantedIffMatches(q: Query)
      ensures forall e :: Wanted(q, e) <==> Matches(q, e)
    {
    }

    /** At most as many events as asked for, 50 when the query does not say, and exactly as many if there is
        more; all of them wanted, and none that is wanted left out unless there is more. */
    static predicate Answers(p: Page, events: seq<Event>, q: Query) {
      var limit := if q.limit == 0 then 50 else q.limit;
      && |p.items| <= limit && (p.hasMore ==> |p.items| == limit)
      && (forall e :: e in p.items ==> e in events && Wanted(q, e))
      && (!p.hasMore ==> forall e :: e in events && Wanted(q, e) ==> e in p.items)
    }

    static lemma PageAnswers(events: seq<Event>, q: Query)
      requires Table(events) && Valid(q)
      ensures Answers(PageOf(events, q), events, q)
    {
      hide Matches, CutPage, Wanted;
      MatchingFacts(events, q);
      CutPageIsPage(Matching(events, q), Limit(q), q.after > 0);
      WantedIffMatches(q);
      hide Matching, Ascending;
    }

    method Query(q: Query) returns (r: Answer)
      requires Table(events)
      ensures r.Found? <==> Complaint(q).None?
      ensures r.Refused? ==> Complaint(q) == Some(r.error)
      ensures r.Found? ==> r.page == PageOf(events, q)
      ensures r.Found? ==> IsPage(r.page, Matching(events, q), Limit(q), q.after > 0)
      ensures r.Found? ==> Answers(r.page, events, q)
    {
      hide Answers, Matches, IsPage;
      var complaint := Complaint(q);
      if complaint.Some? {
        return Refused(complaint.value);
      }
      MatchingFacts(events, q);
      CutPageIsPage(Matching(events, q), Limit(q), q.after > 0);
      PageAnswers(events, q);
      hide Matching;
      var ascending := q.after > 0;
      var items := Rows(Matching(events, q), Limit(q) + 1, ascending);
      var hasMore := |items| > Limit(q);
      if hasMore {
        items := items[..Limit(q)];
      }
      if ascending {
        items := Reversed(items);
      }
      var next := 0;
      if |items| > 0 {
        next := if ascending then items[0].id else items[|items| - 1].id;
      }
      return Found(Page(items, next, hasMore, ascending));
    }

    /** One transaction deletes severity by severity; without its commit nothing changes. */
    method Prune(now: int, policy: Retention.Policy, commits: bool) returns (r: PruneAnswer)
      requires Table(events)
      modifies this
      ensures Table(events)
      ensures r.BadPolicy? <==> !Retention.PolicyOk(policy)
      ensures r.BadPolicy? <==> exists rule :: rule in {policy.debug, policy.info, policy.warning, policy.error}
                                  && !(1 <= rule.days <= 3650 && 0 <= rule.minCount <= 100_000)
      ensures !r.Deleted? ==> events == old(events)
      ensures r.Deleted? <==> Retention.PolicyOk(policy) && commits
      ensures r.Deleted? ==> events == Retention.Pruned(old(events), now, policy)
      ensures r.Deleted? ==> r.count == |old(events)| - |events|
    {
      Retention.PolicyBounds(policy);
      if !Retention.PolicyOk(policy) {
        return BadPolicy;
      }
      var t, deleted, i := events, 0, 0;
      while i < |Retention.SEVERITIES|
        invariant 0 <= i <= |Retention.SEVERITIES| && events == old(events)
        invariant t == Retention.PruneEach(events, Retention.SEVERITIES[..i], now, policy)
        invariant 0 <= deleted == |events| - |t|
      {
        var severity := Retention.SEVERITIES[i];
        var left := Retention.PruneOne(t, severity, now, Retention.RuleFor(policy, severity));
        Retention.PruneOneShrinks(t, severity, now, Retention.RuleFor(policy, severity));
        assert Retention.SEVERITIES[..i + 1][..i] == Retention.SEVERITIES[..i];
        deleted := deleted + (|t| - |left|);
        t, i := left, i + 1;
      }
      assert Retention.SEVERITIES[..i] == Retention.SEVERITIES;
      if !commits {
        return NotCommitted;
      }
      Retention.PrunedExactly(events, now, policy);
      events := t;
      return Deleted(deleted);
    }
  }
}
