/** Cursor paging through the activity log: ActivityStore.Query and what a caller sees who follows
    NextCursor while HasMore holds, over a log that may change between two requests. */
module ActivityPaging {
  import opened Activity
  import opened Bytes
  import opened Options
  import ActivityText

  // activityIDMaxBytes
  const ID_MAX: nat := 128
  const SEVERITIES: set<string> := {"debug", "info", "warning", "error"}
  const CATEGORIES: set<string> := {"client", "tunnel", "p2p", "admin", "security"}

  /** Ids are bytes, as Go's strings are, since their lengths and their encoding are checked. */
  datatype Query = Query(scope: string, scopeId: seq<byte>, scopeUser: seq<byte>, before: int, after: int, limit: int,
                         severities: seq<string>, categories: seq<string>, from: Option<int>, to: Option<int>)

  datatype Page = Page(items: seq<Event>, next: nat, hasMore: bool, ascending: bool)

  datatype QueryError = BadLimit | BothCursors | NegativeCursor | BadRange | BadScope | BadScopeUser | BadSeverity |
      BadCategory
  datatype Answer = Found(page: Page) | Refused(error: QueryError)

  function Limit(q: Query): int {
    if q.limit == 0 then 50 else q.limit
  }

  /** The first complaint of Query about its argument. */
  function Complaint(q: Query): Option<QueryError> {
    if Limit(q) < 1 || Limit(q) > 200 then Some(BadLimit)
    else if q.before > 0 && q.after > 0 then Some(BothCursors)
    else if q.before < 0 || q.after < 0 then Some(NegativeCursor)
    else if q.from.Some? && q.to.Some? && q.from.value >= q.to.value then Some(BadRange)
    else if !ScopeOk(q) then Some(BadScope)
    else if !UserIdOk(q.scopeUser) then Some(BadScopeUser)
    else if exists i :: 0 <= i < |q.severities| && q.severities[i] !in SEVERITIES then Some(BadSeverity)
    else if exists i :: 0 <= i < |q.categories| && q.categories[i] !in CATEGORIES then Some(BadCategory)
    else None
  }

  predicate ScopeOk(q: Query) {
    match q.scope
    case "" => q.scopeId == []
    case "global" => q.scopeId == []
    case "client" => 0 < |q.scopeId| <= ID_MAX
    case "tunnel" => 0 < |q.scopeId| <= ID_MAX
    case _ => false
  }

  /** The white space that strings.TrimSpace removes, in UTF-8. */
  predicate IsSpace(rune: seq<byte>) {
    || rune in {[0x09], [0x0A], [0x0B], [0x0C], [0x0D], [0x20], [0xC2, 0x85], [0xC2, 0xA0]}
    || rune in {[0xE1, 0x9A, 0x80], [0xE2, 0x80, 0xA8], [0xE2, 0x80, 0xA9], [0xE2, 0x80, 0xAF], [0xE2, 0x81, 0x9F],
        [0xE3, 0x80, 0x80]}
    || (|rune| == 3 && rune[0] == 0xE2 && rune[1] == 0x80 && 0x80 <= rune[2] <= 0x8A)
  }

  predicate StartsOrEndsWithSpace(s: seq<byte>) {
    exists n :: 1 <= n <= 3 && n <= |s| && (IsSpace(s[..n]) || IsSpace(s[|s| - n..]))
  }

  /** White space by code point: the controls 9 to 13, the blanks of all widths, and the line separators. */
  predicate Blank(c: nat) {
    || 9 <= c <= 13 || 0x2000 <= c <= 0x200A
    || c in {0x20, 0x85, 0xA0, 0x1680, 0x2028, 0x2029, 0x202F, 0x205F, 0x3000}
  }

  lemma SpaceIffBlank(c: nat)
    requires ActivityText.IsScalar(c)
    ensures IsSpace(ActivityText.Utf8(c)) <==> Blank(c)
  {
  }

  lemma SpaceIsBlank(rune: seq<byte>) returns (c: nat)
    requires IsSpace(rune)
    ensures ActivityText.IsScalar(c) && Blank(c) && rune == ActivityText.Utf8(c)
  {
    assert ActivityText.RuneLength(rune) == |rune|;
    ActivityText.CharacterIsScalar(rune);
    c := ActivityText.CodePoint(rune);
    SpaceIffBlank(c);
  }

  predicate EndsWith(s: seq<byte>, end: seq<byte>) {
    |end| <= |s| && s[|s| - |end|..] == end
  }

  /** A text has space around it exactly when its first or its last character is a blank one. */
  lemma {:induction false} SpaceAroundIff(s: seq<byte>)
    ensures StartsOrEndsWithSpace(s) <==>
              exists c: nat :: ActivityText.IsScalar(c) && Blank(c)
                               && (ActivityText.Utf8(c) <= s || EndsWith(s, ActivityText.Utf8(c)))
  {
    hide IsSpace, Blank, ActivityText.IsScalar, ActivityText.Utf8;
    if StartsOrEndsWithSpace(s) {
      var n :| 1 <= n <= 3 && n <= |s| && (IsSpace(s[..n]) || IsSpace(s[|s| - n..]));
      var rune := if IsSpace(s[..n]) then s[..n] else s[|s| - n..];
      var c := SpaceIsBlank(rune);
      assert ActivityText.Utf8(c) <= s || EndsWith(s, ActivityText.Utf8(c));
    }
    forall c: nat | ActivityText.IsScalar(c) && Blank(c)
                    && (ActivityText.Utf8(c) <= s || EndsWith(s, ActivityText.Utf8(c)))
      ensures StartsOrEndsWithSpace(s)
    {
      SpaceIffBlank(c);
      BlankIsShort(c);
      var n := |ActivityText.Utf8(c)|;
      assert ActivityText.Utf8(c) <= s ==> s[..n] == ActivityText.Utf8(c);
      assert IsSpace(s[..n]) || IsSpace(s[|s| - n..]);
    }
  }

  lemma BlankIsShort(c: nat)
    requires ActivityText.IsScalar(c) && Blank(c)
    ensures 1 <= |ActivityText.Utf8(c)| <= 3
  {
  }

  /** normalizeActivityUserID: no id at all, or a short one in well-formed UTF-8 without space around it. */
  predicate UserIdOk(id: seq<byte>) {
    id == [] || (|id| <= ID_MAX && ActivityText.WellFormed(id) && !StartsOrEndsWithSpace(id))
  }

  predicate Valid(q: Query) {
    Complaint(q) == None
  }

  lemma ScopeOkIff(q: Query)
    ensures ScopeOk(q) <==> if q.scope in {"client", "tunnel"} then 1 <= |q.scopeId| <= 128
                            else q.scope in {"", "global"} && q.scopeId == []
  {
  }

  lemma AllIn(names: seq<string>, known: set<string>)
    ensures (exists i :: 0 <= i < |names| && names[i] !in known) <==> !forall s :: s in names ==> s in known
  {
    assert forall i :: 0 <= i < |names| ==> names[i] in names;
  }

  /** What a query must be to be answered. */
  lemma AnsweredIff(q: Query)
    ensures Valid(q) <==>
              && 0 <= q.limit <= 200 && 0 <= q.before && 0 <= q.after && (q.before == 0 || q.after == 0)
              && (q.from.Some? && q.to.Some? ==> q.from.value < q.to.value)
              && (if q.scope in {"client", "tunnel"} then 1 <= |q.scopeId| <= 128
                  else q.scope in {"", "global"} && q.scopeId == [])
              && UserIdOk(q.scopeUser)
              && (forall s :: s in q.severities ==> s in {"debug", "info", "warning", "error"})
              && forall c :: c in q.categories ==> c in {"client", "tunnel", "p2p", "admin", "security"}
  {
    hide UserIdOk, ScopeOk;
    ScopeOkIff(q);
    AllIn(q.severities, SEVERITIES);
    AllIn(q.categories, CATEGORIES);
  }

  /** The filters of the WHERE clause other than the cursors. */
  predicate Filtered(q: Query, e: Event) {
    && (q.scope == "client" ==> q.scopeId in e.clients)
    && (q.scope == "tunnel" ==> q.scopeId in e.tunnels)
    && (q.scopeUser != [] ==> e.scopeUser == q.scopeUser)
    && (|q.severities| > 0 ==> SeverityName(e.severity) in q.severities)
    && (|q.categories| > 0 ==> e.category in q.categories)
    && (q.from.Some? ==> e.occurred >= q.from.value)
    && (q.to.Some? ==> e.occurred < q.to.value)
  }

  predicate Matches(q: Query, e: Event) {
    Filtered(q, e) && (q.before > 0 ==> e.id < q.before) && (q.after > 0 ==> e.id > q.after)
  }

  function Matching(t: seq<Event>, q: Query): (r: seq<Event>) {
    if t == [] then []
    else if Matches(q, t[|t| - 1]) then Matching(t[..|t| - 1], q) + [t[|t| - 1]]
    else Matching(t[..|t| - 1], q)
  }

  /** ORDER BY id LIMIT n over the matching rows */
  function Rows(all: seq<Event>, n: nat, ascending: bool): seq<Event> {
    var ordered := if ascending then all else Reversed(all);
    if |ordered| > n then ordered[..n] else ordered
  }

  /** One row more than the limit is fetched, to see whether there is more; an ascending page is turned
      round. */
  function CutPage(all: seq<Event>, limit: nat, ascending: bool): Page {
    var rows := Rows(all, limit + 1, ascending);
    var hasMore := |rows| > limit;
    var trimmed := if hasMore then rows[..limit] else rows;
    var items := if ascending then Reversed(trimmed) else trimmed;
    var next := if items == [] then 0 else if ascending then items[0].id else items[|items| - 1].id;
    Page(items, next, hasMore, ascending)
  }

  function PageOf(t: seq<Event>, q: Query): Page
    requires Valid(q)
  {
    CutPage(Matching(t, q), Limit(q), q.after > 0)
  }

  lemma {:induction false} MatchingFacts(t: seq<Event>, q: Query)
    requires Table(t)
    ensures Ascending(Matching(t, q))
    ensures forall e :: e in Matching(t, q) <==> e in t && Matches(q, e)
  {
    if t != [] {
      var n := |t| - 1;
      MatchingFacts(t[..n], q);
      forall e ensures e in t <==> e in t[..n] || e == t[n] {
        assert t == t[..n] + [t[n]];
      }
      assert forall e :: e in t[..n] ==> e.id < t[n].id;
    }
  }

  // ---------- one page ----------

  /** A page's items in the order in which a reader moves through the log. */
  function InOrder(p: Page): seq<Event> {
    if p.ascending then Reversed(p.items) else p.items
  }

  /** Where a reader goes next: past every item of the page. */
  predicate Beyond(p: Page, e: Event) {
    if p.ascending then e.id > p.next else e.id < p.next
  }

  predicate Monotone(s: seq<Event>, ascending: bool) {
    if ascending then Ascending(s) else Ascending(Reversed(s))
  }

  /** The k matching rows next to the cursor, oldest first. */
  function Nearest(all: seq<Event>, k: nat, ascending: bool): seq<Event> {
    if |all| <= k then all else if ascending then all[..k] else all[|all| - k..]
  }

  lemma PageUp(all: seq<Event>, limit: nat)
    ensures var p, near := CutPage(all, limit, true), Nearest(all, limit, true);
      && p.items == Reversed(near) && p.ascending && p.hasMore == (|all| > |near|)
      && (near != [] ==> p.next == near[|near| - 1].id)
  {
  }

  lemma PageDown(all: seq<Event>, limit: nat)
    ensures var p, near := CutPage(all, limit, false), Nearest(all, limit, false);
      && p.items == Reversed(near) && !p.ascending && p.hasMore == (|all| > |near|)
      && (near != [] ==> p.next == near[0].id)
  {
  }

  lemma PageIsNearest(all: seq<Event>, limit: nat, ascending: bool)
    ensures var p, near := CutPage(all, limit, ascending), Nearest(all, limit, ascending);
      && p.items == Reversed(near) && p.ascending == ascending && p.hasMore == (|all| > |near|)
      && (near != [] ==> p.next == if ascending then near[|near| - 1].id else near[0].id)
  {
    hide CutPage, Nearest, Reversed;
    if ascending {
      PageUp(all, limit);
    } else {
      PageDown(all, limit);
    }
  }

  lemma NearestFacts(all: seq<Event>, k: nat, ascending: bool)
    requires Ascending(all) && k > 0
    ensures var near := Nearest(all, k, ascending);
      && Ascending(near) && |near| <= k
      && (near == [] ==> all == [])
      && (|all| > |near| ==> |near| == k && exists e :: e in all && e !in near)
      && (forall e :: e in near ==> e in all && !Outside(near, e, ascending))
      && (forall e :: e in all && e !in near ==> |all| > |near| && Outside(near, e, ascending))
  {
    if |all| > k {
      var missing := if ascending then all[k] else all[|all| - k - 1];
      assert missing in all;
    }
  }

  predicate Outside(near: seq<Event>, e: Event, ascending: bool) {
    near != [] && if ascending then e.id > near[|near| - 1].id else e.id < near[0].id
  }

  /** What one page of the matching rows promises.  Its items are listed newest first whatever the
      direction; they are the ones nearest to the cursor, as many as the limit allows; HasMore says
      exactly whether a row is missing; and NextCursor is the id of the item farthest out. */
  predicate IsPage(p: Page, all: seq<Event>, limit: int, ascending: bool) {
    && p.ascending == ascending
    && Ascending(Reversed(p.items)) && Monotone(InOrder(p), ascending)
    && |p.items| <= limit && (p.hasMore ==> |p.items| == limit)
    && (p.hasMore <==> exists e :: e in all && e !in p.items)
    && (forall e :: e in p.items ==> e in all && !Beyond(p, e))
    && (forall e :: e in all && e !in p.items ==> Beyond(p, e))
    && (p.items != [] ==> exists e :: e in p.items && e.id == p.next)
  }

  lemma CutPageIsPage(all: seq<Event>, limit: nat, ascending: bool)
    requires Ascending(all) && limit > 0
    ensures IsPage(CutPage(all, limit, ascending), all, limit, ascending)
  {
    hide CutPage, Nearest, Reversed, Ascending;
    var p, near := CutPage(all, limit, ascending), Nearest(all, limit, ascending);
    PageIsNearest(all, limit, ascending);
    NearestFacts(all, limit, ascending);
    ReversedFacts(near);
    assert near != [] ==> forall e :: Beyond(p, e) <==> Outside(near, e, ascending);
    assert Monotone(InOrder(p), ascending);
    assert forall e :: e in p.items ==> e in all && !Beyond(p, e);
    assert p.hasMore <==> exists e :: e in all && e !in p.items;
    if near != [] {
      var edge := if ascending then near[|near| - 1] else near[0];
      assert edge in near && edge.id == p.next;
    }
  }

  // ---------- following the cursor ----------

  function Next(q: Query, p: Page): Query {
    if p.ascending then q.(after := p.next) else q.(before := p.next)
  }

  predicate Tables(h: seq<seq<Event>>) {
    forall i :: 0 <= i < |h| ==> Table(h[i])
  }

  /** The next cursor lies inside the range of the query it came from. */
  predicate Inside(q: Query, p: Page) {
    && p.ascending == (q.after > 0) && p.next > 0
    && if p.ascending then p.next > q.after else q.before > 0 ==> p.next < q.before
  }

  lemma NextQuery(q: Query, p: Page)
    requires Valid(q) && Inside(q, p)
    ensures Valid(Next(q, p)) && Limit(Next(q, p)) == Limit(q)
    ensures forall e :: Matches(Next(q, p), e) <==> Matches(q, e) && Beyond(p, e)
  {
    var n := Next(q, p);
    assert forall e :: Filtered(n, e) <==> Filtered(q, e);
    assert ScopeOk(n) == ScopeOk(q);
  }

  /** A page that has more leads to a valid query, for exactly the matching rows beyond the page. */
  lemma NextFacts(t: seq<Event>, q: Query)
    requires Table(t) && Valid(q)
    ensures var p := PageOf(t, q);
      && IsPage(p, Matching(t, q), Limit(q), q.after > 0)
      && (p.hasMore ==> Inside(q, p) && Valid(Next(q, p)) && Limit(Next(q, p)) == Limit(q))
      && (p.hasMore ==> forall e :: Matches(Next(q, p), e) <==> Matches(q, e) && Beyond(p, e))
  {
    var p := PageOf(t, q);
    MatchingFacts(t, q);
    CutPageIsPage(Matching(t, q), Limit(q), q.after > 0);
    if p.hasMore {
      EdgeIsInside(t, q, p);
      NextQuery(q, p);
    }
  }

  lemma EdgeIsInside(t: seq<Event>, q: Query, p: Page)
    requires Table(t) && p.hasMore && Limit(q) > 0
    requires IsPage(p, Matching(t, q), Limit(q), q.after > 0)
    ensures Inside(q, p)
  {
    MatchingFacts(t, q);
    hide Matching, Filtered;
    assert p.items != [];
    var edge :| edge in p.items && edge.id == p.next;
    assert edge in t && Matches(q, edge);
  }

  /** The pages of a reader who asks again while there is more; h[i] is the log at the i-th request. */
  function Walk(h: seq<seq<Event>>, q: Query): seq<Page>
    requires Tables(h) && Valid(q)
  {
    if h == [] then []
    else
      var p := PageOf(h[0], q);
      NextFacts(h[0], q);
      if p.hasMore then [p] + Walk(h[1..], Next(q, p)) else [p]
  }

  /** Each request of h was made, and the last one was told that there is no more. */
  predicate Ended(h: seq<seq<Event>>, q: Query)
    requires Tables(h) && Valid(q)
  {
    var w := Walk(h, q);
    w != [] && |w| == |h| && !w[|w| - 1].hasMore
  }

  function Visited(pages: seq<Page>): seq<Event> {
    if pages == [] then [] else InOrder(pages[0]) + Visited(pages[1..])
  }

  /** Every row that is there at the time of each request. */
  predicate Persists(h: seq<seq<Event>>, e: Event) {
    forall i :: 0 <= i < |h| ==> e in h[i]
  }

  predicate Somewhere(h: seq<seq<Event>>, e: Event) {
    exists i :: 0 <= i < |h| && e in h[i]
  }

  lemma VisitedCons(p: Page, rest: seq<Page>)
    ensures Visited([p] + rest) == InOrder(p) + Visited(rest)
    ensures Visited([p]) == InOrder(p)
  {
    assert ([p] + rest)[1..] == rest;
    assert [p][1..] == [];
  }

  lemma WalkStep(h: seq<seq<Event>>, q: Query)
    requires Tables(h) && Valid(q) && h != []
    ensures var p := PageOf(h[0], q);
      if p.hasMore then
        && Valid(Next(q, p)) && Visited(Walk(h, q)) == InOrder(p) + Visited(Walk(h[1..], Next(q, p)))
        && (Ended(h, q) <==> Ended(h[1..], Next(q, p)))
      else Visited(Walk(h, q)) == InOrder(p) && (Ended(h, q) <==> |h| == 1)
  {
    hide PageOf, Next, Valid, Table, InOrder, Visited;
    var p := PageOf(h[0], q);
    assert p.hasMore ==> Valid(Next(q, p)) by {
      NextFacts(h[0], q);
    }
    var w := Walk(h, q);
    if p.hasMore {
      var rest := Walk(h[1..], Next(q, p));
      assert w == [p] + rest;
      hide Walk;
      VisitedCons(p, rest);
      assert rest == [] ==> w[|w| - 1] == p;
      assert rest != [] ==> w[|w| - 1] == rest[|rest| - 1];
    } else {
      assert w == [p];
      VisitedCons(p, []);
    }
  }

  lemma InOrderMembers(p: Page, e: Event)
    ensures e in InOrder(p) <==> e in p.items
  {
    ReversedFacts(p.items);
  }

  lemma MonotoneConcat(a: seq<Event>, b: seq<Event>, ascending: bool)
    requires Monotone(a, ascending) && Monotone(b, ascending)
    requires forall x, y :: x in a && y in b ==> if ascending then x.id < y.id else x.id > y.id
    ensures Monotone(a + b, ascending)
  {
    if !ascending {
      var ra, rb := Reversed(a), Reversed(b);
      var both: seq<Event> := rb + ra;
      assert Reversed(a + b) == both;
      ReversedFacts(a);
      ReversedFacts(b);
      forall i, j | 0 <= i < j < |both| ensures both[i].id < both[j].id {
        if i < |rb| <= j {
          assert rb[i] in rb && ra[j - |rb|] in ra;
        }
      }
    }
  }

  /** Whatever happens to the log between the requests, no row is seen twice and ids only move in one
      direction, each row seen was there and matches the first query, and a reader who reaches the end
      has seen every matching row that was there all along. */
  lemma {:induction false} WalkVisits(h: seq<seq<Event>>, q: Query)
    requires Tables(h) && Valid(q)
    ensures Monotone(Visited(Walk(h, q)), q.after > 0)
    ensures forall e :: e in Visited(Walk(h, q)) ==> Somewhere(h, e) && Matches(q, e)
    ensures Ended(h, q) ==> forall e :: Persists(h, e) && Matches(q, e) ==> e in Visited(Walk(h, q))
  {
    if h != [] {
      var t, p := h[0], PageOf(h[0], q);
      WalkStep(h, q);
      hide Walk, Visited, PageOf, Matches, Ended, Valid, InOrder, Next, Monotone, Table;
      PageVisits(t, q);
      if p.hasMore {
        var h', q' := h[1..], Next(q, p);
        WalkVisits(h', q');
        var rest := Visited(Walk(h', q'));
        MonotoneConcat(InOrder(p), rest, q.after > 0);
        forall e | Somewhere(h', e) ensures Somewhere(h, e) {
          var i :| 0 <= i < |h'| && e in h'[i];
          assert e in h[i + 1];
        }
        forall e | Persists(h, e) ensures Persists(h', e) && e in t {
          assert forall i :: 0 <= i < |h'| ==> h'[i] == h[i + 1];
        }
      }
    }
  }

  /** IsPage again, in the terms of a reader. */
  lemma PageVisits(t: seq<Event>, q: Query)
    requires Table(t) && Valid(q)
    ensures var p := PageOf(t, q);
      && p.ascending == (q.after > 0) && Monotone(InOrder(p), q.after > 0)
      && (forall e :: e in InOrder(p) ==> e in t && Matches(q, e) && !Beyond(p, e))
      && (forall e :: e in t && Matches(q, e) && e !in InOrder(p) ==> p.hasMore && Beyond(p, e))
      && (p.hasMore ==> Inside(q, p) && exists e :: e in InOrder(p) && e.id == p.next)
      && (p.hasMore ==> exists e :: e in t && Matches(q, e) && Beyond(p, e))
      && (p.hasMore ==> Valid(Next(q, p)) && (Next(q, p).after > 0) == (q.after > 0))
      && (p.hasMore ==> forall e :: Matches(Next(q, p), e) <==> Matches(q, e) && Beyond(p, e))
  {
    var p := PageOf(t, q);
    NextFacts(t, q);
    MatchingFacts(t, q);
    hide PageOf, Matches, Valid, InOrder, Table, Matching;
    forall e ensures e in InOrder(p) <==> e in p.items {
      InOrderMembers(p, e);
    }
    if p.hasMore {
      assert p.items != [];
      var missing :| missing in Matching(t, q) && missing !in p.items;
      assert missing in t && Matches(q, missing);
    }
  }

  /** Between two requests rows are only appended. */
  predicate Grows(h: seq<seq<Event>>) {
    forall i, j :: 0 <= i < j < |h| ==> h[i] <= h[j]
  }

  /** A row older than one that was there before was there before too. */
  lemma OlderIsOld(t: seq<Event>, u: seq<Event>, x: Event, e: Event)
    requires Table(u) && t <= u && x in t && e in u && e.id <= x.id
    ensures e in t
  {
    var i :| 0 <= i < |t| && t[i] == x;
    var j :| 0 <= j < |u| && u[j] == e;
    assert u[i] == x;
    assert t[j] == e;
  }

  lemma {:induction false} BeforeStaysInFirst(h: seq<seq<Event>>, q: Query)
    requires Tables(h) && Valid(q) && h != [] && q.after == 0 && Grows(h)
    ensures forall e :: e in Visited(Walk(h, q)) ==> e in h[0]
  {
    var t, p := h[0], PageOf(h[0], q);
    WalkStep(h, q);
    PageVisits(t, q);
    if p.hasMore && |h| > 1 {
      var h', q' := h[1..], Next(q, p);
      assert q'.after == 0;
      WalkVisits(h', q');
      BeforeStaysInFirst(h', q');
      hide Walk, Visited, PageOf, Matches, Valid, InOrder, Next, Monotone, Table;
      var edge :| edge in InOrder(p) && edge.id == p.next;
      forall e | e in Visited(Walk(h', q')) ensures e in t {
        OlderIsOld(t, h'[0], edge, e);
      }
    } else if p.hasMore {
      assert h[1..] == [];
    }
  }

  /** Without an after cursor a reader sees exactly the rows that matched at the first request, newest
      first, whatever is appended meanwhile. */
  lemma BeforeWalkIsExact(h: seq<seq<Event>>, q: Query)
    requires Tables(h) && Valid(q) && q.after == 0 && Grows(h) && Ended(h, q)
    ensures Visited(Walk(h, q)) == Reversed(Matching(h[0], q))
  {
    WalkVisits(h, q);
    BeforeStaysInFirst(h, q);
    MatchingFacts(h[0], q);
    hide Walk, Matches, Valid, Matching, Table, Ended, Visited;
    var v := Visited(Walk(h, q));
    ReversedFacts(v);
    forall e | e in h[0] ensures Persists(h, e) {
      forall i | 0 <= i < |h| ensures e in h[i] {
        assert i == 0 || h[0] <= h[i];
      }
    }
    AscendingUnique(Reversed(v), Matching(h[0], q));
  }

  lemma {:induction false} AfterVisitsLast(h: seq<seq<Event>>, q: Query)
    requires Tables(h) && Valid(q) && q.after > 0 && Grows(h) && Ended(h, q)
    ensures forall e :: e in Visited(Walk(h, q)) <==> e in h[|h| - 1] && Matches(q, e)
  {
    hide Walk, Visited, PageOf, Matches, Ended, Valid, InOrder, Next, Monotone, Table, Beyond;
    EndedIsNotEmpty(h, q);
    var t, p, u := h[0], PageOf(h[0], q), h[|h| - 1];
    WalkStep(h, q);
    PageVisits(t, q);
    if p.hasMore {
      var h', q' := h[1..], Next(q, p);
      EndedIsNotEmpty(h', q');
      AfterVisitsLast(h', q');
      assert h'[|h'| - 1] == u && t <= u && Table(u);
      var edge :| edge in InOrder(p) && edge.id == p.next;
      forall e ensures e in Visited(Walk(h, q)) <==> e in u && Matches(q, e) {
        VisitedLater(p, q, q', t, u, edge, Visited(Walk(h', q')), e);
      }
    }
  }

  /** One row: it is on the page or seen later if and only if it matches in the last table. */
  lemma VisitedLater(p: Page, q: Query, q': Query, t: seq<Event>, u: seq<Event>, edge: Event, later: seq<Event>,
      e: Event)
    requires p.ascending && Table(u) && t <= u && edge in t && edge.id == p.next
    requires e in InOrder(p) ==> e in t && Matches(q, e)
    requires e in t && Matches(q, e) && e !in InOrder(p) ==> Beyond(p, e)
    requires Matches(q', e) <==> Matches(q, e) && Beyond(p, e)
    requires e in later <==> e in u && Matches(q', e)
    ensures e in InOrder(p) + later <==> e in u && Matches(q, e)
  {
    hide Matches, Table, InOrder, Beyond;
    if e in t {
      PrefixHolds(t, u, e);
    } else if e in u && !Beyond(p, e) {
      BehindIsOld(p, t, u, edge, e);
    }
  }

  lemma PrefixHolds(t: seq<Event>, u: seq<Event>, e: Event)
    requires t <= u && e in t
    ensures e in u
  {
  }

  lemma BehindIsOld(p: Page, t: seq<Event>, u: seq<Event>, edge: Event, e: Event)
    requires p.ascending && Table(u) && t <= u && edge in t && edge.id == p.next && e in u && !Beyond(p, e)
    ensures e in t
  {
    OlderIsOld(t, u, edge, e);
  }

  lemma EndedIsNotEmpty(h: seq<seq<Event>>, q: Query)
    requires Tables(h) && Valid(q) && Ended(h, q)
    ensures h != []
  {
  }

  /** With an after cursor a reader sees exactly the rows that match at the last request, oldest first. */
  lemma AfterWalkIsExact(h: seq<seq<Event>>, q: Query)
    requires Tables(h) && Valid(q) && q.after > 0 && Grows(h) && Ended(h, q)
    ensures Visited(Walk(h, q)) == Matching(h[|h| - 1], q)
  {
    WalkVisits(h, q);
    AfterVisitsLast(h, q);
    MatchingFacts(h[|h| - 1], q);
    AscendingUnique(Visited(Walk(h, q)), Matching(h[|h| - 1], q));
  }

  // ---------- reaching the end ----------

  predicate IdsUpTo(h: seq<seq<Event>>, top: int) {
    forall i, e :: 0 <= i < |h| && e in h[i] ==> e.id <= top
  }

  /** How many ids a query leaves open. */
  function Room(q: Query, top: int): int {
    if q.after > 0 then top - q.after else if q.before > 0 then q.before - 1 else top
  }

  lemma RoomShrinks(q: Query, p: Page, missing: Event, edge: Event, top: int)
    requires Inside(q, p) && Beyond(p, missing) && missing.id > 0 && edge.id == p.next
    requires q.before <= 0 ==> missing.id <= top && edge.id <= top
    requires q.after > 0 ==> q.before <= 0
    ensures 1 <= Room(Next(q, p), top) < Room(q, top)
  {
  }

  /** The requests whose ids bound the rest of the way. */
  function Counted(h: seq<seq<Event>>, q: Query): seq<seq<Event>> {
    if q.after > 0 then h else if q.before > 0 || h == [] then [] else h[..1]
  }

  /** Following the cursor ends, however the log changes between the requests: backwards in any case,
      forwards as long as ids stay below some bound. */
  lemma {:induction false} WalkEnds(h: seq<seq<Event>>, q: Query, top: int) returns (m: nat)
    requires Tables(h) && Valid(q)
    requires IdsUpTo(Counted(h, q), top)
    requires |h| >= 1 && |h| >= Room(q, top)
    ensures 1 <= m <= |h| && (m > 1 ==> m <= Room(q, top)) && Ended(h[..m], q)
  {
    hide Walk, Visited, PageOf, Matches, Ended, InOrder, Monotone, Filtered;
    var t, p := h[0], PageOf(h[0], q);
    assert q.after > 0 ==> q.before <= 0;
    hide Valid;
    PageVisits(t, q);
    if !p.hasMore {
      m := 1;
      WalkStep(h[..1], q);
    } else {
      var h', q' := h[1..], Next(q, p);
      var missing :| missing in t && Matches(q, missing) && Beyond(p, missing);
      var edge :| edge in InOrder(p) && edge.id == p.next;
      assert q.before <= 0 ==> t in Counted(h, q);
      RoomShrinks(q, p, missing, edge, top);
      forall i, e | 0 <= i < |Counted(h', q')| && e in Counted(h', q')[i] ensures e.id <= top {
        assert e in h[i + 1];
      }
      var n := WalkEnds(h', q', top);
      m := n + 1;
      assert h[..m][1..] == h'[..n];
      WalkStep(h[..m], q);
    }
  }
}
