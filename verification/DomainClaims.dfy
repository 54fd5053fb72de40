/** The table of HTTP domain claims, the conflict check of its write transaction, the lookup of the
    claim for a host and the route that follows from it (internal/server/http_domain_store.go,
    internal/server/http_tunnel_proxy.go). */
module DomainClaims {
  import opened Options
  import opened Strings
  import opened HostAddress
  import opened HttpDomain

  const SERVER: string := "server"

  /** A stored tunnel, reduced to what claims and routing use.  `key` is the domain in its row of the
      resource locks; old rows may keep a final dot there. */
  datatype Claim = Claim(id: string, http: bool, location: string, ingressClient: string, domain: string, key: string,
                         owner: string, ownerClient: string, name: string, revision: int, running: bool)

  type Table = seq<Claim>

  predicate ServerClaim(c: Claim) {
    c.http && c.location == SERVER
  }

  /** What validateUnifiedTunnelSpec and the request checks demand of a row. */
  predicate WellFormed(c: Claim) {
    && (c.location == SERVER || c.location == "client")
    && (c.location == SERVER ==> c.ingressClient == "")
    && (c.http ==> ValidatePattern(c.domain) && (c.key == Canonical(c.domain) || c.key == Canonical(c.domain) + "."))
  }

  predicate SameScope(a: Claim, b: Claim) {
    a.http && b.http && a.location == b.location && a.ingressClient == b.ingressClient
  }

  predicate Conflicting(a: Claim, b: Claim) {
    SameScope(a, b) && Conflict(a.domain, a.owner, b.domain, b.owner)
  }

  ghost predicate ConflictFree(t: Table) {
    && (forall i :: 0 <= i < |t| ==> WellFormed(t[i]))
    && (forall i, j :: 0 <= i < j < |t| ==> t[i].id != t[j].id && !Conflicting(t[i], t[j]))
  }

  // ---------- writing ----------

  /** A claim without a location is one on the server. */
  function Located(c: Claim): Claim {
    if c.location == "" then c.(location := SERVER) else c
  }

  /** A row that stands in the candidate's way; its own row, or the one named, is left out. */
  predicate InTheWay(row: Claim, candidate: Claim, excludeId: string) {
    row.id != (if excludeId == "" then candidate.id else excludeId) && Conflicting(Located(candidate), row)
  }

  /** findHTTPIngressConflict. */
  method FindConflict(rows: Table, candidate: Claim, excludeId: string) returns (found: bool, at: nat)
    requires candidate.http
    ensures found ==> at < |rows| && InTheWay(rows[at], candidate, excludeId)
    ensures !found ==> forall i :: 0 <= i < |rows| ==> !InTheWay(rows[i], candidate, excludeId)
  {
    hide Conflict;
    var exclude := if excludeId == "" then candidate.id else excludeId;
    var location := if candidate.location == "" then SERVER else candidate.location;
    for i := 0 to |rows|
      invariant forall k :: 0 <= k < i ==> !InTheWay(rows[k], candidate, excludeId)
    {
      var row := rows[i];
      if row.http && row.location == location && row.ingressClient == candidate.ingressClient && row.id != exclude {
        if Conflict(candidate.domain, candidate.owner, row.domain, row.owner) {
          return true, i;
        }
      }
    }
    return false, 0;
  }

  function Without(t: Table, id: string): Table {
    if t == [] then [] else if t[0].id == id then Without(t[1..], id) else [t[0]] + Without(t[1..], id)
  }

  ghost predicate Fits(t: Table, c: Claim) {
    WellFormed(c) && forall i :: 0 <= i < |t| && t[i].id != c.id ==> !Conflicting(c, t[i])
  }

  /** The write transaction: a claim is stored, in place of any earlier row with its id, when it is
      well formed and conflicts with no other row; otherwise nothing changes. */
  ghost function Put(t: Table, c: Claim): Table {
    if Fits(t, c) then Without(t, c.id) + [c] else t
  }

  datatype Change = Store(claim: Claim) | Remove(id: string)

  ghost function Applied(t: Table, change: Change): Table {
    match change
    case Store(c) => Put(t, c)
    case Remove(id) => Without(t, id)
  }

  ghost function AllApplied(changes: seq<Change>): Table {
    if changes == [] then [] else Applied(AllApplied(changes[..|changes| - 1]), changes[|changes| - 1])
  }

  /** The transaction on the stored table, deciding with the conflict scan. */
  class ClaimStore {
    var table: Table

    constructor ()
      ensures table == []
    {
      table := [];
    }

    method Save(c: Claim) returns (ok: bool)
      modifies this
      ensures ok == Fits(old(table), c)
      ensures table == Put(old(table), c)
    {
      if !WellFormed(c) {
        return false;
      }
      if c.http {
        var found, at := FindConflict(table, c, c.id);
        if found {
          return false;
        }
      }
      table := Without(table, c.id) + [c];
      return true;
    }

    method Delete(id: string)
      modifies this
      ensures table == Without(old(table), id)
    {
      table := Without(table, id);
    }
  }

  lemma {:induction false} WithoutKeeps(t: Table, id: string)
    requires ConflictFree(t)
    ensures ConflictFree(Without(t, id))
    ensures forall i :: 0 <= i < |Without(t, id)| ==> Without(t, id)[i] in t && Without(t, id)[i].id != id
    ensures forall c :: c in t && c.id != id ==> c in Without(t, id)
  {
    hide Conflicting, WellFormed;
    if t != [] {
      var rest := t[1..];
      WithoutKeeps(rest, id);
      var w := Without(rest, id);
      assert t == [t[0]] + rest;
      forall i | 0 <= i < |w| ensures t[0].id != w[i].id && !Conflicting(t[0], w[i]) {
        assert w[i] in rest;
      }
    }
  }

  lemma ConflictSymmetric(a: Claim, b: Claim)
    ensures Conflicting(a, b) == Conflicting(b, a)
  {
    hide LabelsOf, Canonical;
  }

  lemma {:induction false} PutKeeps(t: Table, c: Claim)
    requires ConflictFree(t)
    ensures ConflictFree(Put(t, c))
  {
    hide Conflicting, WellFormed;
    if Fits(t, c) {
      WithoutKeeps(t, c.id);
      var w := Without(t, c.id);
      forall i | 0 <= i < |w| ensures !Conflicting(w[i], c) {
        assert w[i] in t;
        ConflictSymmetric(w[i], c);
      }
    }
  }

  /** Every table that transactions can produce is free of conflicts. */
  lemma {:induction false} TablesStayConflictFree(changes: seq<Change>)
    ensures ConflictFree(AllApplied(changes))
  {
    if changes != [] {
      var before := AllApplied(changes[..|changes| - 1]);
      TablesStayConflictFree(changes[..|changes| - 1]);
      match changes[|changes| - 1]
      case Store(c) => PutKeeps(before, c);
      case Remove(id) => WithoutKeeps(before, id);
    }
  }

  /** Two HTTP claims at the same place some host matches both of, unless one known owner has both of them
      with different patterns. */
  ghost predicate Clash(a: Claim, b: Claim) {
    && a.http && b.http && a.location == b.location && a.ingressClient == b.ingressClient
    && (exists host :: ValidateDomain(host) && CanonicalRouteHost(host) == host
                       && Matches(a.domain, host) && Matches(b.domain, host))
    && (a.owner == b.owner && a.owner != "" ==> Canonical(a.domain) == Canonical(b.domain))
  }

  /** A well-formed claim is saved if and only if it clashes with no row but its own; the row it had, if any,
      is replaced and every other row stays. */
  lemma {:induction false} SavedIffNoClash(t: Table, c: Claim)
    requires ConflictFree(t) && WellFormed(c)
    ensures Fits(t, c) <==> forall row :: row in t && row.id != c.id ==> !Clash(c, row)
    ensures if Fits(t, c) then forall row :: row in Put(t, c) <==> row == c || (row in t && row.id != c.id)
            else Put(t, c) == t
  {
    hide Conflicting, WellFormed, Clash;
    WithoutKeeps(t, c.id);
    forall i | 0 <= i < |t| ensures Conflicting(c, t[i]) <==> Clash(c, t[i]) {
      ConflictIsClash(c, t[i]);
    }
  }

  lemma ConflictIsClash(a: Claim, b: Claim)
    requires WellFormed(a) && WellFormed(b)
    ensures Conflicting(a, b) <==> Clash(a, b)
  {
    hide Conflict, Matches, Canonical, CanonicalRouteHost, ValidateDomain, ValidatePattern;
    if a.http && b.http {
      ConflictMeans(a.domain, a.owner, b.domain, b.owner);
    }
  }

  /** Any text of up to three stars and a valid name can be claimed on the server. */
  lemma PatternCanBeClaimed(labels: seq<string>, stars: nat, c: Claim)
    requires PatternLabels(labels, stars)
    requires c.http && c.location == "server" && c.ingressClient == "" && c.domain == Join(labels, '.')
    requires c.key == Canonical(c.domain)
    ensures Put([], c) == [c]
  {
    hide ValidatePattern, PatternLabels, Canonical;
    PatternTextIsValid(labels, stars);
  }

  /** What the scan for a conflict looks for: a clash with a row other than the one excluded, which is the
      candidate's own unless another is named; without a location a candidate is one on the server. */
  lemma InTheWayMeans(row: Claim, candidate: Claim, excludeId: string)
    requires WellFormed(row) && WellFormed(Located(candidate))
    ensures InTheWay(row, candidate, excludeId) <==>
              && row.id != (if excludeId == "" then candidate.id else excludeId)
              && Clash(if candidate.location == "" then candidate.(location := "server") else candidate, row)
  {
    hide Clash, Conflicting, WellFormed;
    ConflictIsClash(Located(candidate), row);
  }

  // ---------- routing is unambiguous ----------

  /** In a conflict-free table two claims that match one host have the same owner, who is a real one,
      and different numbers of stars. */
  lemma {:induction false} MatchingClaimsAgree(t: Table, host: string, i: nat, j: nat)
    requires ConflictFree(t) && i < |t| && j < |t| && i != j
    requires ServerClaim(t[i]) && ServerClaim(t[j]) && Matches(t[i].domain, host) && Matches(t[j].domain, host)
    ensures t[i].owner == t[j].owner != ""
    ensures StarCount(t[i].domain) != StarCount(t[j].domain)
  {
    hide CanonicalRouteHost, Canonical, ValidatePattern, Matches, LabelsOf;
    var a, b := t[i], t[j];
    MatchesIsLabelWise(a.domain, host);
    MatchesIsLabelWise(b.domain, host);
    assert Overlap(a.domain, b.domain) && Overlap(b.domain, a.domain);
    if i < j {
      assert !Conflicting(a, b);
    } else {
      assert !Conflicting(b, a);
    }
    if StarCount(a.domain) == StarCount(b.domain) {
      SameStarsSamePattern(a.domain, b.domain, host);
    }
  }

  lemma {:induction false} SameStarsSamePattern(a: string, b: string, host: string)
    requires ValidatePattern(a) && ValidatePattern(b) && StarCount(a) == StarCount(b)
    requires Matches(a, host) && Matches(b, host)
    ensures Canonical(a) == Canonical(b)
  {
    hide CanonicalRouteHost, ValidatePattern, Matches;
    MatchesIsLabelWise(a, host);
    MatchesIsLabelWise(b, host);
    var labels := Split(CanonicalRouteHost(host), '.');
    ValidPatternLabels(a);
    ValidPatternLabels(b);
    LabelWiseIsCandidate(LabelsOf(a), StarCount(a), labels);
    LabelWiseIsCandidate(LabelsOf(b), StarCount(b), labels);
    JoinSplit(Canonical(a), '.');
    JoinSplit(Canonical(b), '.');
  }

  /** The place of a matching pattern among the candidates is its number of stars. */
  lemma {:induction false} RankIsStarCount(pattern: string, host: string, k: nat)
    requires ValidatePattern(pattern) && k < |Candidates(host)| && Candidates(host)[k] == Canonical(pattern)
    ensures k == StarCount(pattern)
  {
    hide CanonicalRouteHost, Candidates, ValidatePattern, IsIP, IsIPv4, Stars, Join;
    var labels := Split(CanonicalRouteHost(host), '.');
    CandidateAt(host, k);
    assert Matches(pattern, host);
    MatchedIsLabelWise(pattern, host);
    RouteHostLabels(host);
    ValidPatternLabels(pattern);
    RankFromLabels(LabelsOf(pattern), StarCount(pattern), labels, k);
  }

  lemma RankFromLabels(p: seq<string>, n: nat, labels: seq<string>, k: nat)
    requires PatternLabels(p, n) && k < |labels| && p == Stars(k) + labels[k..]
    requires forall i :: 0 <= i < |labels| ==> LabelOk(labels[i])
    ensures k == n
  {
    hide Join, IsIPv4;
    StarsAt(k);
    StarsAt(n);
    assert !LabelOk("*") by {
      assert !LabelChar("*"[0]);
    }
    assert p[k] == labels[k];
    assert forall i :: 0 <= i < n ==> p[i] == p[..n][i];
    assert forall i :: 0 <= i < n ==> p[i] == "*";
    assert forall i :: 0 <= i < k ==> p[i] == "*";
    assert LabelOk(p[k]) && LabelOk(p[n]);
  }

  // ---------- looking a host up ----------

  ghost predicate Hit(c: Claim, host: string) {
    ServerClaim(c) && Matches(c.domain, host)
  }

  /** The claim that routing must find: it matches, and every other match has more stars. */
  ghost predicate MostSpecific(t: Table, host: string, best: nat) {
    && best < |t| && Hit(t[best], host)
    && forall j :: 0 <= j < |t| && j != best && Hit(t[j], host) ==> StarCount(t[best].domain) < StarCount(t[j].domain)
  }

  /** The scan over the candidates for one row: the place of `domain` if it comes before `bestRank`. */
  method Rank(candidates: seq<string>, domain: string, bestRank: nat) returns (rank: nat)
    requires bestRank <= |candidates|
    ensures rank <= bestRank
    ensures rank < bestRank ==> candidates[rank] == domain
    ensures forall r :: 0 <= r < rank ==> candidates[r] != domain
  {
    rank := bestRank;
    for r := 0 to |candidates|
      invariant rank <= bestRank
      invariant rank < bestRank ==> candidates[rank] == domain
      invariant forall k :: 0 <= k < r && k < rank ==> candidates[k] != domain
    {
      if candidates[r] == domain && r < rank {
        rank := r;
      }
    }
  }

  /** The lock keys that the lookup asks for: every candidate, with and without a final dot, in order and
      nothing else. */
  method LockKeys(candidates: seq<string>) returns (keys: seq<string>)
    ensures |keys| == 2 * |candidates|
    ensures forall i :: 0 <= i < |candidates| ==> keys[2 * i] == candidates[i] && keys[2 * i + 1] == candidates[i] + "."
    ensures forall key :: key in keys <==> exists i :: 0 <= i < |candidates| && IsKeyOf(key, candidates[i])
  {
    keys := [];
    for i := 0 to |candidates|
      invariant |keys| == 2 * i
      invariant forall k :: 0 <= k < i ==> keys[2 * k] == candidates[k] && keys[2 * k + 1] == candidates[k] + "."
    {
      keys := keys + [candidates[i], candidates[i] + "."];
    }
    forall key ensures key in keys <==> exists i :: 0 <= i < |candidates| && IsKeyOf(key, candidates[i]) {
      if key in keys {
        var n :| 0 <= n < |keys| && keys[n] == key;
        assert n == 2 * (n / 2) || n == 2 * (n / 2) + 1;
        assert IsKeyOf(key, candidates[n / 2]);
      }
      if i :| 0 <= i < |candidates| && IsKeyOf(key, candidates[i]) {
        assert key == keys[2 * i] || key == keys[2 * i + 1];
      }
    }
  }

  predicate IsKeyOf(key: string, candidate: string) {
    key == candidate || key == candidate + "."
  }

  /** findHTTPDomainClaim: in a conflict-free table the candidate lookup finds a claim exactly when one
      matches, and then the unique match with the fewest stars. */
  method FindDomainClaim(t: Table, host: string) returns (found: bool, best: nat)
    requires ConflictFree(t)
    ensures found ==> MostSpecific(t, host, best)
    ensures !found ==> forall i :: 0 <= i < |t| ==> !Hit(t[i], host)
  {
    hide Candidates, Canonical, Conflicting, ValidatePattern;
    var candidates := HttpDomainCandidates(host);
    if |candidates| == 0 {
      return false, 0;
    }
    var keys := LockKeys(candidates);
    var bestRank: nat := |candidates|;
    best := 0;
    for i := 0 to |t|
      invariant bestRank <= |candidates|
      invariant bestRank < |candidates| ==>
                best < i && ServerClaim(t[best]) && candidates[bestRank] == Canonical(t[best].domain)
      invariant forall k, r :: 0 <= k < i && ServerClaim(t[k]) && 0 <= r < bestRank ==>
                candidates[r] != Canonical(t[k].domain)
    {
      if ServerClaim(t[i]) && t[i].key in keys {
        var rank := Rank(candidates, Canonical(t[i].domain), bestRank);
        if rank < bestRank {
          best, bestRank := i, rank;
        }
      }
    }
    found := bestRank < |candidates|;
    LookupIsBest(t, host, best, bestRank);
  }

  lemma {:induction false} LookupIsBest(t: Table, host: string, best: nat, bestRank: nat)
    requires ConflictFree(t) && bestRank <= |Candidates(host)|
    requires bestRank < |Candidates(host)| ==>
               best < |t| && ServerClaim(t[best]) && Candidates(host)[bestRank] == Canonical(t[best].domain)
    requires forall k, r :: 0 <= k < |t| && ServerClaim(t[k]) && 0 <= r < bestRank ==>
              Candidates(host)[r] != Canonical(t[k].domain)
    ensures if bestRank < |Candidates(host)| then MostSpecific(t, host, best)
            else forall i :: 0 <= i < |t| ==> !Hit(t[i], host)
  {
    hide Candidates, Canonical, Conflicting, ValidatePattern;
    if bestRank < |Candidates(host)| {
      RankIsStarCount(t[best].domain, host, bestRank);
      forall j | 0 <= j < |t| && j != best && Hit(t[j], host)
          ensures StarCount(t[best].domain) < StarCount(t[j].domain) {
        var r :| 0 <= r < |Candidates(host)| && Candidates(host)[r] == Canonical(t[j].domain);
        RankIsStarCount(t[j].domain, host, r);
        MatchingClaimsAgree(t, host, best, j);
      }
    }
  }

  // ---------- the route ----------

  datatype Proxy = Proxy(http: bool, id: string, name: string, revision: int, domain: string)
  datatype Client = Client(id: string, owner: string, proxies: seq<Proxy>)

  /** Whether a running proxy may serve for a claim; without a claim every HTTP proxy may. */
  predicate Serves(client: Client, proxy: Proxy, claim: Option<Claim>) {
    && proxy.http
    && (claim.Some? ==>
          && client.id == claim.value.ownerClient && client.owner == claim.value.owner
          && (proxy.id == "" || proxy.id == claim.value.id) && proxy.name == claim.value.name
          && (proxy.revision <= 0 || proxy.revision == claim.value.revision)
          && Canonical(proxy.domain) == Canonical(claim.value.domain))
  }

  ghost predicate Available(clients: seq<Client>, host: string, claim: Option<Claim>, c: nat, p: nat) {
    && c < |clients| && p < |clients[c].proxies| && Serves(clients[c], clients[c].proxies[p], claim)
    && Matches(clients[c].proxies[p].domain, host)
  }

  /** An available proxy together with the place of its pattern among the candidates. */
  ghost predicate Ranked(clients: seq<Client>, host: string, claim: Option<Claim>, c: nat, p: nat, rank: nat) {
    && c < |clients| && p < |clients[c].proxies| && Serves(clients[c], clients[c].proxies[p], claim)
    && rank < |Candidates(host)| && Candidates(host)[rank] == Canonical(clients[c].proxies[p].domain)
  }

  lemma AvailableIsRanked(clients: seq<Client>, host: string, claim: Option<Claim>, c: nat, p: nat)
    ensures Available(clients, host, claim, c, p) <==> exists rank: nat :: Ranked(clients, host, claim, c, p, rank)
  {
    hide Candidates, Canonical;
    if Available(clients, host, claim, c, p) {
      var r :| 0 <= r < |Candidates(host)| && Candidates(host)[r] == Canonical(clients[c].proxies[p].domain);
      assert Ranked(clients, host, claim, c, p, r);
    }
  }

  /** findRuntimeHTTPRouteForClaim, over the clients and their proxies in any order: one is found
      when one is available, and no available one has a more specific pattern. */
  method FindRuntimeRoute(clients: seq<Client>, host: string, claim: Option<Claim>)
    returns (found: bool, atClient: nat, atProxy: nat, rank: nat)
    ensures found ==> Ranked(clients, host, claim, atClient, atProxy, rank)
    ensures forall c: nat, p: nat, r: nat :: Ranked(clients, host, claim, c, p, r) ==> found && rank <= r
  {
    hide Candidates, Canonical;
    var patterns := HttpDomainCandidates(host);
    rank := |patterns|;
    atClient, atProxy := 0, 0;
    for c := 0 to |clients|
      invariant rank <= |patterns|
      invariant rank < |patterns| ==> Ranked(clients, host, claim, atClient, atProxy, rank)
      invariant forall i: nat, p: nat, r: nat :: i < c && Ranked(clients, host, claim, i, p, r) ==> rank <= r
    {
      if claim.Some? && (clients[c].id != claim.value.ownerClient || clients[c].owner != claim.value.owner) {
        continue;
      }
      var proxies := clients[c].proxies;
      for p := 0 to |proxies|
        invariant rank <= |patterns|
        invariant rank < |patterns| ==> Ranked(clients, host, claim, atClient, atProxy, rank)
        invariant forall i: nat, q: nat, r: nat ::
                    (i < c || (i == c && q < p)) && Ranked(clients, host, claim, i, q, r) ==> rank <= r
      {
        if Serves(clients[c], proxies[p], claim) {
          var better := Rank(patterns, Canonical(proxies[p].domain), rank);
          if better < rank {
            atClient, atProxy, rank := c, p, better;
          }
        }
      }
    }
    found := rank < |patterns|;
  }

  datatype Route = NoRoute | Offline(claim: Claim) | Live(client: Client, proxy: Proxy)

  /** With a store the most specific claim decides alone: its own running proxy serves, or the answer
      is that this claim is offline; a broader claim never takes over. */
  ghost predicate RoutedByClaim(t: Table, clients: seq<Client>, host: string, best: nat, route: Route) {
    && MostSpecific(t, host, best)
    && (|| (&& route == Offline(t[best])
            && (t[best].running ==> forall c: nat, p: nat ::
                !Available(clients, CanonicalRouteHost(host), Some(t[best]), c, p)))
        || (&& route.Live? && t[best].running && Serves(route.client, route.proxy, Some(t[best]))
            && route.client in clients && route.proxy in route.client.proxies))
  }

  ghost predicate NobodyClaims(t: Table, host: string) {
    forall i :: 0 <= i < |t| ==> !Hit(t[i], host)
  }

  /** An HTTP proxy that matches, with no match of a more specific pattern. */
  ghost predicate BestAtRuntime(clients: seq<Client>, host: string, c: nat, p: nat, rank: nat) {
    && Ranked(clients, host, None, c, p, rank)
    && forall i: nat, q: nat, r: nat :: Ranked(clients, host, None, i, q, r) ==> rank <= r
  }

  /** Without a store the running proxies decide: no route exactly when none matches, else a best one. */
  ghost predicate RoutedAtRuntime(clients: seq<Client>, host: string, route: Route) {
    match route
    case Offline(_) => false
    case NoRoute => forall c: nat, p: nat :: !Available(clients, host, None, c, p)
    case Live(client, proxy) =>
      exists c: nat, p: nat, rank: nat ::
        BestAtRuntime(clients, host, c, p, rank) && client == clients[c] && proxy == clients[c].proxies[p]
  }

  /** findHTTPRouteByHost. */
  method FindRoute(store: Option<Table>, clients: seq<Client>, host: string) returns (route: Route)
    requires store.Some? ==> ConflictFree(store.value)
    ensures store.Some? && NobodyClaims(store.value, host) ==> route == NoRoute
    ensures store.Some? && !NobodyClaims(store.value, host) ==>
              exists best: nat :: RoutedByClaim(store.value, clients, host, best, route)
    ensures store.None? ==> RoutedAtRuntime(clients, CanonicalRouteHost(host), route)
  {
    hide Candidates, Canonical, Conflicting, CanonicalRouteHost;
    var canonical := CanonicalRouteHost(host);
    RefusedHostMatchesNothing(host);
    if canonical == "" {
      return NoRoute;
    }
    if store.None? {
      var found, c, p, rank := FindRuntimeRoute(clients, canonical, None);
      if found {
        assert BestAtRuntime(clients, canonical, c, p, rank);
        return Live(clients[c], clients[c].proxies[p]);
      }
      forall i: nat, q: nat ensures !Available(clients, canonical, None, i, q) {
        AvailableIsRanked(clients, canonical, None, i, q);
      }
      return NoRoute;
    }
    CandidatesOfCanonical(host);
    var found, best := FindDomainClaim(store.value, canonical);
    SameHits(store.value, host, canonical);
    if !found {
      return NoRoute;
    }
    assert MostSpecific(store.value, host, best);
    var claim := store.value[best];
    route := Offline(claim);
    if claim.running {
      var live, c, p, rank := FindRuntimeRoute(clients, canonical, Some(claim));
      if live {
        route := Live(clients[c], clients[c].proxies[p]);
      } else {
        forall i: nat, q: nat ensures !Available(clients, canonical, Some(claim), i, q) {
          AvailableIsRanked(clients, canonical, Some(claim), i, q);
        }
      }
    }
    assert RoutedByClaim(store.value, clients, host, best, route);
  }

  lemma RefusedHostMatchesNothing(host: string)
    ensures CanonicalRouteHost(host) == "" ==> Candidates(host) == []
    ensures CanonicalRouteHost("") == "" && Candidates("") == []
  {
    assert CanonicalRouteHost("") == "";
  }

  lemma {:induction false} CandidatesOfCanonical(host: string)
    requires CanonicalRouteHost(host) != ""
    ensures Candidates(CanonicalRouteHost(host)) == Candidates(host)
  {
    CanonicalRouteHostTwice(host);
    hide CanonicalRouteHost;
  }

  lemma SameHits(t: Table, host: string, canonical: string)
    requires Candidates(canonical) == Candidates(host)
    ensures forall c :: Hit(c, canonical) == Hit(c, host)
    ensures forall best: nat :: MostSpecific(t, canonical, best) == MostSpecific(t, host, best)
  {
    hide Candidates, Canonical;
  }

  /** A running HTTP proxy of the claim's own client and owner, with the claim's name and domain, and with its
      id and revision as far as the proxy knows them. */
  predicate Belongs(client: Client, proxy: Proxy, claim: Claim) {
    && proxy.http && client.id == claim.ownerClient && client.owner == claim.owner && proxy.name == claim.name
    && proxy.id in {"", claim.id} && (proxy.revision > 0 ==> proxy.revision == claim.revision)
    && Canonical(proxy.domain) == Canonical(claim.domain)
  }

  ghost predicate Online(clients: seq<Client>, claim: Claim) {
    exists c: nat, p: nat :: c < |clients| && p < |clients[c].proxies|
                             && Belongs(clients[c], clients[c].proxies[p], claim)
  }

  /** The host goes live to a proxy that belongs to the most specific claim, exactly when that claim is to run
      and such a proxy is online; its owner is then the owner of every claim that the host matches. */
  lemma {:induction false} LiveIffOnline(t: Table, clients: seq<Client>, host: string, best: nat, route: Route)
    requires ConflictFree(t) && RoutedByClaim(t, clients, host, best, route)
    ensures route.Live? <==> t[best].running && Online(clients, t[best])
    ensures route.Live? ==> Belongs(route.client, route.proxy, t[best])
    ensures route.Live? ==> forall j :: 0 <= j < |t| && Hit(t[j], host) ==> route.client.owner == t[j].owner
  {
    hide Canonical, Candidates, CanonicalRouteHost, Conflicting, WellFormed;
    RefusedHostMatchesNothing(host);
    assert Matches(t[best].domain, host);
    CandidatesOfCanonical(host);
    forall c: nat, p: nat | c < |clients| && p < |clients[c].proxies|
                            && Belongs(clients[c], clients[c].proxies[p], t[best])
      ensures Available(clients, CanonicalRouteHost(host), Some(t[best]), c, p)
    {
    }
    if route.Live? {
      assert Belongs(route.client, route.proxy, t[best]);
      forall j: nat | j < |t| && Hit(t[j], host) && j != best ensures t[j].owner == t[best].owner {
        MatchingClaimsAgree(t, host, best, j);
      }
    }
  }

  /** Without a store any HTTP proxy serves. */
  lemma ServesAlone(client: Client, proxy: Proxy)
    ensures Serves(client, proxy, None) <==> proxy.http
  {
  }
}
