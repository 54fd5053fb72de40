/** HTTP domain patterns: up to three leading stars and a fixed domain name
    (internal/server/http_domain.go, and validateDomain of internal/server/http_tunnel.go). */
module HttpDomain {
  import opened Strings
  import opened Decimal
  import opened HostAddress
  import opened Options

  const MAX_WILDCARDS: nat := 3

  function LowerChar(c: char): (r: char)
    ensures if 'A' <= c <= 'Z' then 'a' <= r <= 'z' && r as int - 'a' as int == c as int - 'A' as int else r == c
  {
    if 'A' <= c <= 'Z' then (c as int + 32) as char else c
  }

  function Lower(s: string): string {
    seq(|s|, i requires 0 <= i < |s| => LowerChar(s[i]))
  }

  function TrimDot(s: string): string {
    if |s| > 0 && s[|s| - 1] == '.' then s[..|s| - 1] else s
  }

  function Canonical(domain: string): string {
    TrimDot(Lower(domain))
  }

  function LabelsOf(domain: string): seq<string> {
    Split(Canonical(domain), '.')
  }

  // ---------- valid names ----------

  predicate LabelChar(c: char) {
    'a' <= c <= 'z' || '0' <= c <= '9' || c == '-'
  }

  predicate LabelOk(l: string) {
    && 1 <= |l| <= 63
    && l[0] != '-' && l[|l| - 1] != '-'
    && forall i :: 0 <= i < |l| ==> LabelChar(l[i])
  }

  /** A fully qualified name within the label and name limits of section 2.3.4 of RFC 1035. */
  predicate ValidName(labels: seq<string>) {
    && |labels| >= 2
    && (forall i :: 0 <= i < |labels| ==> LabelOk(labels[i]))
    && !IsIPv4(labels)
    && |Join(labels, '.')| <= 253
  }

  /** White space, a wildcard, a path, a query, a port. */
  predicate DomainRefuses(c: char) {
    c in " \t\r\n*/?#:"
  }

  /** validateDomain: the character checks on the raw text, then the checks on the labels. */
  predicate ValidateDomain(domain: string) {
    && domain != ""
    && (forall i :: 0 <= i < |domain| ==> !DomainRefuses(domain[i]))
    && ValidName(LabelsOf(domain))
  }

  function StarCount(domain: string): nat {
    if |domain| >= 2 && domain[0] == '*' && domain[1] == '.' then 1 + StarCount(domain[2..]) else 0
  }

  lemma StarsFit(domain: string)
    ensures 2 * StarCount(domain) <= |domain|
  {
  }

  function Suffix(domain: string): string {
    StarsFit(domain); domain[2 * StarCount(domain)..]
  }

  /** validateHTTPDomain. */
  predicate ValidatePattern(domain: string) {
    && |TrimDot(domain)| <= 253
    && StarCount(domain) <= MAX_WILDCARDS
    && '*' !in Suffix(domain)
    && ValidateDomain(Suffix(domain))
  }

  method ValidateHttpDomain(domain: string) returns (ok: bool)
    ensures ok == ValidatePattern(domain)
  {
    if |TrimDot(domain)| > 253 {
      return false;
    }
    var suffix, count := domain, 0;
    while |suffix| >= 2 && suffix[0] == '*' && suffix[1] == '.'
      invariant count + StarCount(suffix) == StarCount(domain)
      invariant 2 * count <= |domain| && suffix == domain[2 * count..]
    {
      count := count + 1;
      suffix := suffix[2..];
    }
    StarsFit(domain);
    assert suffix == Suffix(domain);
    if count > MAX_WILDCARDS {
      return false;
    }
    if '*' in suffix {
      return false;
    }
    ok := ValidateDomain(suffix);
  }

  // ---------- patterns as labels ----------

  function Stars(n: nat): seq<string> {
    seq(n, i requires 0 <= i < n => "*")
  }

  /** Labels of a valid pattern: some stars, then a valid name. */
  ghost predicate PatternLabels(labels: seq<string>, stars: nat) {
    && stars <= 3 && stars + 2 <= |labels|
    && labels[..stars] == Stars(stars)
    && (forall i :: stars <= i < |labels| ==> LabelOk(labels[i]))
    && !IsIPv4(labels[stars..])
    && |Join(labels, '.')| <= 253
  }

  lemma StarStepCanonical(rest: string)
    requires rest != ""
    ensures Canonical("*." + rest) == "*." + Canonical(rest)
  {
    assert Lower("*." + rest) == "*." + Lower(rest);
  }

  lemma StarLabel(rest: string)
    requires rest != ""
    ensures LabelsOf("*." + rest) == ["*"] + LabelsOf(rest)
  {
    hide Canonical;
    StarStepCanonical(rest);
    SplitConcat("*", Canonical(rest), '.');
    assert "*" + ['.'] + Canonical(rest) == "*." + Canonical(rest);
  }

  lemma {:induction false} StarsAreLabels(domain: string)
    requires Suffix(domain) != ""
    ensures LabelsOf(domain) == Stars(StarCount(domain)) + LabelsOf(Suffix(domain))
    decreases |domain|
  {
    hide LabelsOf;
    if StarCount(domain) == 0 {
      assert Suffix(domain) == domain;
    } else {
      var rest := domain[2..];
      StarsFit(rest);
      assert Suffix(rest) == Suffix(domain);
      StarsAreLabels(rest);
      assert domain == "*." + rest;
      StarLabel(rest);
      assert Stars(StarCount(domain)) == ["*"] + Stars(StarCount(rest));
    }
  }

  /** A validated pattern is its stars followed by the labels of a valid name. */
  lemma SuffixIsValid(domain: string)
    requires ValidatePattern(domain)
    ensures ValidName(LabelsOf(Suffix(domain))) && StarCount(domain) <= MAX_WILDCARDS && |Canonical(domain)| <= 253
    ensures Suffix(domain) != ""
  {
    assert |Canonical(domain)| <= |TrimDot(domain)|;
  }

  lemma {:induction false} ValidPatternLabels(domain: string)
    requires ValidatePattern(domain)
    ensures PatternLabels(LabelsOf(domain), StarCount(domain))
  {
    var n := StarCount(domain);
    var labels, rest := LabelsOf(domain), LabelsOf(Suffix(domain));
    SuffixIsValid(domain);
    StarsAreLabels(domain);
    JoinSplit(Canonical(domain), '.');
    assert Join(labels, '.') == Canonical(domain);
    hide ValidatePattern, IsIPv4, LabelOk, StarCount, Suffix, LabelsOf, Canonical, Split, Join;
    StarsThenName(labels, n, rest);
  }

  lemma StarsThenName(labels: seq<string>, n: nat, rest: seq<string>)
    requires labels == Stars(n) + rest && ValidName(rest) && n <= MAX_WILDCARDS && |Join(labels, '.')| <= 253
    ensures PatternLabels(labels, n)
  {
    hide IsIPv4, LabelOk, Join;
    assert labels[..n] == Stars(n) && labels[n..] == rest;
    forall i | n <= i < |labels| ensures LabelOk(labels[i]) {
      assert labels[i] == rest[i - n];
    }
  }

  // ---------- request hosts ----------

  /** The host that routing looks up, "" when the request is refused.  Of an authority with a port
      only the name is kept; brackets may stand only around an IP literal. */
  function CanonicalRouteHost(host: string): string {
    if host == "" || (exists i :: 0 <= i < |host| && AuthorityRefuses(host[i])) then ""
    else match SplitHostPort(host)
      case Some(pair) =>
        if (host[0] == '[' && !IsIP(pair.0)) || !PortOk(pair.1) then "" else RouteName(pair.0)
      case None =>
        if Bracketed(host) && (host[0] != '[' || host[|host| - 1] != ']') then ""
        else if (Bracketed(host) || ':' in host) && !IsIP(Unwrapped(host)) then ""
        else RouteName(host)
  }

  predicate AuthorityRefuses(c: char) {
    c in "* /\\?#@\t\r\n"
  }

  predicate Bracketed(host: string) {
    '[' in host || ']' in host
  }

  /** The text without one closing bracket at its end and one opening bracket at its front. */
  function Unwrapped(host: string): string {
    var s := if host != "" && host[|host| - 1] == ']' then host[..|host| - 1] else host;
    if s != "" && s[0] == '[' then s[1..] else s
  }

  predicate PortOk(port: string) {
    port != "" && AllDigits(port) && 1 <= Value(port) <= 65535
  }

  function RouteName(name: string): string {
    if |name| >= 2 && name[|name| - 2..] == ".." then ""
    else
      var h := Canonical(TrimBrackets(name));
      if IsIP(h) || h == "localhost" || ValidateDomain(h) then h else ""
  }

  /** The candidate with its first `count` labels replaced by stars. */
  function Candidate(labels: seq<string>, count: nat): string
    requires count < |labels|
  {
    Join(Stars(count) + labels[count..], '.')
  }

  function WildcardLimit(labels: seq<string>): int {
    if |labels| - 2 < MAX_WILDCARDS then |labels| - 2 else MAX_WILDCARDS
  }

  /** httpDomainCandidates: the host itself, then ever more general patterns. */
  function Candidates(host: string): seq<string> {
    var h := CanonicalRouteHost(host);
    if h == "" then []
    else
      var labels := Split(h, '.');
      if IsIP(h) || WildcardLimit(labels) < 1 then [h]
      else seq(WildcardLimit(labels) + 1,
               i requires 0 <= i <= WildcardLimit(labels) => if i == 0 then h else Candidate(labels, i))
  }

  method HttpDomainCandidates(host: string) returns (result: seq<string>)
    ensures result == Candidates(host)
  {
    hide CanonicalRouteHost, Split, IsIP, Candidate;
    var h := CanonicalRouteHost(host);
    if h == "" {
      return [];
    }
    result := [h];
    if IsIP(h) {
      return;
    }
    var labels := Split(h, '.');
    var count := 1;
    while count <= MAX_WILDCARDS && count <= |labels| - 2
      invariant 1 <= count && (count == 1 || count - 1 <= WildcardLimit(labels))
      invariant |result| == count && result[0] == h
      invariant forall i :: 1 <= i < count ==> result[i] == Candidate(labels, i)
    {
      result := result + [Candidate(labels, count)];
      count := count + 1;
    }
  }

  predicate Matches(pattern: string, host: string) {
    Canonical(pattern) in Candidates(host)
  }

  method HttpDomainMatches(pattern: string, host: string) returns (found: bool)
    ensures found == Matches(pattern, host)
  {
    hide Candidates, Canonical;
    var p := Canonical(pattern);
    var candidates := HttpDomainCandidates(host);
    for i := 0 to |candidates|
      invariant p !in candidates[..i]
    {
      if candidates[i] == p {
        return true;
      }
    }
    return false;
  }

  predicate Overlap(left: string, right: string) {
    LabelsOverlap(LabelsOf(left), LabelsOf(right))
  }

  predicate LabelsOverlap(a: seq<string>, b: seq<string>) {
    |a| == |b| && forall i :: 0 <= i < |a| ==> a[i] == "*" || b[i] == "*" || a[i] == b[i]
  }

  method HttpDomainsOverlap(left: string, right: string) returns (overlap: bool)
    ensures overlap == Overlap(left, right)
  {
    var a, b := LabelsOf(left), LabelsOf(right);
    if |a| != |b| {
      return false;
    }
    for i := 0 to |a|
      invariant forall k :: 0 <= k < i ==> a[k] == "*" || b[k] == "*" || a[k] == b[k]
    {
      if a[i] != "*" && b[i] != "*" && a[i] != b[i] {
        return false;
      }
    }
    return true;
  }

  predicate Conflict(left: string, leftOwner: string, right: string, rightOwner: string) {
    && Overlap(left, right)
    && (Canonical(left) == Canonical(right) || leftOwner == "" || rightOwner == "" || leftOwner != rightOwner)
  }

  // ---------- matching is label by label ----------

  /** "Each leading star is one label": the meaning of a pattern, said without candidates. */
  ghost predicate LabelWise(pattern: seq<string>, host: seq<string>) {
    |pattern| == |host| && forall i :: 0 <= i < |host| ==> pattern[i] == "*" || pattern[i] == host[i]
  }

  lemma LowerTwice(s: string)
    ensures Lower(Lower(s)) == Lower(s)
  {
  }

  lemma {:induction false} RouteNameIsCanonical(name: string)
    requires !(|name| >= 2 && name[|name| - 2..] == "..")
    ensures Canonical(Canonical(name)) == Canonical(name)
  {
    var h := Canonical(name);
    LowerTwice(name);
    assert Lower(h) == h;
    if |name| >= 2 {
      TwoDots(name);
    }
  }

  lemma TwoDots(name: string)
    requires |name| >= 2
    ensures name[|name| - 2..] == ".." <==> Lower(name)[|name| - 1] == '.' && Lower(name)[|name| - 2] == '.'
  {
    var end := name[|name| - 2..];
    assert end == [name[|name| - 2], name[|name| - 1]];
  }

  lemma TrimNothing(s: string)
    requires !Bracketed(s)
    ensures TrimBrackets(s) == s
  {
  }

  lemma TrimClosing(s: string)
    requires s != "" && !Bracketed(s) && TrimBrackets(s) == s
    ensures TrimBrackets(s + "]") == s
  {
    assert (s + "]")[..|s|] == s;
  }

  lemma TrimAddress(host: string)
    requires host != "" && host[0] == '[' && host[|host| - 1] == ']' && IsIP(Unwrapped(host))
    ensures TrimBrackets(host) == Unwrapped(host)
  {
    hide IsIP, AddressText;
    var ip := Unwrapped(host);
    AddressChars(ip);
    TrimNothing(ip);
    assert host[1..] == ip + "]";
    TrimClosing(ip);
  }

  lemma AddressChars(s: string)
    requires IsIP(s)
    ensures s != "" && s[|s| - 1] != '.' && !Bracketed(s)
    ensures AddressText(s)
  {
    if IsIPv6(s) {
      IPv6Chars(s);
    } else {
      IPv4Chars(s);
    }
  }

  /** The name within an authority that routing accepts. */
  lemma RoutedName(host: string) returns (name: string)
    requires CanonicalRouteHost(host) != ""
    ensures CanonicalRouteHost(host) == Canonical(name) && !(|name| >= 2 && name[|name| - 2..] == "..")
    ensures var h := CanonicalRouteHost(host); IsIP(h) || h == "localhost" || ValidateDomain(h)
  {
    hide IsIP, ValidateDomain, Canonical, AuthorityRefuses, PortOk;
    match SplitHostPort(host)
    case Some(pair) =>
      name := pair.0;
      TrimNothing(name);
    case None =>
      if Bracketed(host) {
        name := Unwrapped(host);
        TrimAddress(host);
        AddressChars(name);
      } else {
        name := host;
        TrimNothing(name);
      }
  }

  /** A routed host is canonical already, and it is an IP literal, "localhost" or a valid name. */
  lemma {:induction false} RouteHostLabels(host: string)
    requires CanonicalRouteHost(host) != ""
    ensures var h := CanonicalRouteHost(host);
            && Canonical(h) == h && LabelsOf(h) == Split(h, '.')
            && (IsIP(h) || Split(h, '.') == ["localhost"] || ValidName(Split(h, '.')))
  {
    var h := CanonicalRouteHost(host);
    hide CanonicalRouteHost, Canonical, Split, IsIP, ValidName;
    var name := RoutedName(host);
    RouteNameIsCanonical(name);
    SplitPlain("localhost", '.');
  }

  lemma {:induction false} CandidateLabels(labels: seq<string>, count: nat)
    requires count < |labels| && forall i :: 0 <= i < |labels| ==> '.' !in labels[i]
    ensures Split(Candidate(labels, count), '.') == Stars(count) + labels[count..]
  {
    var parts := Stars(count) + labels[count..];
    assert forall i :: 0 <= i < |parts| ==> '.' !in parts[i];
    SplitJoin(parts, '.');
  }

  lemma PatternIsNoIP(pattern: string)
    requires PatternLabels(LabelsOf(pattern), StarCount(pattern))
    ensures !IsIP(Canonical(pattern))
  {
    var labels, stars, text := LabelsOf(pattern), StarCount(pattern), Canonical(pattern);
    if stars == 0 {
      assert labels[0..] == labels;
    } else {
      assert labels[0] == labels[..stars][0] == "*";
      assert !IsDigit(labels[0][0]);
    }
    forall i | 0 <= i < |labels| ensures ':' !in labels[i] {
      if i < stars {
        assert labels[i] == labels[..stars][i] == "*";
      } else {
        assert LabelOk(labels[i]) && !LabelChar(':');
      }
    }
    SplitChars(text, '.', ':');
    if IsIPv6(text) {
      IPv6Chars(text);
    }
  }

  lemma {:induction false} CandidateAt(host: string, k: nat)
    requires k < |Candidates(host)|
    ensures var labels := Split(CanonicalRouteHost(host), '.');
            k < |labels| && Split(Candidates(host)[k], '.') == Stars(k) + labels[k..]
  {
    hide CanonicalRouteHost, IsIP;
    var labels := Split(CanonicalRouteHost(host), '.');
    if k > 0 {
      assert Candidates(host)[k] == Candidate(labels, k);
      CandidateLabels(labels, k);
    } else {
      assert Stars(0) + labels[0..] == labels;
    }
  }

  lemma {:induction false} MatchedIsLabelWise(pattern: string, host: string)
    requires ValidatePattern(pattern) && Matches(pattern, host)
    ensures var h := CanonicalRouteHost(host);
            h != "" && !IsIP(h) && LabelWise(LabelsOf(pattern), Split(h, '.'))
  {
    hide CanonicalRouteHost, ValidatePattern, IsIP, IsIPv4, Stars, Candidates, Canonical, Split, Join;
    ValidPatternLabels(pattern);
    PatternIsNoIP(pattern);
    var k :| 0 <= k < |Candidates(host)| && Candidates(host)[k] == Canonical(pattern);
    CandidateAt(host, k);
    StarsAt(k);
    OnlyHostWhenIP(host);
  }

  lemma OnlyHostWhenIP(host: string)
    ensures var h := CanonicalRouteHost(host);
            && (h == "" ==> Candidates(host) == [])
            && (h != "" && IsIP(h) ==> Candidates(host) == [h])
  {
    hide CanonicalRouteHost, IsIP, Split;
  }

  lemma StarsAt(n: nat)
    ensures |Stars(n)| == n && forall i :: 0 <= i < n ==> Stars(n)[i] == "*"
  {
  }

  lemma {:induction false} LabelWiseIsCandidate(p: seq<string>, stars: nat, labels: seq<string>)
    requires PatternLabels(p, stars) && LabelWise(p, labels)
    ensures p == Stars(stars) + labels[stars..]
  {
    hide IsIPv4, Join;
    forall i | stars <= i < |p| ensures p[i] == labels[i] {
      assert LabelOk(p[i]) && !LabelChar('*');
    }
  }

  lemma {:induction false} LabelWiseIsMatched(pattern: string, host: string)
    requires ValidatePattern(pattern) && CanonicalRouteHost(host) != ""
    requires var h := CanonicalRouteHost(host); !IsIP(h) && LabelWise(LabelsOf(pattern), Split(h, '.'))
    ensures Matches(pattern, host)
  {
    hide CanonicalRouteHost, ValidatePattern, ValidName, IsIP, IsIPv4;
    var h := CanonicalRouteHost(host);
    var labels, n := Split(h, '.'), StarCount(pattern);
    ValidPatternLabels(pattern);
    LabelWiseIsCandidate(LabelsOf(pattern), n, labels);
    JoinSplit(Canonical(pattern), '.');
    if n == 0 {
      assert Stars(0) + labels[0..] == labels;
      JoinSplit(h, '.');
      assert Candidates(host)[0] == h;
    } else {
      assert Candidates(host)[n] == Candidate(labels, n) == Canonical(pattern);
    }
  }

  /** For every host whatsoever, a valid pattern matches exactly when the host is routable, is no IP
      literal, and agrees with the pattern label by label. */
  lemma {:induction false} MatchesIsLabelWise(pattern: string, host: string)
    requires ValidatePattern(pattern)
    ensures var h := CanonicalRouteHost(host);
            Matches(pattern, host) <==> h != "" && !IsIP(h) && LabelWise(LabelsOf(pattern), Split(h, '.'))
  {
    hide CanonicalRouteHost, ValidatePattern, IsIP, Matches;
    if Matches(pattern, host) {
      MatchedIsLabelWise(pattern, host);
    } else {
      var h := CanonicalRouteHost(host);
      if h != "" && !IsIP(h) && LabelWise(LabelsOf(pattern), Split(h, '.')) {
        LabelWiseIsMatched(pattern, host);
      }
    }
  }

  // ---------- overlap means a common host ----------

  /** The host that fits both: the labels of the pattern with fewer stars, its stars made "a". */
  function Witness(labels: seq<string>, stars: nat): seq<string>
    requires stars <= |labels|
  {
    seq(stars, i requires 0 <= i < stars => "a") + labels[stars..]
  }

  lemma {:induction false} JoinLength(a: seq<string>, b: seq<string>)
    requires |a| == |b| >= 1 && forall i :: 0 <= i < |a| ==> |a[i]| == |b[i]|
    ensures |Join(a, '.')| == |Join(b, '.')|
  {
    if |a| > 1 {
      JoinLength(a[1..], b[1..]);
    }
  }

  lemma {:induction false} WitnessIsValid(labels: seq<string>, stars: nat)
    requires PatternLabels(labels, stars)
    ensures ValidName(Witness(labels, stars))
  {
    var w := Witness(labels, stars);
    StarsAt(stars);
    assert forall i :: 0 <= i < stars ==> labels[i] == labels[..stars][i] == "*" && w[i] == "a";
    assert forall i :: stars <= i < |labels| ==> w[i] == labels[i];
    JoinLength(w, labels);
    assert LabelOk("a");
    if stars == 0 {
      assert w == labels[0..];
    } else {
      assert !IsDigit(w[0][0]);
    }
  }

  ghost predicate PlainLabels(labels: seq<string>) {
    |labels| >= 1 && forall i, k :: 0 <= i < |labels| && 0 <= k < |labels[i]| ==> LabelChar(labels[i][k])
  }

  lemma NameChars(labels: seq<string>)
    requires PlainLabels(labels)
    ensures forall i :: 0 <= i < |labels| ==> '.' !in labels[i]
    ensures var h := Join(labels, '.'); forall i :: 0 <= i < |h| ==> LabelChar(h[i]) || h[i] == '.'
  {
    var h := Join(labels, '.');
    forall i | 0 <= i < |labels| ensures '.' !in labels[i] {
      assert !LabelChar('.');
    }
    SplitJoin(labels, '.');
    forall i | 0 <= i < |h| && h[i] != '.' ensures LabelChar(h[i]) {
      SplitChars(h, '.', h[i]);
      var k :| 0 <= k < |labels| && h[i] in labels[k];
    }
  }

  lemma {:induction false} ValidNameIsCanonical(labels: seq<string>)
    requires ValidName(labels)
    ensures var h := Join(labels, '.');
            && h != "" && Canonical(h) == h && Split(h, '.') == labels
            && (forall i :: 0 <= i < |h| ==> LabelChar(h[i]) || h[i] == '.') && h[|h| - 1] != '.'
  {
    var h := Join(labels, '.');
    var final := labels[|labels| - 1];
    assert LabelOk(final) && LabelChar(final[|final| - 1]);
    JoinLast(labels, '.');
    assert PlainLabels(labels) by {
      assert forall i :: 0 <= i < |labels| ==> LabelOk(labels[i]);
    }
    NameChars(labels);
    SplitJoin(labels, '.');
    hide Join, ValidName;
    assert Lower(h) == h;
  }

  lemma NameCharAllowed(c: char)
    requires LabelChar(c) || c == '.'
    ensures !DomainRefuses(c) && !AuthorityRefuses(c) && c !in "[]:"
  {
  }

  ghost predicate PlainHost(h: string) {
    && h != "" && h[|h| - 1] != '.' && Canonical(h) == h
    && forall i :: 0 <= i < |h| ==> LabelChar(h[i]) || h[i] == '.'
  }

  lemma {:induction false} PlainHostRoutes(h: string)
    requires PlainHost(h)
    ensures CanonicalRouteHost(h) == RouteName(h) && TrimBrackets(h) == h
    ensures forall i :: 0 <= i < |h| ==> !DomainRefuses(h[i])
  {
    hide Split, Canonical, IsIP, LabelChar, DomainRefuses, AuthorityRefuses, RouteName;
    forall i | 0 <= i < |h| ensures !DomainRefuses(h[i]) && !AuthorityRefuses(h[i]) && h[i] !in "[]:" {
      NameCharAllowed(h[i]);
    }
    TrimNothing(h);
  }

  lemma NoColonIsNoIPv6(h: string)
    requires forall i :: 0 <= i < |h| ==> LabelChar(h[i]) || h[i] == '.'
    ensures !IsIPv6(h)
  {
    assert !LabelChar(':');
    if IsIPv6(h) {
      IPv6Chars(h);
    }
  }

  /** The text of a valid name is a host that routing takes as it is. */
  lemma {:induction false} ValidNameRoutes(labels: seq<string>)
    requires ValidName(labels)
    ensures var h := Join(labels, '.');
            ValidateDomain(h) && CanonicalRouteHost(h) == h && Split(h, '.') == labels && h != "" && !IsIP(h)
  {
    hide Join, Split, Canonical, IsIP, IsIPv4, LabelOk, LabelChar;
    hide CanonicalRouteHost, DomainRefuses, ValidateDomain, RouteName;
    var h := Join(labels, '.');
    ValidNameIsCanonical(labels);
    PlainHostRoutes(h);
    NameIsNoIP(h, labels);
    NameIsDomain(h, labels);
    NameRoutesItself(h);
  }

  lemma NameIsNoIP(h: string, labels: seq<string>)
    requires ValidName(labels) && Split(h, '.') == labels
    requires forall i :: 0 <= i < |h| ==> LabelChar(h[i]) || h[i] == '.'
    ensures !IsIP(h)
  {
    hide IsIPv6, LabelChar, IsIPv4, Split;
    NoColonIsNoIPv6(h);
  }

  lemma NameIsDomain(h: string, labels: seq<string>)
    requires ValidName(labels) && Split(h, '.') == labels && h != "" && Canonical(h) == h
    requires forall i :: 0 <= i < |h| ==> !DomainRefuses(h[i])
    ensures ValidateDomain(h)
  {
    hide ValidName, Split, Canonical, DomainRefuses;
  }

  lemma NameRoutesItself(h: string)
    requires ValidateDomain(h) && TrimBrackets(h) == h && Canonical(h) == h && h != "" && h[|h| - 1] != '.'
    ensures RouteName(h) == h
  {
    hide ValidateDomain, TrimBrackets, Canonical, IsIP;
  }

  lemma OverlapWitness(left: seq<string>, l: nat, right: seq<string>, r: nat)
    requires PatternLabels(left, l) && PatternLabels(right, r) && LabelsOverlap(left, right) && l <= r
    ensures LabelWise(left, Witness(left, l)) && LabelWise(right, Witness(left, l))
  {
    hide IsIPv4, Join;
    StarsAt(l);
    StarsAt(r);
    var w := Witness(left, l);
    forall i | 0 <= i < |w| ensures (left[i] == "*" || left[i] == w[i]) && (right[i] == "*" || right[i] == w[i]) {
      if i < l {
        assert left[i] == left[..l][i] && right[i] == right[..r][i];
      } else if i < r {
        assert right[i] == right[..r][i];
      } else {
        assert LabelOk(left[i]) && LabelOk(right[i]) && !LabelChar('*');
      }
    }
  }

  lemma {:induction false} CommonHost(left: string, right: string) returns (host: string)
    requires ValidatePattern(left) && ValidatePattern(right) && Overlap(left, right)
    requires StarCount(left) <= StarCount(right)
    ensures ValidateDomain(host) && CanonicalRouteHost(host) == host && Matches(left, host) && Matches(right, host)
  {
    hide CanonicalRouteHost, ValidatePattern, IsIP, IsIPv4, Matches, ValidateDomain;
    var l, r := StarCount(left), StarCount(right);
    ValidPatternLabels(left);
    ValidPatternLabels(right);
    var w := Witness(LabelsOf(left), l);
    WitnessIsValid(LabelsOf(left), l);
    ValidNameRoutes(w);
    OverlapWitness(LabelsOf(left), l, LabelsOf(right), r);
    host := Join(w, '.');
    MatchesIsLabelWise(left, host);
    MatchesIsLabelWise(right, host);
  }

  /** Two valid patterns overlap exactly when some valid host, which is then no IP literal, is
      matched by both. */
  lemma {:induction false} OverlapIffCommonHost(left: string, right: string)
    requires ValidatePattern(left) && ValidatePattern(right)
    ensures Overlap(left, right) <==>
              exists host :: ValidateDomain(host) && CanonicalRouteHost(host) == host && Matches(left, host) &&
                  Matches(right, host)
  {
    hide CanonicalRouteHost, ValidatePattern, IsIP, Matches, ValidateDomain;
    if Overlap(left, right) {
      if StarCount(left) <= StarCount(right) {
        var host := CommonHost(left, right);
      } else {
        var host := CommonHost(right, left);
      }
    }
    forall host | Matches(left, host) && Matches(right, host) ensures Overlap(left, right) {
      MatchesIsLabelWise(left, host);
      MatchesIsLabelWise(right, host);
    }
  }

  lemma AddressIsPlain(labels: seq<string>)
    requires IsIPv4(labels) || labels == ["localhost"]
    ensures PlainLabels(labels)
  {
  }

  lemma NoHostAndPort(h: string, i: nat, j: nat)
    requires !Bracketed(h) && i < j < |h| && h[i] == h[j] == ':'
    ensures SplitHostPort(h) == None
  {
    assert h[..LastColon(h)][i] == ':';
  }

  lemma AddressAllowed(h: string)
    requires AddressText(h)
    ensures !Bracketed(h) && forall i :: 0 <= i < |h| ==> !AuthorityRefuses(h[i])
  {
    forall i | 0 <= i < |h| ensures !AuthorityRefuses(h[i]) && h[i] !in "[]" {
      assert AddressChar(h[i]);
    }
  }

  lemma IPv6Routes(h: string)
    requires IsIPv6(h) && Canonical(h) == h
    ensures CanonicalRouteHost(h) == h
  {
    hide IsIPv6, Split, Canonical, AuthorityRefuses, SplitHostPort, Unwrapped, TrimBrackets, AddressText,
        ValidateDomain, IsIPv4, Bracketed;
    IPv6Chars(h);
    AddressAllowed(h);
    TrimNothing(h);
    NothingToUnwrap(h);
    var i, j :| 0 <= i < j < |h| && h[i] == h[j] == ':';
    NoHostAndPort(h, i, j);
    hide CanonicalRouteHost;
    assert RouteName(h) == h;
    hide RouteName;
    UnsplitRoutes(h);
  }

  lemma NothingToUnwrap(h: string)
    requires !Bracketed(h)
    ensures Unwrapped(h) == h
  {
  }

  lemma UnsplitRoutes(h: string)
    requires SplitHostPort(h) == None && !Bracketed(h) && Unwrapped(h) == h && IsIP(h) && h != ""
    requires forall i :: 0 <= i < |h| ==> !AuthorityRefuses(h[i])
    ensures CanonicalRouteHost(h) == RouteName(h)
  {
    hide SplitHostPort, Bracketed, Unwrapped, IsIP, AuthorityRefuses, RouteName;
  }

  /** Looking up a host that is canonical already changes nothing. */
  lemma {:induction false} CanonicalRouteHostTwice(host: string)
    requires CanonicalRouteHost(host) != ""
    ensures CanonicalRouteHost(CanonicalRouteHost(host)) == CanonicalRouteHost(host)
  {
    var h := CanonicalRouteHost(host);
    var labels := Split(h, '.');
    JoinSplit(h, '.');
    assert labels == ["localhost"] ==> h == "localhost";
    hide CanonicalRouteHost, Join, IsIPv6;
    RouteHostLabels(host);
    if ValidName(labels) {
      ValidNameRoutes(labels);
    } else if IsIPv6(h) {
      IPv6Routes(h);
    } else {
      hide ValidName;
      AddressIsPlain(labels);
      hide IsIPv4;
      NameChars(labels);
      hide PlainLabels, LabelChar;
      assert PlainHost(h);
      hide Split;
      PlainHostRoutes(h);
    }
  }

  // ---------- which texts are patterns ----------

  /** A valid name in plain words: the limits of section 2.3.4 of RFC 1035, letters, digits and inner hyphens,
      and no IPv4 literal. */
  lemma ValidNameMeans(labels: seq<string>)
    ensures ValidName(labels) <==>
      && |labels| >= 2 && |Join(labels, '.')| <= 253
      && !(|labels| == 4 && forall i :: 0 <= i < 4 ==> IsOctet(labels[i]))
      && forall i :: 0 <= i < |labels| ==>
           && 1 <= |labels[i]| <= 63 && labels[i][0] != '-' && labels[i][|labels[i]| - 1] != '-'
           && forall k :: 0 <= k < |labels[i]| ==>
                'a' <= labels[i][k] <= 'z' || '0' <= labels[i][k] <= '9' || labels[i][k] == '-'
  {
    hide IsOctet, Join;
  }

  function StarText(n: nat): string {
    if n == 0 then "" else "*." + StarText(n - 1)
  }

  lemma {:induction false} JoinStars(labels: seq<string>, n: nat)
    requires n < |labels| && labels[..n] == Stars(n)
    ensures Join(labels, '.') == StarText(n) + Join(labels[n..], '.')
  {
    if n == 0 {
      assert labels[0..] == labels;
    } else {
      var rest := labels[1..];
      assert labels[0] == labels[..n][0] == "*";
      assert rest[..n - 1] == labels[..n][1..] == Stars(n - 1);
      JoinStars(rest, n - 1);
      assert rest[n - 1..] == labels[n..];
    }
  }

  lemma {:induction false} StarTextCount(n: nat, name: string)
    requires StarCount(name) == 0
    ensures StarCount(StarText(n) + name) == n && Suffix(StarText(n) + name) == name
  {
    var s := StarText(n) + name;
    StarsFit(s);
    if n > 0 {
      var rest := StarText(n - 1) + name;
      StarTextCount(n - 1, name);
      assert s == "*." + rest && s[2..] == rest;
      StarsFit(rest);
      assert s[2 * n..] == rest[2 * (n - 1)..];
    }
  }

  /** Up to three stars followed by a valid name, within 253 characters, are accepted as a pattern. */
  lemma {:induction false} PatternTextIsValid(labels: seq<string>, stars: nat)
    requires PatternLabels(labels, stars)
    ensures ValidatePattern(Join(labels, '.')) && StarCount(Join(labels, '.')) == stars
  {
    var fixed := labels[stars..];
    var text, name := Join(labels, '.'), Join(fixed, '.');
    JoinStars(labels, stars);
    FixedIsName(labels, stars);
    hide Join, LabelOk, IsIPv4;
    ValidNameRoutes(fixed);
    ValidNameIsCanonical(fixed);
    NoStars(name);
    StarTextCount(stars, name);
  }

  lemma FixedIsName(labels: seq<string>, stars: nat)
    requires PatternLabels(labels, stars) && |Join(labels[stars..], '.')| <= |Join(labels, '.')|
    ensures ValidName(labels[stars..])
  {
    hide LabelOk, IsIPv4, Join;
  }

  lemma NoStars(name: string)
    requires forall i :: 0 <= i < |name| ==> LabelChar(name[i]) || name[i] == '.'
    ensures '*' !in name && StarCount(name) == 0
  {
  }

  /** For texts in canonical form, being a valid pattern is nothing but this. */
  lemma {:induction false} ValidPatternIff(domain: string)
    requires Canonical(domain) == domain
    ensures ValidatePattern(domain) <==> PatternLabels(LabelsOf(domain), StarCount(domain))
  {
    hide ValidatePattern, PatternLabels, Canonical;
    if ValidatePattern(domain) {
      ValidPatternLabels(domain);
    }
    if PatternLabels(LabelsOf(domain), StarCount(domain)) {
      PatternTextIsValid(LabelsOf(domain), StarCount(domain));
      JoinSplit(domain, '.');
    }
  }

  /** Two valid patterns conflict exactly when some host is matched by both, and either they are the same
      pattern or they do not belong to one known owner. */
  lemma {:induction false} ConflictMeans(left: string, leftOwner: string, right: string, rightOwner: string)
    requires ValidatePattern(left) && ValidatePattern(right)
    ensures Conflict(left, leftOwner, right, rightOwner) <==>
      && (exists host :: ValidateDomain(host) && CanonicalRouteHost(host) == host
                         && Matches(left, host) && Matches(right, host))
      && (Canonical(left) == Canonical(right) || !(leftOwner == rightOwner && leftOwner != ""))
  {
    hide CanonicalRouteHost, ValidatePattern, Matches, ValidateDomain, Overlap, Canonical;
    OverlapIffCommonHost(left, right);
  }
}
