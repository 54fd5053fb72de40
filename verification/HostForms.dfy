/** The forms in which a request names a host, and the host that routing takes from each: with a port, in
    brackets, with a final dot, in another case (canonicalHTTPRouteHost of internal/server/http_domain.go). */
module HostForms {
  import opened Options
  import opened Strings
  import opened Decimal
  import opened HostAddress
  import opened HttpDomain

  // ---------- letters in another case ----------

  lemma LowerAt(c: char)
    ensures AuthorityRefuses(LowerChar(c)) == AuthorityRefuses(c) && IsHex(LowerChar(c)) == IsHex(c)
    ensures (LowerChar(c) == ':' <==> c == ':') && (LowerChar(c) == '.' <==> c == '.')
    ensures (LowerChar(c) == '[' <==> c == '[') && (LowerChar(c) == ']' <==> c == ']')
    ensures IsDigit(LowerChar(c)) <==> IsDigit(c)
    ensures IsDigit(c) || c == '.' ==> LowerChar(c) == c
  {
  }

  lemma LowerDrop(s: string, i: nat)
    requires i <= |s|
    ensures |Lower(s)| == |s| && Lower(s)[i..] == Lower(s[i..])
  {
  }

  lemma LowerTake(s: string, i: nat)
    requires i <= |s|
    ensures |Lower(s)| == |s| && Lower(s)[..i] == Lower(s[..i])
  {
  }

  lemma LowerMembers(s: string, m: char)
    requires m in ":[]"
    ensures m in Lower(s) <==> m in s
  {
    forall i | 0 <= i < |s| ensures Lower(s)[i] == m <==> s[i] == m {
      LowerAt(s[i]);
    }
    if m in s {
      var i :| 0 <= i < |s| && s[i] == m;
      assert Lower(s)[i] == m;
    }
  }

  lemma {:induction false} LowerLastColon(s: string)
    ensures LastColon(Lower(s)) == LastColon(s)
  {
    if s != "" {
      LowerAt(s[|s| - 1]);
      LowerTake(s, |s| - 1);
      LowerLastColon(s[..|s| - 1]);
    }
  }

  lemma {:induction false} LowerFirstClose(s: string)
    ensures FirstClose(Lower(s)) == FirstClose(s)
  {
    if s != "" {
      LowerAt(s[0]);
      LowerDrop(s, 1);
      LowerFirstClose(s[1..]);
    }
  }

  lemma {:induction false} LowerTrimBrackets(s: string)
    ensures TrimBrackets(Lower(s)) == Lower(TrimBrackets(s))
    decreases |s|
  {
    if s != "" {
      LowerAt(s[0]);
      LowerAt(s[|s| - 1]);
      LowerDrop(s, 1);
      LowerTake(s, |s| - 1);
      if s[0] == '[' || s[0] == ']' {
        LowerTrimBrackets(s[1..]);
      } else if s[|s| - 1] == '[' || s[|s| - 1] == ']' {
        LowerTrimBrackets(s[..|s| - 1]);
      }
    }
  }

  lemma {:induction false} LowerHexRun(s: string)
    ensures HexRun(Lower(s)) == HexRun(s)
  {
    if s != "" {
      LowerAt(s[0]);
      LowerDrop(s, 1);
      LowerHexRun(s[1..]);
    }
  }

  /** A text of digits and dots has no case. */
  lemma LowerIPv4(s: string)
    ensures IsIPv4(Split(Lower(s), '.')) <==> IsIPv4(Split(s, '.'))
  {
    hide IsIPv4, Split, IsDigit;
    if IsIPv4(Split(s, '.')) || IsIPv4(Split(Lower(s), '.')) {
      forall i | 0 <= i < |s| ensures LowerChar(s[i]) == s[i] {
        LowerAt(s[i]);
        if IsIPv4(Split(s, '.')) {
          IPv4Char(s, s[i]);
        } else {
          assert Lower(s)[i] in Lower(s);
          IPv4Char(Lower(s), Lower(s)[i]);
        }
      }
      assert Lower(s) == s;
    }
  }

  lemma LowerIndex(s: string, i: nat)
    requires i < |s|
    ensures |Lower(s)| == |s| && Lower(s)[i] == LowerChar(s[i])
  {
  }

  lemma {:induction false} LowerGroups(s: string, bytes: nat, ellipsis: bool)
    ensures Groups(Lower(s), bytes, ellipsis) <==> Groups(s, bytes, ellipsis)
    decreases |s|
  {
    hide IsIPv4, Split, Lower, LowerChar, HexRun;
    LowerHexRun(s);
    LowerIPv4(s);
    var n := HexRun(s);
    var rest := s[n..];
    LowerDrop(s, n);
    if bytes < 16 && 0 < n <= 4 && rest != "" {
      LowerIndex(rest, 0);
      LowerAt(rest[0]);
      if rest[0] == ':' && |rest| > 1 {
        LowerIndex(rest, 1);
        LowerAt(rest[1]);
        LowerDrop(rest, 1);
        LowerDrop(rest, 2);
        LowerGroups(rest[1..], bytes + 2, ellipsis);
        LowerGroups(rest[2..], bytes + 2, true);
      }
    }
  }

  lemma LowerIsIP(s: string)
    ensures IsIP(Lower(s)) <==> IsIP(s)
  {
    hide IsIPv4, Split, Groups;
    LowerIPv4(s);
    LowerGroups(s, 0, false);
    if |s| >= 2 {
      LowerAt(s[0]);
      LowerAt(s[1]);
      LowerDrop(s, 2);
      LowerGroups(s[2..], 0, true);
    }
  }

  lemma LowerPort(p: string)
    ensures PortOk(Lower(p)) <==> PortOk(p)
  {
    forall i | 0 <= i < |p| ensures IsDigit(Lower(p)[i]) <==> IsDigit(p[i]) {
      LowerAt(p[i]);
    }
    if AllDigits(p) {
      forall i | 0 <= i < |p| ensures LowerChar(p[i]) == p[i] {
        LowerAt(p[i]);
      }
      assert Lower(p) == p;
    }
  }

  lemma LowerRouteName(name: string)
    ensures RouteName(Lower(name)) == RouteName(name)
  {
    hide IsIP, ValidateDomain, TrimBrackets;
    LowerTrimBrackets(name);
    LowerTwice(TrimBrackets(name));
    if |name| >= 2 {
      TwoDots(name);
      TwoDots(Lower(name));
      LowerTwice(name);
    }
  }

  /** The host and port of an authority in another case. */
  function LowerPair(pair: Option<(string, string)>): Option<(string, string)> {
    match pair
    case None => None
    case Some(p) => Some((Lower(p.0), Lower(p.1)))
  }

  lemma LowerSplitHostPort(s: string)
    ensures SplitHostPort(Lower(s)) == LowerPair(SplitHostPort(s))
  {
    hide Lower;
    LowerSize(s);
    LowerLastColon(s);
    LowerFirstClose(s);
    var i := LastColon(s);
    if i >= 0 {
      LowerHead(s);
      LowerTake(s, i);
      LowerDrop(s, i + 1);
      LowerMembers(s[..i], ':');
      LowerMembers(s, '[');
      LowerMembers(s, ']');
      LowerDrop(s, 1);
      LowerMembers(s[1..], '[');
      var end := FirstClose(s);
      if end + 1 == i {
        LowerDrop(s, end + 1);
        LowerMembers(s[end + 1..], ']');
        if s[0] == '[' {
          LowerTake(s, end);
          LowerDrop(s[..end], 1);
        }
      }
    }
  }

  lemma LowerSize(s: string)
    ensures |Lower(s)| == |s|
  {
  }

  lemma LowerHead(s: string)
    requires s != ""
    ensures |Lower(s)| == |s| && (Lower(s)[0] == '[' <==> s[0] == '[')
    ensures Lower(s)[|s| - 1] == ']' <==> s[|s| - 1] == ']'
  {
    LowerAt(s[0]);
    LowerAt(s[|s| - 1]);
  }

  lemma LowerUnwrapped(s: string)
    ensures Unwrapped(Lower(s)) == Lower(Unwrapped(s))
  {
    if s != "" {
      LowerHead(s);
      LowerTake(s, |s| - 1);
      if |s| > 1 && s[|s| - 1] == ']' {
        LowerHead(s[..|s| - 1]);
        LowerDrop(s[..|s| - 1], 1);
      }
      LowerDrop(s, 1);
    }
  }

  lemma LowerRefused(s: string)
    ensures (exists i :: 0 <= i < |Lower(s)| && AuthorityRefuses(Lower(s)[i])) <==>
            (exists i :: 0 <= i < |s| && AuthorityRefuses(s[i]))
  {
    forall i | 0 <= i < |s| ensures AuthorityRefuses(Lower(s)[i]) == AuthorityRefuses(s[i]) {
      LowerAt(s[i]);
    }
    if i :| 0 <= i < |s| && AuthorityRefuses(s[i]) {
      assert AuthorityRefuses(Lower(s)[i]);
    }
  }

  /** The case of the letters of an authority does not matter, whatever the authority. */
  lemma {:induction false} CaseDoesNotMatter(host: string)
    ensures CanonicalRouteHost(Lower(host)) == CanonicalRouteHost(host)
  {
    hide Lower, SplitHostPort, IsIP, PortOk, RouteName, AuthorityRefuses, Unwrapped;
    LowerSize(host);
    LowerRefused(host);
    LowerSplitHostPort(host);
    if host != "" {
      LowerHead(host);
      LowerMembers(host, '[');
      LowerMembers(host, ']');
      LowerMembers(host, ':');
      LowerUnwrapped(host);
      LowerIsIP(Unwrapped(host));
      LowerRouteName(host);
      if SplitHostPort(host).Some? {
        var pair := SplitHostPort(host).value;
        LowerIsIP(pair.0);
        LowerPort(pair.1);
        LowerRouteName(pair.0);
      }
    }
  }

  // ---------- ports, brackets, final dots ----------

  /** A host that routing takes as it is. */
  predicate Routed(h: string) {
    h != "" && CanonicalRouteHost(h) == h
  }

  predicate PortInRange(p: string) {
    p != "" && AllDigits(p) && 1 <= Value(p) <= 65535
  }

  lemma NameCharsAllowed(h: string)
    requires forall i :: 0 <= i < |h| ==> LabelChar(h[i]) || h[i] == '.'
    ensures !Bracketed(h) && forall i :: 0 <= i < |h| ==> !AuthorityRefuses(h[i])
  {
    hide LabelChar, AuthorityRefuses;
    forall i | 0 <= i < |h| ensures !AuthorityRefuses(h[i]) && h[i] !in "[]:" {
      NameCharAllowed(h[i]);
    }
  }

  lemma RoutedChars(h: string)
    requires Routed(h)
    ensures !Bracketed(h) && h[|h| - 1] != '.' && Canonical(h) == h
    ensures forall i :: 0 <= i < |h| ==> !AuthorityRefuses(h[i])
  {
    hide CanonicalRouteHost, Canonical, AuthorityRefuses, Split, Join;
    hide Bracketed, ValidName, IsIP, LabelChar, AddressText;
    JoinSplit(h, '.');
    var labels := Split(h, '.');
    RouteHostLabels(h);
    if IsIP(h) {
      AddressChars(h);
      AddressAllowed(h);
    } else if ValidName(labels) {
      ValidNameIsCanonical(labels);
      NameCharsAllowed(h);
    } else {
      JoinOne("localhost");
      LocalhostAllowed();
    }
  }

  lemma JoinOne(part: string)
    ensures Join([part], '.') == part
  {
  }

  lemma LocalhostAllowed()
    ensures !Bracketed("localhost") && forall i :: 0 <= i < |"localhost"| ==> !AuthorityRefuses("localhost"[i])
  {
  }

  lemma RefusedIn(a: string, b: string)
    ensures (exists i :: 0 <= i < |a + b| && AuthorityRefuses((a + b)[i])) <==>
            (exists i :: 0 <= i < |a| && AuthorityRefuses(a[i])) || (exists i :: 0 <= i < |b| && AuthorityRefuses(b[i]))
  {
    hide AuthorityRefuses;
    if i :| 0 <= i < |a| && AuthorityRefuses(a[i]) {
      assert (a + b)[i] == a[i];
    }
    if i :| 0 <= i < |b| && AuthorityRefuses(b[i]) {
      assert (a + b)[|a| + i] == b[i];
    }
  }

  lemma {:induction false} LastColonAt(s: string, i: nat)
    requires i < |s| && s[i] == ':' && ':' !in s[i + 1..]
    ensures LastColon(s) == i
  {
    forall k | i < k < |s| ensures s[k] != ':' {
      assert s[i + 1..][k - i - 1] == s[k];
    }
  }

  /** A host without a colon is routed as it is named. */
  lemma PlainNameRoutes(h: string)
    requires Routed(h) && ':' !in h
    ensures RouteName(h) == h && SplitHostPort(h) == None
  {
    hide RouteName, IsIP, PortOk, AuthorityRefuses;
    RoutedChars(h);
  }

  lemma SplitPlainPort(h: string, p: string)
    requires h != "" && !Bracketed(h) && ':' !in h && ':' !in p && !Bracketed(p)
    ensures SplitHostPort(h + ":" + p) == Some((h, p))
  {
    var s := h + ":" + p;
    assert s[|h|] == ':' && s[|h| + 1..] == p && s[..|h|] == h;
    LastColonAt(s, |h|);
  }

  lemma PortIsAllowed(p: string)
    requires AllDigits(p)
    ensures forall i :: 0 <= i < |p| ==> !AuthorityRefuses(p[i])
  {
  }

  /** An authority that splits into a host and a port. */
  lemma PairRoutes(s: string, h: string, p: string)
    requires s != "" && SplitHostPort(s) == Some((h, p)) && RouteName(h) == h && (s[0] == '[' ==> IsIP(h))
    requires AllDigits(p) ==> forall i :: 0 <= i < |s| ==> !AuthorityRefuses(s[i])
    ensures CanonicalRouteHost(s) == if PortInRange(p) then h else ""
  {
    hide SplitHostPort, RouteName, IsIP, AuthorityRefuses, AllDigits, Value;
  }

  /** The name of an accepted authority with a port is routed if and only if the port is a number from 1 to
      65535. */
  lemma {:induction false} HostWithPort(h: string, p: string)
    requires Routed(h) && ':' !in h && ':' !in p && !Bracketed(p)
    ensures CanonicalRouteHost(h + ":" + p) == if PortInRange(p) then h else ""
  {
    hide CanonicalRouteHost, SplitHostPort, RouteName, IsIP, AuthorityRefuses, AllDigits, Value, PortInRange;
    RoutedIsRouted(h);
    RoutedChars(h);
    PlainNameRoutes(h);
    SplitPlainPort(h, p);
    AllowedWithPort(h, p);
    assert (h + ":" + p)[0] == h[0];
    PairRoutes(h + ":" + p, h, p);
  }

  lemma RoutedIsRouted(h: string)
    requires Routed(h)
    ensures h != ""
  {
  }

  lemma AllowedWithPort(h: string, p: string)
    requires forall i :: 0 <= i < |h| ==> !AuthorityRefuses(h[i])
    ensures AllDigits(p) ==> forall i :: 0 <= i < |h + ":" + p| ==> !AuthorityRefuses((h + ":" + p)[i])
  {
    if AllDigits(p) {
      PortIsAllowed(p);
      RefusedIn(h, ":");
      RefusedIn(h + ":", p);
      assert !AuthorityRefuses(':');
    }
  }

  /** The same, with the port as a printed number. */
  lemma {:induction false} HostWithPrintedPort(h: string, port: nat)
    requires Routed(h) && ':' !in h
    ensures CanonicalRouteHost(h + ":" + Print(port)) == if 1 <= port <= 65535 then h else ""
  {
    hide CanonicalRouteHost, Print, Value;
    DigitsArePlain(Print(port));
    HostWithPort(h, Print(port));
    ValuePrint(port);
  }

  lemma DigitsArePlain(p: string)
    requires AllDigits(p)
    ensures ':' !in p && !Bracketed(p)
  {
  }

  /** An IP literal in its canonical form. */
  predicate CanonicalIP(ip: string) {
    IsIP(ip) && Canonical(ip) == ip
  }

  lemma AddressRouteName(ip: string)
    requires CanonicalIP(ip)
    ensures RouteName(ip) == ip && !Bracketed(ip) && ip != ""
    ensures forall i :: 0 <= i < |ip| ==> !AuthorityRefuses(ip[i])
  {
    hide Canonical, AuthorityRefuses, TrimBrackets, ValidateDomain, IsIP, AddressText;
    AddressChars(ip);
    AddressAllowed(ip);
    TrimNothing(ip);
  }

  lemma {:induction false} FirstCloseAt(a: string, b: string)
    requires ']' !in a
    ensures FirstClose(a + "]" + b) == |a|
  {
    var s := a + "]" + b;
    assert s[|a|] == ']';
    forall k | 0 <= k < |a| ensures s[k] != ']' {
      assert s[k] == a[k];
    }
  }

  lemma SplitBracketedPort(ip: string, p: string)
    requires !Bracketed(ip) && ':' !in p && !Bracketed(p)
    ensures SplitHostPort("[" + ip + "]:" + p) == Some((ip, p))
  {
    hide Bracketed, LastColon, FirstClose;
    var s := "[" + ip + "]:" + p;
    PlainParts(ip, p);
    BracketShape(ip, p);
    FirstCloseAt("[" + ip, ":" + p);
    LastColonAt(s, |ip| + 2);
  }

  lemma BracketShape(ip: string, p: string)
    ensures var s, n := "[" + ip + "]:" + p, |ip|;
            && |s| == n + 3 + |p| && s == ("[" + ip) + "]" + (":" + p) && |"[" + ip| == n + 1
            && s[0] == '[' && s[n + 2] == ':' && s[n + 3..] == p && s[1..n + 1] == ip
            && s[1..] == ip + ("]:" + p) && s[n + 2..] == ":" + p
  {
  }

  lemma PlainParts(ip: string, p: string)
    requires !Bracketed(ip) && !Bracketed(p)
    ensures ']' !in "[" + ip && '[' !in ip + ("]:" + p) && ']' !in ":" + p
  {
  }

  /** An IP literal in brackets with a port. */
  lemma {:induction false} AddressWithPort(ip: string, p: string)
    requires CanonicalIP(ip) && ':' !in p && !Bracketed(p)
    ensures CanonicalRouteHost("[" + ip + "]:" + p) == if PortInRange(p) then ip else ""
  {
    hide CanonicalRouteHost, SplitHostPort, RouteName, IsIP, AuthorityRefuses, AllDigits, Value, PortInRange, Canonical;
    AddressRouteName(ip);
    SplitBracketedPort(ip, p);
    AllowedInPortForm(ip, p);
    assert ("[" + ip + "]:" + p)[0] == '[';
    PairRoutes("[" + ip + "]:" + p, ip, p);
  }

  lemma AllowedInPortForm(ip: string, p: string)
    requires forall i :: 0 <= i < |ip| ==> !AuthorityRefuses(ip[i])
    ensures AllDigits(p) ==> forall i :: 0 <= i < |"[" + ip + "]:" + p| ==> !AuthorityRefuses(("[" + ip + "]:" + p)[i])
  {
    if AllDigits(p) {
      PortIsAllowed(p);
      hide AllDigits;
      AllowedInBrackets(ip, "]:");
      RefusedIn("[" + ip + "]:", p);
      assert !AuthorityRefuses(']') && !AuthorityRefuses(':');
      assert "[" + ip + "]:" == "[" + ip + ("]:");
    }
  }

  lemma AllowedInBrackets(ip: string, rest: string)
    requires forall i :: 0 <= i < |ip| ==> !AuthorityRefuses(ip[i])
    ensures (exists i :: 0 <= i < |"[" + ip + rest| && AuthorityRefuses(("[" + ip + rest)[i])) <==>
            (exists i :: 0 <= i < |rest| && AuthorityRefuses(rest[i]))
  {
    RefusedIn("[" + ip, rest);
    RefusedIn("[", ip);
    assert !AuthorityRefuses('[');
  }

  lemma WrappedRoutes(h: string)
    requires SplitHostPort(h) == None && h != "" && h[0] == '[' && h[|h| - 1] == ']' && IsIP(Unwrapped(h))
    requires forall i :: 0 <= i < |h| ==> !AuthorityRefuses(h[i])
    ensures CanonicalRouteHost(h) == RouteName(h)
  {
    hide SplitHostPort, Bracketed, Unwrapped, IsIP, AuthorityRefuses, RouteName;
  }

  lemma WrappedName(s: string, ip: string)
    requires TrimBrackets(s) == ip == TrimBrackets(ip) && |s| >= 2 && s[|s| - 1] == ']' && RouteName(ip) == ip
    requires ip != ""
    ensures RouteName(s) == ip
  {
    hide TrimBrackets, IsIP, Canonical, ValidateDomain;
  }

  lemma AllowedWrapped(ip: string)
    requires forall i :: 0 <= i < |ip| ==> !AuthorityRefuses(ip[i])
    ensures forall i :: 0 <= i < |"[" + ip + "]"| ==> !AuthorityRefuses(("[" + ip + "]")[i])
  {
    assert !AuthorityRefuses('[') && !AuthorityRefuses(']');
    hide AuthorityRefuses;
    var s := "[" + ip + "]";
    assert s[0] == '[' && s[|s| - 1] == ']' && forall i :: 0 < i < |s| - 1 ==> s[i] == ip[i - 1];
  }

  /** An IP literal in brackets without a port. */
  lemma {:induction false} AddressInBrackets(ip: string)
    requires CanonicalIP(ip)
    ensures CanonicalRouteHost("[" + ip + "]") == ip
  {
    hide CanonicalRouteHost, SplitHostPort, Bracketed, Unwrapped, IsIP;
    hide AuthorityRefuses, RouteName, TrimBrackets, Canonical;
    AddressRouteName(ip);
    var s := "[" + ip + "]";
    AllowedWrapped(ip);
    NoPortInBrackets(ip);
    BracketsAround(ip);
    TrimNothing(ip);
    WrappedRoutes(s);
    WrappedName(s, ip);
  }

  lemma NoPortInBrackets(ip: string)
    requires !Bracketed(ip)
    ensures SplitHostPort("[" + ip + "]") == None
  {
    var s := "[" + ip + "]";
    assert s == ("[" + ip) + "]" + "";
    FirstCloseAt("[" + ip, "");
  }

  lemma BracketsAround(ip: string)
    requires !Bracketed(ip) && ip != ""
    ensures Unwrapped("[" + ip + "]") == ip && TrimBrackets("[" + ip + "]") == ip
  {
    var s := "[" + ip + "]";
    assert s[..|s| - 1] == "[" + ip && ("[" + ip)[1..] == ip;
    assert s[1..] == ip + "]";
    TrimNothing(ip);
    TrimClosing(ip);
  }

  /** An IP literal by itself. */
  lemma {:induction false} AddressRoutes(ip: string)
    requires CanonicalIP(ip)
    ensures Routed(ip)
  {
    AddressRouteName(ip);
    if IsIPv6(ip) {
      IPv6Routes(ip);
    } else {
      IPv4Plain(ip);
      hide IsIP, ValidateDomain, RouteName, AuthorityRefuses, IsIPv4, IsIPv6, Split;
    }
  }

  lemma IPv4Plain(ip: string)
    requires IsIPv4(Split(ip, '.'))
    ensures ':' !in ip && SplitHostPort(ip) == None
  {
    hide IsIPv4, Split;
    if ':' in ip {
      IPv4Char(ip, ':');
    }
  }

  /** A final dot does not matter for a host without a colon. */
  lemma {:induction false} FinalDot(h: string)
    requires Routed(h) && ':' !in h
    ensures CanonicalRouteHost(h + ".") == h
  {
    RoutedChars(h);
    PlainNameRoutes(h);
    RefusedIn(h, ".");
    assert !AuthorityRefuses('.');
    DotForm(h);
    hide IsIP, ValidateDomain, AuthorityRefuses, Canonical, TrimBrackets, PortOk, Unwrapped;
    var s := h + ".";
    assert s[|s| - 2] == h[|h| - 1] != '.';
    assert ':' !in s && !Bracketed(s);
    assert LastColon(s) < 0;
  }

  lemma DotForm(h: string)
    requires h != "" && !Bracketed(h) && Canonical(h) == h && h[|h| - 1] != '.'
    ensures TrimBrackets(h + ".") == h + "." && TrimBrackets(h) == h && Canonical(h + ".") == h
  {
    TrimNothing(h);
    TrimNothing(h + ".");
    assert Lower(h) == h;
    assert Lower(h + ".") == h + ".";
    assert TrimDot(h + ".") == h;
  }
}
