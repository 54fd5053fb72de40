/** Host and port of an authority, and IP literals, as Go's net package reads them: SplitHostPort and
    ParseIP (without zones), the text forms of section 2.2 of RFC 4291 among them. */
module HostAddress {
  import opened Strings
  import opened Decimal
  import opened Options

  // ---------- IPv4 ----------

  /** One field of a dotted IPv4 literal: no leading zero, at most 255. */
  predicate IsOctet(field: string) {
    && 1 <= |field| <= 3 && AllDigits(field)
    && (|field| > 1 ==> field[0] != '0')
    && Value(field) <= 255
  }

  predicate IsIPv4(labels: seq<string>) {
    |labels| == 4 && forall i :: 0 <= i < 4 ==> IsOctet(labels[i])
  }

  /** A field is what a number up to 255 prints as. */
  lemma {:induction false} OctetIffPrinted(field: string)
    ensures IsOctet(field) <==> exists n: nat :: n <= 255 && field == Print(n)
  {
    if IsOctet(field) {
      PrintValue(field);
      assert Value(field) <= 255;
    }
    if n: nat :| n <= 255 && field == Print(n) {
      ValuePrint(n);
      NoLeadingZero(n);
      ThreeDigits(n);
    }
  }

  lemma ThreeDigits(n: nat)
    requires n <= 255
    ensures |Print(n)| <= 3
  {
    if n >= 10 {
      assert |Print(n)| == |Print(n / 10)| + 1;
      if n >= 100 {
        assert |Print(n / 10)| == |Print(n / 10 / 10)| + 1;
      }
    }
  }

  // ---------- IPv6 ----------

  predicate IsHex(c: char) {
    '0' <= c <= '9' || 'a' <= c <= 'f' || 'A' <= c <= 'F'
  }

  /** How many hexadecimal digits stand at the front. */
  function HexRun(s: string): (n: nat)
    ensures n <= |s| && (forall i :: 0 <= i < n ==> IsHex(s[i])) && (n < |s| ==> !IsHex(s[n]))
  {
    if s == "" || !IsHex(s[0]) then 0 else 1 + HexRun(s[1..])
  }

  /** The 16 bytes of an address are there, or an ellipsis stands for at least one group of zeros. */
  predicate Filled(bytes: nat, ellipsis: bool) {
    if ellipsis then bytes < 16 else bytes == 16
  }

  /** The groups from here on: `bytes` were read before, `ellipsis` says whether "::" was among them. */
  predicate Groups(s: string, bytes: nat, ellipsis: bool)
    decreases |s|
  {
    var n := HexRun(s);
    var rest := s[n..];
    if bytes >= 16 || n == 0 || n > 4 then false
    else if rest == "" then Filled(bytes + 2, ellipsis)
    else if rest[0] == '.' then (ellipsis || bytes == 12) && bytes + 4 <= 16 && IsIPv4(Split(s, '.')) &&
        Filled(bytes + 4, ellipsis)
    else if rest[0] != ':' || |rest| == 1 then false
    else if rest[1] != ':' then Groups(rest[1..], bytes + 2, ellipsis)
    else if ellipsis then false
    else if |rest| == 2 then Filled(bytes + 2, true)
    else Groups(rest[2..], bytes + 2, true)
  }

  predicate IsIPv6(s: string) {
    if |s| >= 2 && s[0] == ':' && s[1] == ':' then |s| == 2 || Groups(s[2..], 0, true) else Groups(s, 0, false)
  }

  predicate IsIP(s: string) {
    IsIPv4(Split(s, '.')) || IsIPv6(s)
  }

  predicate AddressChar(c: char) {
    IsHex(c) || c == ':' || c == '.'
  }

  predicate AddressText(s: string) {
    forall i :: 0 <= i < |s| ==> AddressChar(s[i])
  }

  lemma OctetChar(field: string, c: char)
    requires IsOctet(field) && c in field
    ensures IsDigit(c) && c != '.'
  {
  }

  lemma IPv4Char(s: string, x: char)
    requires IsIPv4(Split(s, '.')) && x in s
    ensures IsDigit(x) || x == '.'
  {
    hide IsOctet, IsDigit, Split;
    if x != '.' {
      SplitChars(s, '.', x);
      var k :| 0 <= k < |Split(s, '.')| && x in Split(s, '.')[k];
      OctetChar(Split(s, '.')[k], x);
    }
  }

  lemma IPv4End(s: string)
    requires IsIPv4(Split(s, '.'))
    ensures s != "" && s[|s| - 1] != '.'
  {
    var parts := Split(s, '.');
    JoinSplit(s, '.');
    hide IsOctet, Split, Join;
    OctetNotEmpty(parts[3]);
    JoinLast(parts, '.');
    OctetChar(parts[3], parts[3][|parts[3]| - 1]);
  }

  lemma IPv4Chars(s: string)
    requires IsIPv4(Split(s, '.'))
    ensures AddressText(s) && s != "" && s[|s| - 1] != '.'
  {
    hide IsIPv4, Split;
    IPv4End(s);
    forall i | 0 <= i < |s| ensures AddressChar(s[i]) {
      IPv4Char(s, s[i]);
    }
  }

  lemma OctetNotEmpty(field: string)
    requires IsOctet(field)
    ensures field != ""
  {
  }

  lemma AddressConcat(a: string, b: string)
    requires AddressText(a) && AddressText(b) && b != "" && b[|b| - 1] != '.'
    ensures AddressText(a + b) && a + b != "" && (a + b)[|a + b| - 1] != '.'
  {
  }

  lemma FirstGroup(s: string)
    ensures AddressText(s[..HexRun(s)])
    ensures HexRun(s) == |s| > 0 ==> AddressText(s) && s[|s| - 1] != '.'
  {
  }

  lemma GroupsStep(s: string, bytes: nat, ellipsis: bool)
    requires Groups(s, bytes, ellipsis)
    ensures s != ""
    ensures HexRun(s) < |s| ==>
      var rest := s[HexRun(s)..];
      if rest[0] == '.' then IsIPv4(Split(s, '.'))
      else rest[0] == ':' && |rest| > 1 &&
           if rest[1] != ':' then Groups(rest[1..], bytes + 2, ellipsis)
           else !ellipsis && (|rest| == 2 || Groups(rest[2..], bytes + 2, true))
    ensures 1 <= HexRun(s) <= 4
  {
    hide IsIPv4, Split;
  }

  /** A first group before which bytes are missing is followed by a colon. */
  lemma GroupsColon(s: string, bytes: nat)
    requires Groups(s, bytes, false) && bytes < 12
    ensures 0 < HexRun(s) < |s| && s[HexRun(s)] == ':'
  {
    hide IsIPv4, Split;
  }

  lemma {:induction false} GroupsChars(s: string, bytes: nat, ellipsis: bool)
    requires Groups(s, bytes, ellipsis)
    ensures AddressText(s) && s != "" && s[|s| - 1] != '.'
    decreases |s|
  {
    FirstGroup(s);
    GroupsStep(s, bytes, ellipsis);
    hide Groups, IsIPv4, Split, AddressText, IsHex, HexRun;
    var n := HexRun(s);
    if n < |s| {
      var rest := s[n..];
      if rest[0] == '.' {
        IPv4Chars(s);
      } else {
        var m := if rest[1] == ':' then 2 else 1;
        var next := rest[m..];
        if rest[1] != ':' {
          GroupsChars(next, bytes + 2, ellipsis);
        } else if |rest| > 2 {
          GroupsChars(next, bytes + 2, true);
        }
        Apart(s, n, m);
        Prefixed(s, n, if rest[1] == ':' then "::" else ":", next);
      }
    }
  }

  lemma Apart(s: string, n: nat, m: nat)
    requires n + m <= |s| && m == (if n + 1 < |s| && s[n + 1] == ':' then 2 else 1) && s[n] == ':'
    ensures s == s[..n] + (if m == 2 then "::" else ":") + s[n..][m..]
  {
  }

  lemma Prefixed(s: string, n: nat, colons: string, next: string)
    requires n <= |s| && s == s[..n] + colons + next && (colons == ":" || colons == "::")
    requires AddressText(s[..n]) && (next == "" || (AddressText(next) && next[|next| - 1] != '.'))
    ensures AddressText(s) && s != "" && s[|s| - 1] != '.'
  {
    if next == "" {
      AddressConcat(s[..n], colons);
      assert s == s[..n] + colons;
    } else {
      AddressConcat(colons, next);
      AddressConcat(s[..n], colons + next);
      assert s == s[..n] + (colons + next);
    }
  }

  /** An IPv6 literal has at least two colons and no character outside its alphabet. */
  lemma {:induction false} IPv6Chars(s: string)
    requires IsIPv6(s)
    ensures AddressText(s) && s != "" && s[|s| - 1] != '.'
    ensures exists i, j :: 0 <= i < j < |s| && s[i] == s[j] == ':'
  {
    if |s| >= 2 && s[0] == ':' && s[1] == ':' {
      if |s| > 2 {
        GroupsChars(s[2..], 0, true);
      }
      Prefixed(s, 0, "::", s[2..]);
      assert 0 <= 0 < 1 < |s| && s[0] == s[1] == ':';
    } else {
      GroupsChars(s, 0, false);
      TwoColons(s);
    }
  }

  lemma TwoColons(s: string)
    requires Groups(s, 0, false)
    ensures exists i, j :: 0 <= i < j < |s| && s[i] == s[j] == ':'
  {
    hide IsIPv4, Split;
    GroupsColon(s, 0);
    var n := HexRun(s);
    var rest := s[n..];
    if rest[1] == ':' {
      assert s[n + 1] == ':';
    } else {
      GroupsColon(rest[1..], 2);
      var i := HexRun(rest[1..]);
      assert s[n + 1 + i] == ':';
    }
  }

  // ---------- host and port ----------

  function LastColon(s: string): (i: int)
    ensures -1 <= i < |s|
    ensures i >= 0 ==> s[i] == ':'
    ensures forall k :: i < k < |s| ==> s[k] != ':'
  {
    if s == "" then -1 else if s[|s| - 1] == ':' then |s| - 1 else LastColon(s[..|s| - 1])
  }

  function FirstClose(s: string): (i: nat)
    ensures i <= |s| && (i < |s| ==> s[i] == ']') && forall k :: 0 <= k < i ==> s[k] != ']'
  {
    if s == "" || s[0] == ']' then 0 else 1 + FirstClose(s[1..])
  }

  /** net.SplitHostPort. */
  function SplitHostPort(s: string): Option<(string, string)> {
    var i := LastColon(s);
    if i < 0 then None
    else if s[0] == '[' then
      var end := FirstClose(s);
      if end + 1 != i || '[' in s[1..] || ']' in s[end + 1..] then None
      else Some((s[1..end], s[i + 1..]))
    else if ':' in s[..i] || '[' in s || ']' in s then None
    else Some((s[..i], s[i + 1..]))
  }

  /** strings.Trim with the two brackets. */
  function TrimBrackets(s: string): string
    decreases |s|
  {
    if s == "" then ""
    else if s[0] == '[' || s[0] == ']' then TrimBrackets(s[1..])
    else if s[|s| - 1] == '[' || s[|s| - 1] == ']' then TrimBrackets(s[..|s| - 1])
    else s
  }

  // ---------- the text forms of an IPv6 address ----------

  predicate IsGroup(g: string) {
    1 <= |g| <= 4 && forall i :: 0 <= i < |g| ==> IsHex(g[i])
  }

  predicate AreGroups(gs: seq<string>) {
    forall i :: 0 <= i < |gs| ==> IsGroup(gs[i])
  }

  /** Groups, the last of which may be an IPv4 address. */
  predicate ArePieces(gs: seq<string>) {
    forall i :: 0 <= i < |gs| ==> IsGroup(gs[i]) || (i == |gs| - 1 && IsIPv4(Split(gs[i], '.')))
  }

  /** The bytes that the pieces stand for. */
  function Size(gs: seq<string>): nat {
    if gs == [] then 0 else (if IsGroup(gs[0]) then 2 else 4) + Size(gs[1..])
  }

  function JoinOrEmpty(gs: seq<string>): string {
    if gs == [] then "" else Join(gs, ':')
  }

  lemma {:induction false} GroupRun(g: string, rest: string)
    requires (forall i :: 0 <= i < |g| ==> IsHex(g[i])) && (rest == "" || !IsHex(rest[0]))
    ensures HexRun(g + rest) == |g|
  {
    if g == "" {
      assert g + rest == rest;
    } else {
      assert (g + rest)[1..] == g[1..] + rest;
      GroupRun(g[1..], rest);
    }
  }

  /** An IPv4 address starts with a number and a dot. */
  lemma IPv4Run(s: string)
    requires IsIPv4(Split(s, '.'))
    ensures 1 <= HexRun(s) <= 3 && HexRun(s) < |s| && s[HexRun(s)] == '.' && !IsGroup(s)
  {
    hide Split, IsOctet, HexRun, Join;
    var labels := Split(s, '.');
    JoinSplit(s, '.');
    var rest := ['.'] + Join(labels[1..], '.');
    JoinFirst(labels, '.');
    OctetRun(labels[0], rest);
    assert s == labels[0] + rest;
    assert s[|labels[0]|] == '.' && !IsHex('.');
  }

  lemma JoinFirst(parts: seq<string>, c: char)
    requires |parts| > 1
    ensures Join(parts, c) == parts[0] + ([c] + Join(parts[1..], c))
  {
  }

  lemma OctetRun(field: string, rest: string)
    requires IsOctet(field) && rest != "" && rest[0] == '.'
    ensures 1 <= |field| <= 3 && HexRun(field + rest) == |field|
  {
    assert forall i :: 0 <= i < |field| ==> IsHex(field[i]);
    hide HexRun;
    GroupRun(field, rest);
  }

  lemma PiecesStart(gs: seq<string>)
    requires |gs| >= 1 && ArePieces(gs)
    ensures Join(gs, ':') != "" && Join(gs, ':')[0] != ':'
  {
    hide HexRun, Split, IsIPv4;
    if !IsGroup(gs[0]) {
      IPv4Run(gs[0]);
    }
    assert gs[0] != "" && IsHex(gs[0][0]);
    assert Join(gs, ':')[0] == gs[0][0];
  }

  /** The text of one group and what follows it. */
  lemma OneGroup(g: string, rest: string, bytes: nat, ellipsis: bool)
    requires IsGroup(g) && (rest == "" || rest[0] == ':')
    ensures rest == "" ==> (Groups(g + rest, bytes, ellipsis) <==> Filled(bytes + 2, ellipsis))
    ensures |rest| > 1 && rest[1] != ':' ==>
              (Groups(g + rest, bytes, ellipsis) <==> Groups(rest[1..], bytes + 2, ellipsis))
    ensures |rest| > 1 && rest[1] == ':' && !ellipsis ==>
              (Groups(g + rest, bytes, ellipsis) <==>
               if |rest| == 2 then Filled(bytes + 2, true) else Groups(rest[2..], bytes + 2, true))
  {
    GroupRun(g, rest);
    assert (g + rest)[|g|..] == rest;
    hide HexRun, IsIPv4, Split;
  }

  lemma OneIPv4(s: string, bytes: nat, ellipsis: bool)
    requires IsIPv4(Split(s, '.'))
    ensures Groups(s, bytes, ellipsis) <==> Filled(bytes + 4, ellipsis)
  {
    hide HexRun, IsIPv4, Split;
    IPv4Run(s);
  }

  lemma {:induction false} GroupsOfPieces(gs: seq<string>, bytes: nat, ellipsis: bool)
    requires |gs| >= 1 && ArePieces(gs)
    ensures Groups(Join(gs, ':'), bytes, ellipsis) <==> Filled(bytes + Size(gs), ellipsis)
    decreases |gs|
  {
    hide Groups, Filled, IsGroup, IsIPv4, Split;
    if |gs| == 1 {
      if IsGroup(gs[0]) {
        OneGroup(gs[0], "", bytes, ellipsis);
        assert gs[0] + "" == gs[0];
      } else {
        OneIPv4(gs[0], bytes, ellipsis);
      }
    } else {
      var tail := Join(gs[1..], ':');
      PiecesStart(gs[1..]);
      var rest := ":" + tail;
      assert rest[1..] == tail && rest[1] == tail[0];
      assert gs[0] + [':'] + tail == gs[0] + rest;
      OneGroup(gs[0], rest, bytes, ellipsis);
      GroupsOfPieces(gs[1..], bytes + 2, ellipsis);
    }
  }

  lemma {:induction false} GroupsBeforeEllipsis(a: seq<string>, b: seq<string>, bytes: nat)
    requires |a| >= 1 && AreGroups(a) && ArePieces(b)
    ensures Groups(Join(a, ':') + "::" + JoinOrEmpty(b), bytes, false) <==> Filled(bytes + Size(a) + Size(b), true)
    decreases |a|
  {
    hide Groups, Filled, IsGroup, IsIPv4, Split;
    var tail := JoinOrEmpty(b);
    if |a| == 1 {
      var rest := "::" + tail;
      assert rest[2..] == tail;
      assert a[0] + "::" + tail == a[0] + rest;
      OneGroup(a[0], rest, bytes, false);
      if b != [] {
        GroupsOfPieces(b, bytes + 2, true);
        PiecesStart(b);
      }
    } else {
      var inner := Join(a[1..], ':') + "::" + tail;
      var rest := ":" + inner;
      PiecesStart(a[1..]);
      assert inner[0] == Join(a[1..], ':')[0];
      assert rest[1..] == inner;
      assert Join(a, ':') + "::" + tail == a[0] + rest;
      OneGroup(a[0], rest, bytes, false);
      GroupsBeforeEllipsis(a[1..], b, bytes + 2);
    }
  }

  /** What was read as groups is the text of such pieces, with an ellipsis among them or not. */
  lemma {:induction false} PiecesOfGroups(s: string, bytes: nat, ellipsis: bool)
    returns (a: seq<string>, b: seq<string>, compressed: bool)
    requires Groups(s, bytes, ellipsis)
    ensures |a| >= 1 && (compressed ==> !ellipsis && AreGroups(a) && ArePieces(b))
    ensures !compressed ==> ArePieces(a)
    ensures s == if compressed then Join(a, ':') + "::" + JoinOrEmpty(b) else Join(a, ':')
    decreases |s|
  {
    hide Groups, Filled, IsIPv4, Split, HexRun, Join;
    GroupsStep(s, bytes, ellipsis);
    var n := HexRun(s);
    var g, rest := s[..n], s[n..];
    assert s == g + rest && IsGroup(g);
    JoinOne(g);
    a, b, compressed := [g], [], rest == "::";
    if rest != "" && rest[0] == '.' {
      a := [s];
      JoinOne(s);
    } else if rest != "" && rest[1] != ':' {
      var c;
      c, b, compressed := PiecesOfGroups(rest[1..], bytes + 2, ellipsis);
      a := [g] + c;
      JoinCons(g, c);
      assert s == g + ":" + rest[1..];
    } else if |rest| > 2 {
      var none;
      b, none, compressed := PiecesOfGroups(rest[2..], bytes + 2, true);
      compressed := true;
      assert s == g + "::" + rest[2..];
    }
  }

  lemma JoinOne(g: string)
    ensures Join([g], ':') == g
  {
  }

  lemma JoinCons(g: string, c: seq<string>)
    requires |c| >= 1
    ensures Join([g] + c, ':') == g + ":" + Join(c, ':')
  {
    assert ([g] + c)[1..] == c;
  }

  predicate FullForm(s: string, gs: seq<string>) {
    |gs| >= 1 && ArePieces(gs) && Size(gs) == 16 && s == Join(gs, ':')
  }

  predicate CompressedForm(s: string, a: seq<string>, b: seq<string>) {
    AreGroups(a) && ArePieces(b) && Size(a) + Size(b) < 16 && s == JoinOrEmpty(a) + "::" + JoinOrEmpty(b)
  }

  /** An IPv6 literal is exactly this: pieces of 16 bytes in all joined by colons, or pieces of fewer with one
      ellipsis before, between or after them. */
  lemma {:induction false} IPv6Iff(s: string)
    ensures IsIPv6(s) <==> (exists gs :: FullForm(s, gs)) || (exists a, b :: CompressedForm(s, a, b))
  {
    hide Groups, Filled, FullForm, CompressedForm, IsIPv6;
    if IsIPv6(s) {
      IPv6HasForm(s);
    }
    if gs :| FullForm(s, gs) {
      FullFormIsIPv6(s, gs);
    }
    if a, b :| CompressedForm(s, a, b) {
      CompressedFormIsIPv6(s, a, b);
    }
  }

  lemma FullFormIsIPv6(s: string, gs: seq<string>)
    requires FullForm(s, gs)
    ensures IsIPv6(s)
  {
    hide Groups, ArePieces, Size;
    GroupsOfPieces(gs, 0, false);
    PiecesStart(gs);
  }

  lemma CompressedFormIsIPv6(s: string, a: seq<string>, b: seq<string>)
    requires CompressedForm(s, a, b)
    ensures IsIPv6(s)
  {
    hide Groups, ArePieces, Join;
    if a == [] {
      assert s[2..] == JoinOrEmpty(b);
      if b != [] {
        GroupsOfPieces(b, 0, true);
        PiecesStart(b);
      }
    } else {
      GroupsBeforeEllipsis(a, b, 0);
      GroupsArePieces(a);
      PiecesStart(a);
      assert s[0] == Join(a, ':')[0];
    }
  }

  lemma GroupsArePieces(a: seq<string>)
    requires AreGroups(a)
    ensures ArePieces(a)
  {
  }

  lemma {:induction false} IPv6HasForm(s: string)
    requires IsIPv6(s)
    ensures (exists gs :: FullForm(s, gs)) || (exists a, b :: CompressedForm(s, a, b))
  {
    hide Groups, ArePieces, AreGroups, Join, Size;
    if |s| >= 2 && s[0] == ':' && s[1] == ':' {
      var b := [];
      if |s| > 2 {
        var none, compressed;
        b, none, compressed := PiecesOfGroups(s[2..], 0, true);
        GroupsOfPieces(b, 0, true);
      }
      NoPieces();
      assert s == "::" + s[2..];
      assert CompressedForm(s, [], b);
    } else {
      var a, b, compressed := PiecesOfGroups(s, 0, false);
      if compressed {
        GroupsBeforeEllipsis(a, b, 0);
        assert CompressedForm(s, a, b);
      } else {
        GroupsOfPieces(a, 0, false);
        assert FullForm(s, a);
      }
    }
  }

  lemma NoPieces()
    ensures AreGroups([]) && ArePieces([]) && Size([]) == 0
  {
  }
}
