/** Instants as the store keeps and compares them: RFC 3339 texts in UTC with a fraction of a second whose
    trailing zeros are dropped (formatTime of internal/server/admin_store.go), compared character by
    character. */
module TimeText {
  import opened Durations

  // the codes of the two characters that can follow the seconds or end the text
  const DOT: nat := 46
  const ZED: nat := 90

  function Pow10(n: nat): (p: nat)
    ensures p >= 1
  {
    if n == 0 then 1 else 10 * Pow10(n - 1)
  }

  /** The leading digit of a number whose leading digit stands for p, and what remains. */
  function Head(f: nat, p: nat): nat
    requires p > 0
  {
    f / p
  }

  function Rest(f: nat, p: nat): (r: nat)
    requires p > 0
    ensures r < p
  {
    f % p
  }

  /** The digits of a fraction of n places, without trailing zeros. */
  function Digits(f: nat, n: nat): seq<nat>
    requires f < Pow10(n)
  {
    if f == 0 then []
    else
      var p := Pow10(n - 1);
      [Head(f, p)] + Digits(Rest(f, p), n - 1)
  }

  /** The text after the whole seconds; the digit d has the code 48 + d. */
  function Tail(digits: seq<nat>): seq<nat> {
    (if digits == [] then [] else [DOT] + Codes(digits)) + [ZED]
  }

  function Codes(digits: seq<nat>): seq<nat> {
    seq(|digits|, i requires 0 <= i < |digits| => 48 + digits[i])
  }

  predicate TextLess(a: seq<nat>, b: seq<nat>) {
    b != [] && (a == [] || a[0] < b[0] || (a[0] == b[0] && TextLess(a[1..], b[1..])))
  }

  function Fraction(ns: int): (f: nat)
    ensures f < Pow10(9)
  {
    assert Pow10(9) == SECOND;
    ns % SECOND
  }

  /** The comparison of the store: the text of a is not greater than that of b.  The part up to the seconds
      has a fixed width, so that it is ordered like the seconds. */
  predicate TextAtMost(a: int, b: int) {
    || a / SECOND < b / SECOND
    || (a / SECOND == b / SECOND && !TextLess(Tail(Digits(Fraction(b), 9)), Tail(Digits(Fraction(a), 9))))
  }

  predicate ProperPrefix(a: seq<nat>, b: seq<nat>) {
    |a| < |b| && a == b[..|a|]
  }

  /** Two instants in one second of which one's fraction, as printed, continues the other's. */
  predicate Blurred(a: int, b: int) {
    var s, t := Digits(Fraction(a), 9), Digits(Fraction(b), 9);
    a / SECOND == b / SECOND && (ProperPrefix(s, t) || ProperPrefix(t, s))
  }

  // ---------- the order of the texts ----------

  lemma Multiples(a: int, b: int, p: int)
    requires a < b && p > 0
    ensures a * p + p <= b * p
  {
    assert b * p - a * p == (b - a) * p;
    AtLeastOnce(b - a, p);
  }

  lemma AtLeastOnce(k: int, p: int)
    requires k >= 1 && p > 0
    ensures k * p >= p
  {
    assert (k - 1) * p >= 0;
  }

  lemma Division(f: nat, p: nat)
    requires p > 0
    ensures f == f / p * p + f % p && 0 <= f % p < p
  {
  }

  lemma DigitRange(f: nat, n: nat)
    requires 0 < f < Pow10(n)
    ensures n > 0 && Head(f, Pow10(n - 1)) < 10
  {
    var p := Pow10(n - 1);
    Division(f, p);
    if f / p >= 10 {
      Multiples(9, f / p, p);
    }
  }

  lemma HeadDecides(f: nat, g: nat, p: nat)
    requires p > 0 && f / p < g / p
    ensures f < g
  {
    Division(f, p);
    Division(g, p);
    Multiples(f / p, g / p, p);
  }

  lemma CompareParts(f: nat, g: nat, p: nat)
    requires p > 0
    ensures f < g <==> Head(f, p) < Head(g, p) || (Head(f, p) == Head(g, p) && Rest(f, p) < Rest(g, p))
  {
    Division(f, p);
    Division(g, p);
    if f / p < g / p {
      HeadDecides(f, g, p);
    } else if g / p < f / p {
      HeadDecides(g, f, p);
    }
  }

  /** The texts of the digits followed by the final letter: greater is who differs first by a greater digit,
      or who ends first. */
  lemma {:induction false} DigitsOrder(f: nat, g: nat, n: nat)
    requires f < Pow10(n) && g < Pow10(n)
    ensures Ordered(f, Digits(f, n), g, Digits(g, n))
    decreases n, 1
  {
    if f == 0 || g == 0 {
      EndsOrder(f, g, n);
    } else {
      DigitsOrderStep(f, g, n);
    }
  }

  lemma DigitsStep(f: nat, n: nat)
    requires 0 < f < Pow10(n)
    ensures n > 0
    ensures Digits(f, n) == [Head(f, Pow10(n - 1))] + Digits(Rest(f, Pow10(n - 1)), n - 1)
  {
  }

  /** Texts and numbers are in the order described. */
  ghost predicate Ordered(f: nat, s: seq<nat>, g: nat, t: seq<nat>) {
    && (s == t <==> f == g)
    && (TextLess(Codes(t) + [ZED], Codes(s) + [ZED]) <==>
        if ProperPrefix(s, t) || ProperPrefix(t, s) then f < g else g < f)
  }

  lemma OrderedCons(f: nat, g: nat, a: nat, s: seq<nat>, b: nat, t: seq<nat>, c: nat, d: nat)
    requires Ordered(c, s, d, t)
    requires f < g <==> a < b || (a == b && c < d)
    requires g < f <==> b < a || (a == b && d < c)
    ensures Ordered(f, [a] + s, g, [b] + t)
  {
    hide TextLess, ProperPrefix, Codes;
    ConsOrder(a, s, b, t);
  }

  lemma {:induction false} DigitsOrderStep(f: nat, g: nat, n: nat)
    requires 0 < f < Pow10(n) && 0 < g < Pow10(n)
    ensures Ordered(f, Digits(f, n), g, Digits(g, n))
    decreases n, 0
  {
    hide Digits, Ordered, Pow10, Head, Rest;
    DigitsStep(f, n);
    DigitsStep(g, n);
    var p := Pow10(n - 1);
    CompareParts(f, g, p);
    CompareParts(g, f, p);
    var c, d := Rest(f, p), Rest(g, p);
    DigitsOrder(c, d, n - 1);
    OrderedCons(f, g, Head(f, p), Digits(c, n - 1), Head(g, p), Digits(d, n - 1), c, d);
  }

  lemma CodesCons(d: nat, rest: seq<nat>)
    ensures Codes([d] + rest) == [48 + d] + Codes(rest)
  {
  }

  lemma ConsOrder(a: nat, s: seq<nat>, b: nat, t: seq<nat>)
    ensures TextLess(Codes([b] + t) + [ZED], Codes([a] + s) + [ZED]) <==>
            b < a || (a == b && TextLess(Codes(t) + [ZED], Codes(s) + [ZED]))
    ensures ProperPrefix([a] + s, [b] + t) <==> a == b && ProperPrefix(s, t)
    ensures ProperPrefix([b] + t, [a] + s) <==> a == b && ProperPrefix(t, s)
    ensures [a] + s == [b] + t <==> a == b && s == t
  {
    CodesCons(a, s);
    CodesCons(b, t);
    assert (Codes([a] + s) + [ZED])[1..] == Codes(s) + [ZED];
    assert (Codes([b] + t) + [ZED])[1..] == Codes(t) + [ZED];
    assert ([a] + s)[0] == a && ([a] + s)[1..] == s;
    assert ([b] + t)[0] == b && ([b] + t)[1..] == t;
    PrefixCons(a, s, b, t);
    PrefixCons(b, t, a, s);
  }

  lemma PrefixCons(a: nat, s: seq<nat>, b: nat, t: seq<nat>)
    ensures ProperPrefix([a] + s, [b] + t) <==> a == b && ProperPrefix(s, t)
  {
    if |s| < |t| {
      assert ([b] + t)[..|s| + 1] == [b] + t[..|s|];
      assert ([a] + s)[0] == a && ([a] + s)[1..] == s;
      assert ([b] + t[..|s|])[0] == b && ([b] + t[..|s|])[1..] == t[..|s|];
    }
  }

  /** One of the two has no digits left. */
  lemma EndsOrder(f: nat, g: nat, n: nat)
    requires f < Pow10(n) && g < Pow10(n) && (f == 0 || g == 0)
    ensures Ordered(f, Digits(f, n), g, Digits(g, n))
  {
    if f > 0 {
      DigitRange(f, n);
      CodesCons(Head(f, Pow10(n - 1)), Digits(Rest(f, Pow10(n - 1)), n - 1));
    }
    if g > 0 {
      DigitRange(g, n);
      CodesCons(Head(g, Pow10(n - 1)), Digits(Rest(g, Pow10(n - 1)), n - 1));
    }
  }

  /** The dot before the first digit changes nothing. */
  lemma TailOrder(s: seq<nat>, t: seq<nat>)
    requires forall i :: 0 <= i < |s| ==> s[i] < 10
    requires forall i :: 0 <= i < |t| ==> t[i] < 10
    ensures TextLess(Tail(t), Tail(s)) <==> TextLess(Codes(t) + [ZED], Codes(s) + [ZED])
  {
    if s != [] {
      assert Tail(s)[1..] == Codes(s) + [ZED];
    } else {
      assert Tail(s) == [ZED] == Codes(s) + [ZED];
    }
    if t != [] {
      assert Tail(t)[1..] == Codes(t) + [ZED];
    } else {
      assert Tail(t) == [ZED] == Codes(t) + [ZED];
    }
    assert TextLess([], []) == false;
  }

  lemma {:induction false} DigitsAreDigits(f: nat, n: nat)
    requires f < Pow10(n)
    ensures forall i :: 0 <= i < |Digits(f, n)| ==> Digits(f, n)[i] < 10
  {
    if f > 0 {
      DigitRange(f, n);
      DigitsAreDigits(Rest(f, Pow10(n - 1)), n - 1);
    }
  }

  /** The store's comparison is that of the instants, turned round exactly for blurred pairs. */
  lemma {:induction false} TextOrder(a: int, b: int)
    ensures TextAtMost(a, b) <==> if Blurred(a, b) then b < a else a <= b
    ensures Blurred(a, b) ==> a != b && a / SECOND == b / SECOND
  {
    var f, g := Fraction(a), Fraction(b);
    DigitsOrder(f, g, 9);
    DigitsAreDigits(f, 9);
    DigitsAreDigits(g, 9);
    TailOrder(Digits(f, 9), Digits(g, 9));
    assert a == a / SECOND * SECOND + f && b == b / SECOND * SECOND + g;
  }

  /** Half a second and 510 milliseconds: the later instant has the smaller text. */
  lemma LaterCanComeFirst()
    ensures TextAtMost(510_000_000, 500_000_000) && !(510_000_000 <= 500_000_000)
  {
    hide Digits, TextAtMost;
    assert Pow10(7) == 10_000_000;
    assert Pow10(8) == 100_000_000;
    assert Pow10(9) == SECOND;
    hide Pow10;
    DigitsStep(500_000_000, 9);
    DigitsStep(510_000_000, 9);
    DigitsStep(10_000_000, 8);
    NoDigits(8);
    NoDigits(7);
    assert Digits(500_000_000, 9) == [5] && Digits(510_000_000, 9) == [5, 1];
    TextOrder(510_000_000, 500_000_000);
  }

  lemma NoDigits(n: nat)
    ensures Digits(0, n) == []
  {
  }
}
