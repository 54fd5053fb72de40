/** Cutting text to a number of bytes without cutting a character (truncateActivityString of
    internal/server/activity_store.go).  Text is bytes; well-formed means section 4 of RFC 3629. */
module ActivityText {
  import opened Bytes

  predicate IsTail(b: byte) {
    0x80 <= b <= 0xBF
  }

  /** The second bytes that may follow a lead byte of a three- or four-byte sequence. */
  predicate IsSecond(lead: byte, b: byte) {
    match lead
    case 0xE0 => 0xA0 <= b <= 0xBF
    case 0xED => 0x80 <= b <= 0x9F
    case 0xF0 => 0x90 <= b <= 0xBF
    case 0xF4 => 0x80 <= b <= 0x8F
    case _ => IsTail(b)
  }

  /** The length of the well-formed sequence at the front, 0 when there is none. */
  function RuneLength(s: seq<byte>): (n: nat)
    ensures n <= 4 && n <= |s|
  {
    if |s| == 0 then 0
    else if s[0] <= 0x7F then 1
    else if 0xC2 <= s[0] <= 0xDF then if |s| >= 2 && IsTail(s[1]) then 2 else 0
    else if 0xE0 <= s[0] <= 0xEF then if |s| >= 3 && IsSecond(s[0], s[1]) && IsTail(s[2]) then 3 else 0
    else if 0xF0 <= s[0] <= 0xF4 then
      if |s| >= 4 && IsSecond(s[0], s[1]) && IsTail(s[2]) && IsTail(s[3]) then 4 else 0
    else 0
  }

  predicate WellFormed(s: seq<byte>) {
    s == [] || (RuneLength(s) > 0 && WellFormed(s[RuneLength(s)..]))
  }

  // U+FFFD
  const REPLACEMENT: seq<byte> := [0xEF, 0xBF, 0xBD]

  /** strings.ToValidUTF8: one replacement for each run of stray bytes. */
  function Sanitized(s: seq<byte>, inRun: bool): seq<byte>
    decreases |s|
  {
    var n := RuneLength(s);
    if s == [] then []
    else if n == 0 then (if inRun then [] else REPLACEMENT) + Sanitized(s[1..], true)
    else s[..n] + Sanitized(s[n..], false)
  }

  // utf8.RuneStart
  predicate RuneStart(b: byte) {
    !IsTail(b)
  }

  // ---------- well-formed text ----------

  lemma RuneLengthPrefix(a: seq<byte>, b: seq<byte>)
    requires RuneLength(a) > 0
    ensures RuneLength(a + b) == RuneLength(a)
  {
  }

  lemma {:induction false} WellFormedConcat(a: seq<byte>, b: seq<byte>)
    requires WellFormed(a) && WellFormed(b)
    ensures WellFormed(a + b)
  {
    hide RuneLength;
    if a == [] {
      assert a + b == b;
    } else {
      var n := RuneLength(a);
      RuneLengthPrefix(a, b);
      WellFormedConcat(a[n..], b);
      assert (a + b)[n..] == a[n..] + b;
    }
  }

  lemma OneRune(s: seq<byte>)
    requires RuneLength(s) > 0
    ensures WellFormed(s[..RuneLength(s)])
  {
    var n := RuneLength(s);
    assert RuneLength(s[..n]) == n;
    assert s[..n][n..] == [];
  }

  /** What ToValidUTF8 returns is well-formed. */
  lemma {:induction false} SanitizedWellFormed(s: seq<byte>, inRun: bool)
    ensures WellFormed(Sanitized(s, inRun))
    decreases |s|
  {
    var n := RuneLength(s);
    if s != [] {
      if n == 0 {
        SanitizedWellFormed(s[1..], true);
        assert WellFormed(REPLACEMENT) by {
          OneRune(REPLACEMENT);
        }
        WellFormedConcat(if inRun then [] else REPLACEMENT, Sanitized(s[1..], true));
      } else {
        SanitizedWellFormed(s[n..], false);
        OneRune(s);
        WellFormedConcat(s[..n], Sanitized(s[n..], false));
      }
    }
  }

  /** It changes exactly the text that is not well-formed. */
  lemma {:induction false} SanitizedUnchanged(s: seq<byte>)
    ensures Sanitized(s, false) == s <==> WellFormed(s)
    decreases |s|
  {
    SanitizedWellFormed(s, false);
    if WellFormed(s) && s != [] {
      var n := RuneLength(s);
      SanitizedUnchanged(s[n..]);
      assert s == s[..n] + s[n..];
    }
  }

  // ---------- what a character is ----------

  /** Unicode scalar values: every code point that is no surrogate. */
  predicate IsScalar(c: nat) {
    c < 0xD800 || 0xE000 <= c <= 0x10FFFF
  }

  /** The bytes of a code point, by the table in section 3 of RFC 3629. */
  function Utf8(c: nat): (r: seq<byte>)
    requires IsScalar(c)
  {
    if c < 0x80 then [c]
    else if c < 0x800 then [0xC0 + c / 64, 0x80 + c % 64]
    else if c < 0x10000 then [0xE0 + c / 4096, 0x80 + c / 64 % 64, 0x80 + c % 64]
    else [0xF0 + c / 262144, 0x80 + c / 4096 % 64, 0x80 + c / 64 % 64, 0x80 + c % 64]
  }

  /** What a byte carries beyond its marker. */
  function Bits(b: byte, marker: int): int {
    b - marker
  }

  /** The code point of the sequence at the front. */
  function CodePoint(s: seq<byte>): (c: int)
    requires RuneLength(s) > 0
  {
    match RuneLength(s)
    case 1 => s[0]
    case 2 => Bits(s[0], 0xC0) * 64 + Bits(s[1], 0x80)
    case 3 => Bits(s[0], 0xE0) * 4096 + Bits(s[1], 0x80) * 64 + Bits(s[2], 0x80)
    case _ => Bits(s[0], 0xF0) * 262144 + Bits(s[1], 0x80) * 4096 + Bits(s[2], 0x80) * 64 + Bits(s[3], 0x80)
  }

  lemma SixBits(high: int, low: int)
    requires 0 <= low < 64
    ensures (high * 64 + low) / 64 == high && (high * 64 + low) % 64 == low
  {
  }

  lemma ThreeParts(a: int, b: int, c: int)
    requires 0 <= b < 64 && 0 <= c < 64
    ensures var p := a * 4096 + b * 64 + c; p / 4096 == a && p / 64 % 64 == b && p % 64 == c
  {
    SixBits(a, b);
    SixBits(a * 64 + b, c);
  }

  lemma FourParts(a: int, b: int, c: int, d: int)
    requires 0 <= b < 64 && 0 <= c < 64 && 0 <= d < 64
    ensures var p := a * 262144 + b * 4096 + c * 64 + d;
            p / 262144 == a && p / 4096 % 64 == b && p / 64 % 64 == c && p % 64 == d
  {
    SixBits(a, b);
    ThreeParts(a * 64 + b, c, d);
  }

  lemma ThreeBytes(s: seq<byte>)
    requires RuneLength(s) == 3
    ensures 0x800 <= CodePoint(s) < 0x10000 && IsScalar(CodePoint(s)) && s[..3] == Utf8(CodePoint(s))
  {
    ThreeParts(Bits(s[0], 0xE0), Bits(s[1], 0x80), Bits(s[2], 0x80));
  }

  lemma FourBytes(s: seq<byte>)
    requires RuneLength(s) == 4
    ensures 0x10000 <= CodePoint(s) <= 0x10FFFF && s[..4] == Utf8(CodePoint(s))
  {
    FourParts(Bits(s[0], 0xF0), Bits(s[1], 0x80), Bits(s[2], 0x80), Bits(s[3], 0x80));
  }

  /** A character at the front of a text is the encoding of a Unicode scalar value. */
  lemma CharacterIsScalar(s: seq<byte>)
    requires RuneLength(s) > 0
    ensures 0 <= CodePoint(s) && IsScalar(CodePoint(s)) && s[..RuneLength(s)] == Utf8(CodePoint(s))
  {
    if RuneLength(s) == 2 {
      SixBits(Bits(s[0], 0xC0), Bits(s[1], 0x80));
    } else if RuneLength(s) == 3 {
      ThreeBytes(s);
    } else if RuneLength(s) == 4 {
      FourBytes(s);
    }
  }

  lemma ThreeByteScalar(c: nat)
    requires IsScalar(c) && 0x800 <= c < 0x10000
    ensures RuneLength(Utf8(c)) == |Utf8(c)|
  {
  }

  lemma FourByteScalar(c: nat)
    requires 0x10000 <= c <= 0x10FFFF
    ensures RuneLength(Utf8(c)) == |Utf8(c)|
  {
  }

  /** The encoding of a Unicode scalar value is read as one character, whatever follows it. */
  lemma ScalarIsCharacter(c: nat, rest: seq<byte>)
    requires IsScalar(c)
    ensures RuneLength(Utf8(c) + rest) == |Utf8(c)| > 0
  {
    if 0x800 <= c < 0x10000 {
      ThreeByteScalar(c);
    } else if 0x10000 <= c {
      FourByteScalar(c);
    }
    RuneLengthPrefix(Utf8(c), rest);
  }

  // ---------- what sanitising keeps ----------

  lemma {:induction false} SanitizedFront(a: seq<byte>, rest: seq<byte>)
    requires WellFormed(a)
    ensures Sanitized(a + rest, false) == a + Sanitized(rest, false)
    decreases |a|
  {
    hide RuneLength;
    if a == [] {
      assert a + rest == rest;
    } else {
      var n := RuneLength(a);
      RuneLengthPrefix(a, rest);
      SanitizedFront(a[n..], rest);
      assert (a + rest)[n..] == a[n..] + rest && (a + rest)[..n] == a[..n];
    }
  }

  lemma {:induction false} SanitizedRun(run: seq<byte>, rest: seq<byte>)
    requires forall k :: 0 <= k < |run| ==> RuneLength(run[k..] + rest) == 0
    requires rest == [] || RuneLength(rest) > 0
    ensures Sanitized(run + rest, true) == Sanitized(rest, false)
    decreases |run|
  {
    hide RuneLength;
    if run == [] {
      assert run + rest == rest;
    } else {
      assert run[0..] == run && (run + rest)[1..] == run[1..] + rest;
      assert forall k :: 0 <= k < |run| - 1 ==> run[1..][k..] == run[k + 1..];
      SanitizedRun(run[1..], rest);
    }
  }

  lemma {:induction false} FrontRun(run: seq<byte>, rest: seq<byte>)
    requires run != [] && forall k :: 0 <= k < |run| ==> RuneLength(run[k..] + rest) == 0
    requires rest == [] || RuneLength(rest) > 0
    ensures Sanitized(run + rest, false) == REPLACEMENT + Sanitized(rest, false)
  {
    hide RuneLength;
    assert run[0..] == run && (run + rest)[1..] == run[1..] + rest;
    assert forall k :: 0 <= k < |run| - 1 ==> run[1..][k..] == run[k + 1..];
    SanitizedRun(run[1..], rest);
  }

  /** Text around stray bytes stays, and each maximal run of them becomes the one character U+FFFD.  With
      SanitizedUnchanged this says what any text becomes. */
  lemma {:induction false} RunBecomesOneCharacter(a: seq<byte>, run: seq<byte>, rest: seq<byte>)
    requires WellFormed(a) && run != []
    requires forall k :: 0 <= k < |run| ==> RuneLength(run[k..] + rest) == 0
    requires rest == [] || RuneLength(rest) > 0
    ensures Sanitized(a + run + rest, false) == a + Utf8(0xFFFD) + Sanitized(rest, false)
  {
    hide RuneLength, Sanitized, WellFormed;
    FrontRun(run, rest);
    SanitizedFront(a, run + rest);
    assert a + run + rest == a + (run + rest);
    assert REPLACEMENT == Utf8(0xFFFD);
  }

  // ---------- where text may be cut ----------

  lemma RuneBytes(s: seq<byte>, k: nat)
    requires k < RuneLength(s)
    ensures RuneStart(s[k]) <==> k == 0
    ensures k > 0 ==> RuneLength(s[..k]) == 0
  {
  }

  /** Well-formed text may be cut exactly before a byte that starts a character. */
  lemma {:induction false} CutIffStart(s: seq<byte>, k: nat)
    requires WellFormed(s) && k < |s|
    ensures WellFormed(s[..k]) <==> RuneStart(s[k])
    decreases |s|
  {
    var n := RuneLength(s);
    if k < n {
      RuneBytes(s, k);
    } else {
      CutIffStart(s[n..], k - n);
      OneRune(s);
      RuneLengthPrefix(s[..n], s[n..k]);
      assert s[..n] + s[n..k] == s[..k];
      assert s[..k][n..] == s[n..][..k - n];
      assert RuneLength(s[..n]) == n;
    }
  }

  /** Going back from any byte a character starts within three steps. */
  lemma {:induction false} StartIsNear(s: seq<byte>, k: nat) returns (j: nat)
    requires WellFormed(s) && k < |s|
    ensures j <= k <= j + 3 && RuneStart(s[j])
    decreases |s|
  {
    var n := RuneLength(s);
    if k < n {
      j := 0;
      RuneBytes(s, 0);
    } else {
      var i := StartIsNear(s[n..], k - n);
      j := n + i;
    }
  }

  /** The result is well-formed, within the limit, and the longest such prefix of the sanitised text; when
      that had to be cut at most three bytes of the limit stay unused.  The flag says exactly whether
      the text was changed. */
  method TruncateActivityString(value: seq<byte>, maxBytes: nat) returns (text: seq<byte>, truncated: bool)
    ensures WellFormed(text) && |text| <= maxBytes
    ensures text <= Sanitized(value, false)
    ensures |Sanitized(value, false)| > maxBytes ==> |text| + 3 >= maxBytes
    ensures forall k :: |text| < k <= maxBytes && k <= |Sanitized(value, false)| ==>
              !WellFormed(Sanitized(value, false)[..k])
    ensures truncated <==> text != value
    ensures text == value <==> WellFormed(value) && |value| <= maxBytes
  {
    hide RuneLength, Sanitized;
    var valid := Sanitized(value, false);
    SanitizedWellFormed(value, false);
    SanitizedUnchanged(value);
    truncated := valid != value;
    if |valid| <= maxBytes {
      return valid, truncated;
    }
    var cut := maxBytes;
    ghost var near := StartIsNear(valid, maxBytes);
    while cut > 0 && !RuneStart(valid[cut])
      invariant near <= cut <= maxBytes
      invariant forall k :: cut < k <= maxBytes ==> !RuneStart(valid[k])
    {
      cut := cut - 1;
    }
    forall k | cut <= k <= maxBytes ensures WellFormed(valid[..k]) <==> RuneStart(valid[k]) {
      CutIffStart(valid, k);
    }
    return valid[..cut], true;
  }
}
