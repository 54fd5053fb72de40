/** Unpadded base64 with the standard alphabet (sections 3.2 and 4 of RFC 4648), read the way Go's
    RawStdEncoding reads it: line breaks are skipped and unused trailing bits are ignored. */
module Base64 {
  import opened Bytes
  import opened Options

  /** The table of section 4. */
  function Digit(v: int): char
    requires 0 <= v < 64
  {
    if v < 26 then ('A' as int + v) as char
    else if v < 52 then ('a' as int + (v - 26)) as char
    else if v < 62 then ('0' as int + (v - 52)) as char
    else if v == 62 then '+' else '/'
  }

  predicate IsDigit(c: char) {
    'A' <= c <= 'Z' || 'a' <= c <= 'z' || '0' <= c <= '9' || c == '+' || c == '/'
  }

  function Value(c: char): (v: int)
    requires IsDigit(c)
    ensures 0 <= v < 64 && Digit(v) == c
  {
    if 'A' <= c <= 'Z' then c as int - 'A' as int
    else if 'a' <= c <= 'z' then c as int - 'a' as int + 26
    else if '0' <= c <= '9' then c as int - '0' as int + 52
    else if c == '+' then 62 else 63
  }

  function Encode(b: seq<byte>): string {
    if |b| == 0 then ""
    else if |b| == 1 then [Digit(b[0] / 4), Digit(b[0] % 4 * 16)]
    else if |b| == 2 then [Digit(b[0] / 4), Digit(b[0] % 4 * 16 + b[1] / 16), Digit(b[1] % 16 * 4)]
    else Quantum(b[0], b[1], b[2]) + Encode(b[3..])
  }

  function Quantum(x: byte, y: byte, z: byte): (q: string)
    ensures |q| == 4
  {
    [Digit(x / 4), Digit(x % 4 * 16 + y / 16), Digit(y % 16 * 4 + z / 64), Digit(z % 64)]
  }

  predicate AllDigits(s: string) {
    forall i :: 0 <= i < |s| ==> IsDigit(s[i])
  }

  function Bytes3(a: char, b: char, c: char, d: char): (r: seq<byte>)
    requires IsDigit(a) && IsDigit(b) && IsDigit(c) && IsDigit(d)
    ensures |r| == 3
  {
    [Value(a) * 4 + Value(b) / 16, Value(b) % 16 * 16 + Value(c) / 4, Value(c) % 4 * 64 + Value(d)]
  }

  function DecodeDigits(s: string): seq<byte>
    requires AllDigits(s) && |s| % 4 != 1
  {
    if |s| == 0 then []
    else if |s| == 2 then Bytes3(s[0], s[1], 'A', 'A')[..1]
    else if |s| == 3 then Bytes3(s[0], s[1], s[2], 'A')[..2]
    else Bytes3(s[0], s[1], s[2], s[3]) + DecodeDigits(s[4..])
  }

  function WithoutBreaks(s: string): string {
    if s == "" then ""
    else if s[0] == '\r' || s[0] == '\n' then WithoutBreaks(s[1..])
    else [s[0]] + WithoutBreaks(s[1..])
  }

  function Decode(s: string): Option<seq<byte>> {
    var digits := WithoutBreaks(s);
    if AllDigits(digits) && |digits| % 4 != 1 then Some(DecodeDigits(digits)) else None
  }

  lemma {:induction false} NoBreaks(s: string)
    requires AllDigits(s)
    ensures WithoutBreaks(s) == s
  {
    if s != "" {
      NoBreaks(s[1..]);
      assert s == [s[0]] + s[1..];
    }
  }

  lemma DigitValue(v: int)
    requires 0 <= v < 64
    ensures IsDigit(Digit(v)) && Value(Digit(v)) == v
  {
  }

  /** Six bits here and there: the arithmetic of one quantum. */
  lemma SixBits(x: byte, y: byte, z: byte)
    ensures var b, c := x % 4 * 16 + y / 16, y % 16 * 4 + z / 64;
            && 0 <= b < 64 && 0 <= c < 64
            && x / 4 * 4 + b / 16 == x && b % 16 * 16 + c / 4 == y && c % 4 * 64 + z % 64 == z
  {
    assert (x % 4 * 16 + y / 16) / 16 == x % 4 && (x % 4 * 16 + y / 16) % 16 == y / 16;
    assert (y % 16 * 4 + z / 64) / 4 == y % 16 && (y % 16 * 4 + z / 64) % 4 == z / 64;
  }

  lemma QuantumDigits(a: int, b: int, c: int, d: int)
    requires 0 <= a < 64 && 0 <= b < 64 && 0 <= c < 64 && 0 <= d < 64
    ensures IsDigit(Digit(a)) && IsDigit(Digit(b)) && IsDigit(Digit(c)) && IsDigit(Digit(d))
    ensures [a * 4 + b / 16, b % 16 * 16 + c / 4, c % 4 * 64 + d] == Bytes3(Digit(a), Digit(b), Digit(c), Digit(d))
  {
    hide Digit, Value, IsDigit;
    DigitValue(a);
    DigitValue(b);
    DigitValue(c);
    DigitValue(d);
  }

  lemma QuantumRoundTrip(x: byte, y: byte, z: byte)
    ensures AllDigits(Quantum(x, y, z))
    ensures var q := Quantum(x, y, z); Bytes3(q[0], q[1], q[2], q[3]) == [x, y, z]
  {
    hide Digit, Bytes3, IsDigit;
    SixBits(x, y, z);
    QuantumDigits(x / 4, x % 4 * 16 + y / 16, y % 16 * 4 + z / 64, z % 64);
  }

  lemma TailRoundTrip(b: seq<byte>)
    requires |b| == 1 || |b| == 2
    ensures AllDigits(Encode(b)) && |Encode(b)| % 4 != 1 && DecodeDigits(Encode(b)) == b
  {
    DigitValue(b[0] / 4);
    if |b| == 1 {
      DigitValue(b[0] % 4 * 16);
    } else {
      DigitValue(b[0] % 4 * 16 + b[1] / 16);
      DigitValue(b[1] % 16 * 4);
    }
    hide Digit, Value;
  }

  lemma DecodeStep(q: string, rest: string)
    requires |q| == 4 && AllDigits(q) && AllDigits(rest) && |rest| % 4 != 1
    ensures AllDigits(q + rest) && |q + rest| % 4 != 1
    ensures DecodeDigits(q + rest) == Bytes3(q[0], q[1], q[2], q[3]) + DecodeDigits(rest)
  {
    hide Value, IsDigit, Bytes3;
    assert |q + rest| == 4 + |rest|;
    assert (q + rest)[4..] == rest;
  }

  lemma {:induction false} EncodeDigits(b: seq<byte>)
    ensures AllDigits(Encode(b)) && |Encode(b)| % 4 != 1 && DecodeDigits(Encode(b)) == b
  {
    if |b| == 1 || |b| == 2 {
      TailRoundTrip(b);
    } else if |b| > 2 {
      var q, rest := Quantum(b[0], b[1], b[2]), Encode(b[3..]);
      assert Encode(b) == q + rest;
      EncodeDigits(b[3..]);
      QuantumRoundTrip(b[0], b[1], b[2]);
      hide Encode, DecodeDigits, AllDigits, Bytes3, Quantum;
      DecodeStep(q, rest);
      assert b == [b[0], b[1], b[2]] + b[3..];
    }
  }

  /** Decoding undoes encoding, for all bytes. */
  lemma DecodeEncode(b: seq<byte>)
    ensures Decode(Encode(b)) == Some(b)
    ensures b != [] ==> Encode(b) != ""
  {
    EncodeDigits(b);
    NoBreaks(Encode(b));
  }

  // ---------- what the digits mean ----------

  /** The alphabet of table 1: the capital letters, the small letters, the numerals, plus and slash. */
  lemma Alphabet(v: int)
    requires 0 <= v < 63
    ensures Digit(0) == 'A' && Digit(25) == 'Z' && Digit(26) == 'a' && Digit(51) == 'z'
    ensures Digit(52) == '0' && Digit(61) == '9' && Digit(62) == '+' && Digit(63) == '/'
    ensures v !in {25, 51, 61, 62} ==> Digit(v + 1) as int == Digit(v) as int + 1
  {
  }

  function Number(digits: string): int
    requires AllDigits(digits)
  {
    if digits == "" then 0 else Number(digits[..|digits| - 1]) * 64 + Value(digits[|digits| - 1])
  }

  lemma NumberOfFour(q: string)
    requires AllDigits(q) && |q| == 4
    ensures Number(q) == Value(q[0]) * 262144 + Value(q[1]) * 4096 + Value(q[2]) * 64 + Value(q[3])
  {
    assert q[..3][0] == q[0] && q[..3][1] == q[1] && q[..3][2] == q[2];
    NumberOfThree(q[..3]);
  }

  lemma NumberOfThree(q: string)
    requires AllDigits(q) && |q| == 3
    ensures Number(q) == Value(q[0]) * 4096 + Value(q[1]) * 64 + Value(q[2])
  {
    assert q[..2][0] == q[0] && q[..2][1] == q[1];
    NumberOfTwo(q[..2]);
  }

  lemma NumberOfTwo(q: string)
    requires AllDigits(q) && |q| == 2
    ensures Number(q) == Value(q[0]) * 64 + Value(q[1])
  {
    assert q[..1][..0] == "" && Number(q[..1]) == Value(q[0]);
  }

  /** Three bytes are written as the one number of 24 bits that they are. */
  lemma QuantumAsNumber(x: byte, y: byte, z: byte, rest: seq<byte>)
    ensures Encode([x, y, z] + rest) == Quantum(x, y, z) + Encode(rest)
    ensures AllDigits(Quantum(x, y, z)) && Number(Quantum(x, y, z)) == x * 65536 + y * 256 + z
  {
    hide Digit, Value, Number;
    QuantumRoundTrip(x, y, z);
    var q := Quantum(x, y, z);
    NumberOfFour(q);
    SixBits(x, y, z);
    DigitValue(x / 4);
    DigitValue(x % 4 * 16 + y / 16);
    DigitValue(y % 16 * 4 + z / 64);
    DigitValue(z % 64);
    assert ([x, y, z] + rest)[3..] == rest;
  }

  /** One or two bytes at the end get the fewest zero bits that fill up a digit. */
  lemma TailAsNumber(x: byte, y: byte)
    ensures AllDigits(Encode([x])) && |Encode([x])| == 2 && Number(Encode([x])) == x * 16
    ensures AllDigits(Encode([x, y])) && |Encode([x, y])| == 3 && Number(Encode([x, y])) == (x * 256 + y) * 4
  {
    hide Digit, Value, Number;
    TailRoundTrip([x]);
    TailRoundTrip([x, y]);
    NumberOfTwo(Encode([x]));
    NumberOfThree(Encode([x, y]));
    SixBits(x, y, 0);
    DigitValue(x / 4);
    DigitValue(x % 4 * 16);
    DigitValue(x % 4 * 16 + y / 16);
    DigitValue(y % 16 * 4);
  }

  lemma SixBitsBack(a: int, b: int, c: int, d: int)
    requires 0 <= a < 64 && 0 <= b < 64 && 0 <= c < 64 && 0 <= d < 64
    ensures var x, y, z := a * 4 + b / 16, b % 16 * 16 + c / 4, c % 4 * 64 + d;
            x / 4 == a && x % 4 * 16 + y / 16 == b && y % 16 * 4 + z / 64 == c && z % 64 == d
  {
    var x, y, z := a * 4 + b / 16, b % 16 * 16 + c / 4, c % 4 * 64 + d;
    assert x / 4 == a && x % 4 == b / 16;
    assert y / 16 == b % 16 && y % 16 == c / 4;
    assert z / 64 == c % 4 && z % 64 == d;
  }

  lemma FourBack(a: char, b: char, c: char, d: char)
    requires IsDigit(a) && IsDigit(b) && IsDigit(c) && IsDigit(d)
    ensures var r := Bytes3(a, b, c, d); |r| == 3 && Quantum(r[0], r[1], r[2]) == [a, b, c, d]
  {
    hide Digit, Value, IsDigit;
    SixBitsBack(Value(a), Value(b), Value(c), Value(d));
  }

  lemma EncodeStep(r: seq<byte>, rest: seq<byte>)
    requires |r| == 3
    ensures Encode(r + rest) == Quantum(r[0], r[1], r[2]) + Encode(rest)
  {
    assert (r + rest)[3..] == rest;
  }

  lemma TailBack(s: string)
    requires AllDigits(s) && 2 <= |s| <= 3
    ensures |Encode(DecodeDigits(s))| == |s| && Encode(DecodeDigits(s))[..|s| - 1] == s[..|s| - 1]
  {
    hide Digit, Value, IsDigit;
    SixBitsBack(Value(s[0]), Value(s[1]), if |s| == 3 then Value(s[2]) else 0, 0);
  }

  /** Encoding undoes decoding, but for bits beyond the last whole byte, which are ignored. */
  lemma {:induction false} EncodeDecode(s: string)
    requires AllDigits(s) && |s| % 4 != 1
    ensures var t := Encode(DecodeDigits(s));
            && |t| == |s| && (|s| % 4 == 0 ==> t == s) && (s != "" ==> t[..|s| - 1] == s[..|s| - 1])
  {
    hide IsDigit, Encode, DecodeDigits, Quantum, Bytes3;
    if |s| >= 4 {
      var front, rest := s[..4], s[4..];
      EncodeDecode(rest);
      DecodeStep(front, rest);
      FourBack(s[0], s[1], s[2], s[3]);
      EncodeStep(Bytes3(s[0], s[1], s[2], s[3]), DecodeDigits(rest));
      assert s == front + rest;
      assert Encode(DecodeDigits(s)) == front + Encode(DecodeDigits(rest));
    } else if |s| >= 2 {
      TailBack(s);
    } else {
      EmptyBack();
    }
  }

  lemma EmptyBack()
    ensures Encode(DecodeDigits("")) == ""
  {
  }

  /** Line breaks anywhere make no difference. */
  lemma {:induction false} BreaksAreSkipped(a: string, c: char, b: string)
    requires c == '\r' || c == '\n'
    ensures Decode(a + [c] + b) == Decode(a + b)
  {
    BreakGoes(a, c, b);
  }

  lemma {:induction false} BreakGoes(a: string, c: char, b: string)
    requires c == '\r' || c == '\n'
    ensures WithoutBreaks(a + [c] + b) == WithoutBreaks(a + b)
  {
    if a == "" {
      assert a + [c] + b == [c] + b && a + b == b;
    } else {
      BreakGoes(a[1..], c, b);
      assert (a + [c] + b)[1..] == a[1..] + [c] + b && (a + b)[1..] == a[1..] + b;
    }
  }

  /** Text of digits alone is refused only for its length. */
  lemma ReadsDigits(s: string)
    requires AllDigits(s)
    ensures Decode(s) == if |s| % 4 == 1 then None else Some(DecodeDigits(s))
  {
    NoBreaks(s);
  }

  /** Nothing but digits and line breaks is read. */
  lemma {:induction false} ReadsNothingElse(s: string, i: nat)
    requires Decode(s).Some? && i < |s|
    ensures IsDigit(s[i]) || s[i] == '\r' || s[i] == '\n'
  {
    if !IsDigit(s[i]) && s[i] != '\r' && s[i] != '\n' {
      StrayStays(s, i);
    }
  }

  lemma {:induction false} StrayStays(s: string, i: nat)
    requires i < |s| && !IsDigit(s[i]) && s[i] != '\r' && s[i] != '\n'
    ensures !AllDigits(WithoutBreaks(s))
  {
    if i == 0 {
      assert WithoutBreaks(s)[0] == s[0];
    } else {
      StrayStays(s[1..], i - 1);
      var rest := WithoutBreaks(s[1..]);
      var k :| 0 <= k < |rest| && !IsDigit(rest[k]);
      assert rest[k] == if WithoutBreaks(s) == rest then WithoutBreaks(s)[k] else WithoutBreaks(s)[k + 1];
    }
  }
}
