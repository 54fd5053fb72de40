/** The printed form of a password hash and its parser (internal/credential/password.go).  The key
    derivation function is a parameter, and the random salt an argument. */
module PasswordHash {
  import opened Bytes
  import opened Options
  import opened Strings
  import Decimal
  import Base64

  const MAX_UINT32: nat := 0xFFFF_FFFF

  datatype Params = Params(memory: nat, time: nat, threads: nat, keyLen: nat)
  datatype Error =
    | EmptyPassword | BadParams | BadFormat | BadItem | BadNumber | BadParallelism | UnknownItem
    | BadSalt | BadKey | Incomplete
  datatype Result<T> = Ok(value: T) | Err(error: Error)
  datatype Parts = Parts(params: Params, salt: seq<byte>, key: seq<byte>)

  // password, salt, time, memory, threads, length of the key
  type Kdf = (string, seq<byte>, nat, nat, nat, nat) -> seq<byte>

  /** The values the fields of HashParams can hold. */
  predicate InRange(p: Params) {
    p.memory <= MAX_UINT32 && p.time <= MAX_UINT32 && p.threads <= 255 && p.keyLen <= MAX_UINT32
  }

  // ---------- printing ----------

  /** The parameter list with these numerals. */
  function ParamText(m: string, t: string, h: string): string {
    "m=" + m + ",t=" + t + ",p=" + h
  }

  function Form(params: string, salt: string, key: string): string {
    "$argon2id$v=19$" + params + "$" + salt + "$" + key
  }

  function Print(p: Params, salt: seq<byte>, key: seq<byte>): string {
    Form(ParamText(Decimal.Print(p.memory), Decimal.Print(p.time), Decimal.Print(p.threads)),
         Base64.Encode(salt), Base64.Encode(key))
  }

  function HashPassword(kdf: Kdf, password: string, p: Params, salt: seq<byte>): (r: Result<string>)
    ensures r.Ok? <==> password != "" && p.memory > 0 && p.time > 0 && p.threads > 0 && p.keyLen > 0
  {
    if password == "" then Err(EmptyPassword)
    else if p.memory == 0 || p.time == 0 || p.threads == 0 || p.keyLen == 0 then Err(BadParams)
    else Ok(Print(p, salt, kdf(password, salt, p.time, p.memory, p.threads, p.keyLen)))
  }

  // ---------- parsing ----------

  /** strings.Cut at the first equals sign. */
  function CutAtEquals(s: string): Option<(string, string)> {
    if s == "" then None
    else if s[0] == '=' then Some(("", s[1..]))
    else match CutAtEquals(s[1..])
      case None => None
      case Some(pair) => Some(([s[0]] + pair.0, pair.1))
  }

  // strconv.ParseUint(s, 10, 32)
  function ParseUint32(s: string): Option<nat> {
    if s != "" && Decimal.AllDigits(s) && Decimal.Value(s) <= MAX_UINT32 then Some(Decimal.Value(s)) else None
  }

  function ParseItem(item: string, p: Params): Result<Params> {
    match CutAtEquals(item)
    case None => Err(BadItem)
    case Some(pair) =>
      match ParseUint32(pair.1)
      case None => Err(BadNumber)
      case Some(n) =>
        if pair.0 == "m" then Ok(p.(memory := n))
        else if pair.0 == "t" then Ok(p.(time := n))
        else if pair.0 == "p" then if n > 255 then Err(BadParallelism) else Ok(p.(threads := n))
        else Err(UnknownItem)
  }

  function ParseItems(items: seq<string>, p: Params): Result<Params> {
    if items == [] then Ok(p)
    else match ParseItem(items[0], p)
      case Err(e) => Err(e)
      case Ok(q) => ParseItems(items[1..], q)
  }

  function Finish(p: Params, saltText: string, keyText: string): Result<Parts> {
    match Base64.Decode(saltText)
    case None => Err(BadSalt)
    case Some(salt) =>
      match Base64.Decode(keyText)
      case None => Err(BadKey)
      case Some(key) =>
        if p.memory == 0 || p.time == 0 || p.threads == 0 || salt == [] || key == [] then Err(Incomplete)
        else Ok(Parts(p, salt, key))
  }

  function Parse(encoded: string): Result<Parts> {
    var parts := Split(encoded, '$');
    if |parts| != 6 || parts[1] != "argon2id" || parts[2] != "v=19" then Err(BadFormat)
    else match ParseItems(Split(parts[3], ','), Params(0, 0, 0, 0))
      case Err(e) => Err(e)
      case Ok(p) => Finish(p, parts[4], parts[5])
  }

  method ParsePasswordHash(encoded: string) returns (r: Result<Parts>)
    ensures r == Parse(encoded)
  {
    var parts := Split(encoded, '$');
    if |parts| != 6 || parts[1] != "argon2id" || parts[2] != "v=19" {
      return Err(BadFormat);
    }
    var p := Params(0, 0, 0, 0);
    var items := Split(parts[3], ',');
    for i := 0 to |items|
      invariant ParseItems(items, Params(0, 0, 0, 0)) == ParseItems(items[i..], p)
    {
      var item := CutAtEquals(items[i]);
      if item.None? {
        return Err(BadItem);
      }
      var (name, text) := item.value;
      var parsed := ParseUint32(text);
      if parsed.None? {
        return Err(BadNumber);
      }
      match name
      case "m" => p := p.(memory := parsed.value);
      case "t" => p := p.(time := parsed.value);
      case "p" =>
        if parsed.value > 255 {
          return Err(BadParallelism);
        }
        p := p.(threads := parsed.value);
      case _ => return Err(UnknownItem);
    }
    var salt := Base64.Decode(parts[4]);
    if salt.None? {
      return Err(BadSalt);
    }
    var key := Base64.Decode(parts[5]);
    if key.None? {
      return Err(BadKey);
    }
    if p.memory == 0 || p.time == 0 || p.threads == 0 || salt.value == [] || key.value == [] {
      return Err(Incomplete);
    }
    return Ok(Parts(p, salt.value, key.value));
  }

  // ---------- what the parameter list means ----------

  /** The items that are read at all. */
  predicate ItemOk(item: string) {
    match CutAtEquals(item)
    case None => false
    case Some(pair) =>
      pair.0 in {"m", "t", "p"} && ParseUint32(pair.1).Some? && (pair.0 == "p" ==> ParseUint32(pair.1).value <= 255)
  }

  function NameOf(item: string): string
    requires ItemOk(item)
  {
    CutAtEquals(item).value.0
  }

  function NumberOf(item: string): nat
    requires ItemOk(item)
  {
    ParseUint32(CutAtEquals(item).value.1).value
  }

  predicate ItemsOk(items: seq<string>) {
    forall i :: 0 <= i < |items| ==> ItemOk(items[i])
  }

  /** The number of the last item with a name. */
  function LastOf(items: seq<string>, name: string, otherwise: nat): nat
    requires ItemsOk(items)
  {
    if items == [] then otherwise
    else
      var n := |items| - 1;
      if NameOf(items[n]) == name then NumberOf(items[n]) else LastOf(items[..n], name, otherwise)
  }

  /** A parameter list is read exactly when each item is well-formed, and then the last item of each name
      counts. */
  lemma {:induction false} ItemsMeaning(items: seq<string>, p: Params)
    ensures ParseItems(items, p).Ok? <==> ItemsOk(items)
    ensures ParseItems(items, p).Ok? ==>
      ParseItems(items, p).value ==
          Params(LastOf(items, "m", p.memory), LastOf(items, "t", p.time), LastOf(items, "p", p.threads), p.keyLen)
  {
    if items != [] {
      assert ParseItem(items[0], p).Ok? <==> ItemOk(items[0]);
      assert items == [items[0]] + items[1..];
      if ItemOk(items[0]) {
        var q := ParseItem(items[0], p).value;
        ItemsMeaning(items[1..], q);
        if ItemsOk(items) {
          LastOfCons(items, "m", p.memory);
          LastOfCons(items, "t", p.time);
          LastOfCons(items, "p", p.threads);
        }
      }
    }
  }

  lemma {:induction false} LastOfCons(items: seq<string>, name: string, otherwise: nat)
    requires items != [] && ItemsOk(items)
    ensures LastOf(items, name, otherwise) ==
      LastOf(items[1..], name, if NameOf(items[0]) == name then NumberOf(items[0]) else otherwise)
  {
    var n := |items| - 1;
    if n == 0 {
      assert items[..n] == [] && items[1..] == [];
    } else {
      LastOfCons(items[..n], name, otherwise);
      assert items[..n][1..] == items[1..][..n - 1];
    }
  }

  // ---------- round trip ----------

  lemma NoMark(s: string, c: char)
    requires Decimal.AllDigits(s) && !Decimal.IsDigit(c)
    ensures c !in s
  {
  }

  lemma NoMarkInBase64(s: string)
    requires Base64.AllDigits(s)
    ensures '$' !in s
  {
  }

  function Item(name: char, digits: string): string {
    [name, '='] + digits
  }

  lemma ItemIsCut(name: char, digits: string)
    requires name != '='
    ensures CutAtEquals(Item(name, digits)) == Some(([name], digits))
  {
    var item := Item(name, digits);
    assert item[1..] == ['='] + digits;
    assert item[1..][1..] == digits;
    assert CutAtEquals(item[1..]) == Some(("", digits));
    assert [name] + "" == [name];
  }

  lemma SplitThree(a: string, b: string, c: string, mark: char)
    requires mark !in a && mark !in b && mark !in c
    ensures Split(a + [mark] + b + [mark] + c, mark) == [a, b, c]
  {
    SplitPlain(c, mark);
    SplitConcat(b, c, mark);
    SplitConcat(a, b + [mark] + c, mark);
    assert a + [mark] + (b + [mark] + c) == a + [mark] + b + [mark] + c;
  }

  lemma TextIsItems(m: string, t: string, h: string)
    requires Decimal.AllDigits(m) && Decimal.AllDigits(t) && Decimal.AllDigits(h)
    ensures Split(ParamText(m, t, h), ',') == [Item('m', m), Item('t', t), Item('p', h)]
    ensures '$' !in ParamText(m, t, h)
  {
    forall s, c | s in {m, t, h} && c in {',', '$'} ensures c !in s {
      NoMark(s, c);
    }
    hide Decimal.AllDigits;
    var a, b, c := Item('m', m), Item('t', t), Item('p', h);
    assert ParamText(m, t, h) == a + [','] + b + [','] + c;
    SplitThree(a, b, c, ',');
  }

  /** Numerals that fit into the fields. */
  predicate Fits(m: string, t: string, h: string) {
    && Decimal.AllDigits(m) && Decimal.AllDigits(t) && Decimal.AllDigits(h) && m != "" && t != "" && h != ""
    && Decimal.Value(m) < 0x1_0000_0000 && Decimal.Value(t) < 0x1_0000_0000 && Decimal.Value(h) < 256
  }

  lemma TextIsParams(m: string, t: string, h: string)
    requires Fits(m, t, h)
    ensures ParseItems(Split(ParamText(m, t, h), ','), Params(0, 0, 0, 0)) ==
              Ok(Params(Decimal.Value(m), Decimal.Value(t), Decimal.Value(h), 0))
  {
    TextIsItems(m, t, h);
    ItemIsCut('m', m);
    ItemIsCut('t', t);
    ItemIsCut('p', h);
    hide ParamText, CutAtEquals, Item, Split, Decimal.Value, Decimal.AllDigits;
    var a, b, c := Item('m', m), Item('t', t), Item('p', h);
    var x, y, z := Decimal.Value(m), Decimal.Value(t), Decimal.Value(h);
    assert [a, b, c][1..] == [b, c] && [b, c][1..] == [c] && [c][1..] == [];
    assert ParseItems([c], Params(x, y, 0, 0)) == Ok(Params(x, y, z, 0));
    assert ParseItems([b, c], Params(x, 0, 0, 0)) == Ok(Params(x, y, z, 0));
  }

  lemma SplitHead(tail: string)
    ensures Split("$argon2id$v=19$" + tail, '$') == ["", "argon2id", "v=19"] + Split(tail, '$')
  {
    hide Split;
    SplitConcat("v=19", tail, '$');
    SplitConcat("argon2id", "v=19$" + tail, '$');
    SplitConcat("", "argon2id$v=19$" + tail, '$');
    assert "v=19" + ['$'] + tail == "v=19$" + tail;
    assert "argon2id" + ['$'] + ("v=19$" + tail) == "argon2id$v=19$" + tail;
    assert "" + ['$'] + ("argon2id$v=19$" + tail) == "$argon2id$v=19$" + tail;
  }

  lemma FormParts(params: string, salt: string, key: string)
    requires '$' !in params && '$' !in salt && '$' !in key
    ensures Split(Form(params, salt, key), '$') == ["", "argon2id", "v=19", params, salt, key]
  {
    hide Split;
    var tail := params + ['$'] + salt + ['$'] + key;
    SplitThree(params, salt, key, '$');
    SplitHead(tail);
    assert Form(params, salt, key) == "$argon2id$v=19$" + tail;
  }

  /** How a text of the printed shape is read, whatever its numerals and its base64. */
  lemma ParseForm(m: string, t: string, h: string, salt: string, key: string)
    requires Fits(m, t, h) && Base64.AllDigits(salt) && Base64.AllDigits(key)
    ensures Parse(Form(ParamText(m, t, h), salt, key)) ==
              Finish(Params(Decimal.Value(m), Decimal.Value(t), Decimal.Value(h), 0), salt, key)
  {
    hide ParamText, Form, Split, ParseItems, Finish;
    TextIsItems(m, t, h);
    TextIsParams(m, t, h);
    NoMarkInBase64(salt);
    NoMarkInBase64(key);
    FormParts(ParamText(m, t, h), salt, key);
  }

  /** The parameters and bytes a hash is printed from can be read back when they are what the fields can
      hold, none is zero and neither byte string is empty; otherwise the printed form is refused.  The
      key length is not printed and reads as zero. */
  lemma ParsePrint(p: Params, salt: seq<byte>, key: seq<byte>)
    requires InRange(p)
    ensures Parse(Print(p, salt, key)) ==
      if p.memory > 0 && p.time > 0 && p.threads > 0 && salt != [] && key != []
      then Ok(Parts(p.(keyLen := 0), salt, key))
      else Err(Incomplete)
  {
    hide Parse, Form, ParamText, Decimal.Print, Base64.Encode, Base64.Decode;
    Decimal.ValuePrint(p.memory);
    Decimal.ValuePrint(p.time);
    Decimal.ValuePrint(p.threads);
    Base64.EncodeDigits(salt);
    Base64.EncodeDigits(key);
    Base64.DecodeEncode(salt);
    Base64.DecodeEncode(key);
    ParseForm(Decimal.Print(p.memory), Decimal.Print(p.time), Decimal.Print(p.threads),
              Base64.Encode(salt), Base64.Encode(key));
  }

  lemma FlatForm(m: string, t: string, h: string, salt: string, key: string)
    ensures Form(ParamText(m, t, h), salt, key) ==
              "$argon2id$v=19$m=" + m + ",t=" + t + ",p=" + h + "$" + salt + "$" + key
  {
  }

  /** What a text of the printed shape means: memory, then time, then threads, then salt and key.  The numbers
      may have leading zeros, and none may be zero; salt and key are any base64 that is not empty. */
  lemma FormMeans(m: string, t: string, h: string, salt: string, key: string)
    requires Fits(m, t, h) && Base64.AllDigits(salt) && Base64.AllDigits(key)
    ensures var r := Parse("$argon2id$v=19$m=" + m + ",t=" + t + ",p=" + h + "$" + salt + "$" + key);
            var memory, time, threads := Decimal.Value(m), Decimal.Value(t), Decimal.Value(h);
            if memory == 0 || time == 0 || threads == 0 || salt == "" || |salt| % 4 == 1 || key == "" || |key| % 4 == 1
            then r.Err?
            else r == Ok(Parts(Params(memory, time, threads, 0), Base64.DecodeDigits(salt), Base64.DecodeDigits(key)))
  {
    hide Parse, Decimal.AllDigits, Decimal.Value, Fits, Base64.AllDigits, Base64.Decode;
    ParseForm(m, t, h, salt, key);
    Base64.ReadsDigits(salt);
    Base64.ReadsDigits(key);
    FlatForm(m, t, h, salt, key);
  }

  predicate Numeral(s: string) {
    Decimal.AllDigits(s) && s != "" && (|s| > 1 ==> s[0] != '0')
  }

  /** The printed form, in which numbers have no leading zeros. */
  lemma PrintForm(m: string, t: string, h: string, keyLen: nat, salt: seq<byte>, key: seq<byte>)
    requires Numeral(m) && Numeral(t) && Numeral(h)
    ensures Print(Params(Decimal.Value(m), Decimal.Value(t), Decimal.Value(h), keyLen), salt, key) ==
              "$argon2id$v=19$m=" + m + ",t=" + t + ",p=" + h + "$" + Base64.Encode(salt) + "$" + Base64.Encode(key)
  {
    Decimal.PrintValue(m);
    Decimal.PrintValue(t);
    Decimal.PrintValue(h);
    hide Base64.Encode, Decimal.Print, Decimal.Value, Decimal.AllDigits, Form, ParamText;
    FlatForm(m, t, h, Base64.Encode(salt), Base64.Encode(key));
  }

  predicate Complete(r: Parts) {
    && InRange(r.params) && r.params.memory > 0 && r.params.time > 0 && r.params.threads > 0 && r.params.keyLen == 0
    && r.salt != [] && r.key != []
  }

  lemma {:induction false} LastInRange(items: seq<string>, name: string, otherwise: nat)
    requires ItemsOk(items) && otherwise <= if name == "p" then 255 else MAX_UINT32
    ensures LastOf(items, name, otherwise) <= if name == "p" then 255 else MAX_UINT32
  {
    if items != [] {
      LastInRange(items[..|items| - 1], name, otherwise);
    }
  }

  /** What the parser accepts, whatever the text, is complete; printing it again and reading that gives
      the same result. */
  lemma ParsedIsStable(encoded: string)
    requires Parse(encoded).Ok?
    ensures Complete(Parse(encoded).value)
    ensures var r := Parse(encoded).value; Parse(Print(r.params, r.salt, r.key)) == Ok(r)
  {
    var items := Split(Split(encoded, '$')[3], ',');
    ItemsMeaning(items, Params(0, 0, 0, 0));
    LastInRange(items, "m", 0);
    LastInRange(items, "t", 0);
    LastInRange(items, "p", 0);
    var r := Parse(encoded).value;
    ParsePrint(r.params, r.salt, r.key);
  }

  // ---------- verifying a password ----------

  function VerifyPassword(kdf: Kdf, encoded: string, password: string): bool {
    var parsed := Parse(encoded);
    if parsed.Err? || password == "" then false
    else
      var r := parsed.value;
      kdf(password, r.salt, r.params.time, r.params.memory, r.params.threads, |r.key| % (MAX_UINT32 + 1)) == r.key
  }

  /** A derived key has the length asked for. */
  ghost predicate KeyLengthOk(kdf: Kdf) {
    forall password, salt, time, memory, threads, n :: |kdf(password, salt, time, memory, threads, n)| == n
  }

  /** A stored hash accepts the password it was made from and exactly those that derive the same key. */
  lemma VerifyIffSameKey(kdf: Kdf, password: string, p: Params, salt: seq<byte>, attempt: string)
    requires KeyLengthOk(kdf) && InRange(p) && salt != []
    requires HashPassword(kdf, password, p, salt).Ok?
    ensures VerifyPassword(kdf, HashPassword(kdf, password, p, salt).value, attempt) <==>
      attempt != "" && kdf(attempt, salt, p.time, p.memory, p.threads, p.keyLen) ==
          kdf(password, salt, p.time, p.memory, p.threads, p.keyLen)
    ensures VerifyPassword(kdf, HashPassword(kdf, password, p, salt).value, password)
  {
    var key := kdf(password, salt, p.time, p.memory, p.threads, p.keyLen);
    assert |key| == p.keyLen && |key| % (MAX_UINT32 + 1) == p.keyLen;
    hide Parse, Print, KeyLengthOk;
    ParsePrint(p, salt, key);
  }
}
