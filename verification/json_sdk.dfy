/**
 The guest SDK's JSON value, printer and parser (the TypeScript template in src/cmd/origindb_init.cpp).

 Text is a sequence of UTF-16 code units, as in the guest's strings. Numbers are exact reals; how the
 runtime prints a number that is not a safe integer is a parameter.
 */
module JsonSdk {
  import opened Wrappers
  import opened Decimals

  type unit = x: int | 0 <= x < 0x1_0000
  type Text = seq<unit>

  datatype Json =
    | Null
    | Bool(b: bool)
    | Number(x: real)
    | String(s: Text)
    | Array(items: seq<Json>)
    | Object(members: seq<Member>)

  /** Members are kept in insertion order, one per key. */
  datatype Member = Member(key: Text, value: Json)

  const QUOTE: unit := 0x22
  const BACKSLASH: unit := 0x5C
  const COMMA: unit := 0x2C
  const COLON: unit := 0x3A
  const OPEN_BRACKET: unit := 0x5B
  const CLOSE_BRACKET: unit := 0x5D
  const OPEN_BRACE: unit := 0x7B
  const CLOSE_BRACE: unit := 0x7D
  const MINUS: unit := 0x2D

  const TRUE_TEXT: Text := [0x74, 0x72, 0x75, 0x65]
  const FALSE_TEXT: Text := [0x66, 0x61, 0x6C, 0x73, 0x65]
  const NULL_TEXT: Text := [0x6E, 0x75, 0x6C, 0x6C]

  const SAFE: int := 0x20_0000_0000_0000

  // ---- Printing ----

  function NatText(n: nat): (s: Text)
    ensures s != []
  {
    if n < 10 then [0x30 + n] else NatText(n / 10) + [0x30 + n % 10]
  }

  function IntText(n: int): Text {
    if n < 0 then [MINUS] + NatText(-n) else NatText(n)
  }

  /** The number has no fraction and is below 2^53 in magnitude. */
  predicate SafeInteger(x: real) {
    x == x.Floor as real && -SAFE < x.Floor < SAFE
  }

  function HexDigit(d: nat): unit
    requires d < 16
  {
    if d < 10 then 0x30 + d else 0x61 + d - 10
  }

  function Escaped(c: unit): Text {
    if c == QUOTE then [BACKSLASH, QUOTE]
    else if c == BACKSLASH then [BACKSLASH, BACKSLASH]
    else if c == 0x08 then [BACKSLASH, 0x62]
    else if c == 0x0C then [BACKSLASH, 0x66]
    else if c == 0x0A then [BACKSLASH, 0x6E]
    else if c == 0x0D then [BACKSLASH, 0x72]
    else if c == 0x09 then [BACKSLASH, 0x74]
    else if c < 0x20 then [BACKSLASH, 0x75, 0x30, 0x30, HexDigit(c / 16), HexDigit(c % 16)]
    else [c]
  }

  function EscapedText(s: Text): Text
    decreases |s|
  {
    if s == [] then [] else Escaped(s[0]) + EscapedText(s[1..])
  }

  function Quoted(s: Text): Text {
    [QUOTE] + EscapedText(s) + [QUOTE]
  }

  function Print(v: Json, other: real -> Text): Text
    decreases v
  {
    match v
    case Null => NULL_TEXT
    case Bool(b) => if b then TRUE_TEXT else FALSE_TEXT
    case Number(x) => if SafeInteger(x) then IntText(x.Floor) else other(x)
    case String(s) => Quoted(s)
    case Array(items) => [OPEN_BRACKET] + PrintItems(items, other) + [CLOSE_BRACKET]
    case Object(members) => [OPEN_BRACE] + PrintMembers(members, other) + [CLOSE_BRACE]
  }

  function PrintItems(items: seq<Json>, other: real -> Text): Text
    decreases items
  {
    if items == [] then []
    else Print(items[0], other) + (if |items| == 1 then [] else [COMMA] + PrintItems(items[1..], other))
  }

  function PrintMembers(members: seq<Member>, other: real -> Text): Text
    decreases members
  {
    if members == [] then []
    else Quoted(members[0].key) + [COLON] + Print(members[0].value, other)
         + (if |members| == 1 then [] else [COMMA] + PrintMembers(members[1..], other))
  }

  // ---- Parsing, as functions on the text that is left ----

  predicate IsSpace(c: unit) {
    c == 0x20 || c == 0x09 || c == 0x0A || c == 0x0D
  }

  function SkipSpace(s: Text): (r: Text)
    ensures |r| <= |s|
    decreases |s|
  {
    if s != [] && IsSpace(s[0]) then SkipSpace(s[1..]) else s
  }

  predicate IsDigit(c: unit) {
    IsDigitCode(c)
  }

  function DigitsLength(s: Text): (n: nat)
    ensures n <= |s|
    decreases |s|
  {
    if s != [] && IsDigit(s[0]) then 1 + DigitsLength(s[1..]) else 0
  }

  function Head(s: Text): int {
    if s == [] then -1 else s[0]
  }

  /** The fraction at the start of s: its digits and what follows, or None if the point has no digits. */
  function FractionAt(s: Text): (r: Option<(Text, Text)>)
    ensures r.Some? ==> |r.value.1| <= |s|
  {
    if Head(s) != 0x2E then Some(([], s))
    else
      var n := DigitsLength(s[1..]);
      if n == 0 then None else Some((s[1..][..n], s[1..][n..]))
  }

  /** The exponent at the start of s and what follows, or None if the e has no digits. */
  function ExponentAt(s: Text): (r: Option<(int, Text)>)
    ensures r.Some? ==> |r.value.1| <= |s|
  {
    if Head(s) != 0x65 && Head(s) != 0x45 then Some((0, s))
    else
      var signed := Head(s[1..]) == 0x2B || Head(s[1..]) == MINUS;
      var digits := if signed then s[2..] else s[1..];
      var n := DigitsLength(digits);
      if n == 0 then None
      else Some((if Head(s[1..]) == MINUS then -(DigitsValue(digits[..n]) as int) else DigitsValue(digits[..n]), digits[n..]))
  }

  function Decimal(negative: bool, digits: Text, scale: int): real {
    var magnitude := if scale >= 0 then DigitsValue(digits) as real * Power10(scale)
                     else DigitsValue(digits) as real / Power10(-scale);
    if negative then -magnitude else magnitude
  }

  function NumberAt(s: Text): (r: Option<(Json, Text)>)
    ensures r.Some? ==> |r.value.1| < |s|
  {
    var negative := Head(s) == MINUS;
    var digits := if negative then s[1..] else s;
    var n := DigitsLength(digits);
    if n == 0 then None
    else
      var (fraction, rest) :- FractionAt(digits[n..]);
      var (exponent, rest') :- ExponentAt(rest);
      Some((Number(Decimal(negative, digits[..n] + fraction, exponent - |fraction|)), rest'))
  }

  function HexValue(h: unit): Option<nat> {
    if 0x30 <= h <= 0x39 then Some(h - 0x30)
    else if 0x61 <= h <= 0x66 then Some(h - 0x61 + 10)
    else if 0x41 <= h <= 0x46 then Some(h - 0x41 + 10)
    else None
  }

  function FourHex(s: Text): (r: Option<unit>)
    requires |s| >= 4
  {
    var a, b, c, d := HexValue(s[0]), HexValue(s[1]), HexValue(s[2]), HexValue(s[3]);
    if a.None? || b.None? || c.None? || d.None? then None
    else Some(a.value % 16 * 4096 + b.value % 16 * 256 + c.value % 16 * 16 + d.value % 16)
  }

  function Unescaped(e: unit): Option<unit> {
    if e == QUOTE then Some(QUOTE)
    else if e == BACKSLASH then Some(BACKSLASH)
    else if e == 0x2F then Some(0x2F)
    else if e == 0x62 then Some(0x08)
    else if e == 0x66 then Some(0x0C)
    else if e == 0x6E then Some(0x0A)
    else if e == 0x72 then Some(0x0D)
    else if e == 0x74 then Some(0x09)
    else None
  }

  /** The next unit of a string and how much text it takes, or None at a malformed escape. */
  function UnitAt(s: Text): (r: Option<(unit, nat)>)
    requires s != []
    ensures r.Some? ==> 0 < r.value.1 <= |s|
  {
    if s[0] != BACKSLASH then Some((s[0], 1))
    else if |s| < 2 then None
    else if s[1] == 0x75 then
      if |s| < 6 then None
      else
        var code :- FourHex(s[2..]);
        Some((code, 6))
    else
      var c :- Unescaped(s[1]);
      Some((c, 2))
  }

  /** The contents of a string whose opening quote is behind, and what follows its closing quote. */
  function StringAt(s: Text): (r: Option<(Text, Text)>)
    ensures r.Some? ==> |r.value.1| < |s|
    decreases |s|
  {
    if s == [] then None
    else if s[0] == QUOTE then Some(([], s[1..]))
    else
      var (c, n) :- UnitAt(s);
      var (more, rest) :- StringAt(s[n..]);
      Some(([c] + more, rest))
  }

  predicate StartsWith(s: Text, word: Text) {
    |word| <= |s| && s[..|word|] == word
  }

  function WordAt(s: Text, word: Text, v: Json): (r: Option<(Json, Text)>)
    requires word != []
    ensures r.Some? ==> |r.value.1| < |s|
  {
    if StartsWith(s, word) then Some((v, s[|word|..])) else None
  }

  /** Object.set: a new key goes last, a repeated key keeps its place and takes the new value. */
  function SetMember(members: seq<Member>, key: Text, value: Json): seq<Member>
    decreases |members|
  {
    if members == [] then [Member(key, value)]
    else if members[0].key == key then [Member(key, value)] + members[1..]
    else [members[0]] + SetMember(members[1..], key, value)
  }

  function ValueAt(s: Text): (r: Option<(Json, Text)>)
    ensures r.Some? ==> |r.value.1| < |s|
    decreases |s|, 2
  {
    var t := SkipSpace(s);
    if t == [] then None
    else if t[0] == OPEN_BRACE then ObjectAt(t[1..])
    else if t[0] == OPEN_BRACKET then ArrayAt(t[1..])
    else if t[0] == QUOTE then
      var (text, rest) :- StringAt(t[1..]);
      Some((String(text), rest))
    else if t[0] == 0x74 then WordAt(t, TRUE_TEXT, Bool(true))
    else if t[0] == 0x66 then WordAt(t, FALSE_TEXT, Bool(false))
    else if t[0] == 0x6E then WordAt(t, NULL_TEXT, Null)
    else NumberAt(t)
  }

  function ArrayAt(s: Text): (r: Option<(Json, Text)>)
    ensures r.Some? ==> |r.value.1| < |s|
    decreases |s|, 4
  {
    var t := SkipSpace(s);
    if Head(t) == CLOSE_BRACKET then Some((Array([]), t[1..])) else ElementsAt(t, [])
  }

  /** The loop of parseArray with `items` already pushed. */
  function ElementsAt(s: Text, items: seq<Json>): (r: Option<(Json, Text)>)
    ensures r.Some? ==> |r.value.1| < |s|
    decreases |s|, 3
  {
    var (v, rest) :- ValueAt(s);
    var t := SkipSpace(rest);
    if Head(t) == COMMA then ElementsAt(t[1..], items + [v])
    else if Head(t) == CLOSE_BRACKET then Some((Array(items + [v]), t[1..]))
    else None
  }

  function ObjectAt(s: Text): (r: Option<(Json, Text)>)
    ensures r.Some? ==> |r.value.1| < |s|
    decreases |s|, 4
  {
    var t := SkipSpace(s);
    if Head(t) == CLOSE_BRACE then Some((Object([]), t[1..])) else MembersAt(t, [])
  }

  /** The key and colon of a member, and what follows them. */
  function KeyAt(s: Text): (r: Option<(Text, Text)>)
    ensures r.Some? ==> |r.value.1| < |s|
  {
    var t := SkipSpace(s);
    if Head(t) != QUOTE then None
    else
      var (key, rest) :- StringAt(t[1..]);
      var u := SkipSpace(rest);
      if Head(u) != COLON then None else Some((key, u[1..]))
  }

  /** The loop of parseObject with `members` already set. */
  function MembersAt(s: Text, members: seq<Member>): (r: Option<(Json, Text)>)
    ensures r.Some? ==> |r.value.1| < |s|
    decreases |s|, 3
  {
    var (key, afterKey) :- KeyAt(s);
    var (v, rest) :- ValueAt(afterKey);
    var t := SkipSpace(rest);
    if Head(t) == COMMA then MembersAt(t[1..], SetMember(members, key, v))
    else if Head(t) == CLOSE_BRACE then Some((Object(SetMember(members, key, v)), t[1..]))
    else None
  }

  function TryParse(text: Text): Option<Json> {
    var (v, rest) :- ValueAt(text);
    if SkipSpace(rest) == [] then Some(v) else None
  }

  // ---- Round trip ----

  /** Built from null, booleans, safe integers, strings, arrays and objects with distinct keys. */
  predicate Plain(v: Json)
    decreases v
  {
    match v
    case Number(x) => SafeInteger(x)
    case Array(items) => forall i :: 0 <= i < |items| ==> Plain(items[i])
    case Object(members) => DistinctKeys(members) && forall i :: 0 <= i < |members| ==> Plain(members[i].value)
    case _ => true
  }

  predicate DistinctKeys(members: seq<Member>) {
    forall i, j :: 0 <= i < j < |members| ==> members[i].key != members[j].key
  }

  /** What may follow a value without being read as part of a number. */
  predicate EndsNumber(rest: Text) {
    rest == [] || (!IsDigit(rest[0]) && rest[0] != 0x2E && rest[0] != 0x65 && rest[0] != 0x45)
  }

  lemma {:induction false} NatTextDigits(n: nat, rest: Text)
    requires rest == [] || !IsDigit(rest[0])
    ensures DigitsLength(NatText(n) + rest) == |NatText(n)|
    ensures DigitsValue(NatText(n)) == n
    decreases n
  {
    if n < 10 {
      assert (NatText(n) + rest)[1..] == rest;
    } else {
      var last: Text := [0x30 + n % 10];
      NatTextLength(n / 10, last + rest);
      assert NatText(n) + rest == NatText(n / 10) + (last + rest);
      assert (last + rest)[1..] == rest;
      NatTextDigits(n / 10, []);
      assert NatText(n)[..|NatText(n)| - 1] == NatText(n / 10);
    }
  }

  /** Digits after digits are counted too. */
  lemma {:induction false} NatTextLength(n: nat, rest: Text)
    ensures DigitsLength(NatText(n) + rest) == |NatText(n)| + DigitsLength(rest)
    decreases n
  {
    if n < 10 {
      assert (NatText(n) + rest)[1..] == rest;
    } else {
      var last: Text := [0x30 + n % 10];
      NatTextLength(n / 10, last + rest);
      assert NatText(n) + rest == NatText(n / 10) + (last + rest);
      assert (last + rest)[1..] == rest;
    }
  }

  lemma {:induction false} NatTextHead(n: nat)
    ensures IsDigit(NatText(n)[0])
    decreases n
  {
    if n >= 10 {
      NatTextHead(n / 10);
    }
  }

  lemma NumberRoundTrip(n: int, rest: Text)
    requires EndsNumber(rest)
    ensures NumberAt(IntText(n) + rest) == Some((Number(n as real), rest))
  {
    hide DigitsLength, DigitsValue, NatText, FractionAt, ExponentAt, Decimal;
    var magnitude := if n < 0 then -n else n;
    var digits := NatText(magnitude);
    NatTextHead(magnitude);
    NatTextDigits(magnitude, rest);
    NumberEnds(rest);
    WholeDecimal(n < 0, digits, magnitude);
    var s := IntText(n) + rest;
    assert n < 0 ==> s[1..] == digits + rest;
    assert (digits + rest)[|digits|..] == rest && (digits + rest)[..|digits|] == digits;
    assert digits + [] == digits;
  }

  lemma NumberEnds(rest: Text)
    requires EndsNumber(rest)
    ensures FractionAt(rest) == Some(([], rest)) && ExponentAt(rest) == Some((0, rest))
  {
  }

  lemma WholeDecimal(negative: bool, digits: Text, magnitude: nat)
    requires DigitsValue(digits) == magnitude
    ensures Decimal(negative, digits, 0) == if negative then -(magnitude as real) else magnitude as real
  {
    hide DigitsValue;
    assert Power10(0) == 1.0;
  }

  // ---- Numbers with a fraction or an exponent ----

  lemma {:induction false} DigitsRun(digits: Text, rest: Text)
    requires AllDigits(digits) && (rest == [] || !IsDigit(rest[0]))
    ensures DigitsLength(digits + rest) == |digits|
    decreases |digits|
  {
    if digits == [] {
      assert digits + rest == rest;
    } else {
      assert (digits + rest)[1..] == digits[1..] + rest;
      DigitsRun(digits[1..], rest);
    }
  }

  /** An exponent as JSON allows it: e or E, an optional sign, digits. */
  datatype ExponentPart = ExponentPart(mark: unit, sign: Text, digits: Text)

  predicate WfExponent(e: ExponentPart) {
    && (e.mark == 0x65 || e.mark == 0x45)
    && (e.sign == [] || e.sign == [0x2B] || e.sign == [MINUS])
    && e.digits != [] && AllDigits(e.digits)
  }

  function ExponentText(e: Option<ExponentPart>): Text {
    if e.None? then [] else [e.value.mark] + e.value.sign + e.value.digits
  }

  function ExponentValue(e: Option<ExponentPart>): int {
    if e.None? then 0
    else if e.value.sign == [MINUS] then -(DigitsValue(e.value.digits) as int)
    else DigitsValue(e.value.digits)
  }

  function FractionText(fraction: Text): Text {
    if fraction == [] then [] else [0x2E] + fraction
  }

  function DecimalText(negative: bool, whole: Text, fraction: Text, e: Option<ExponentPart>): Text {
    (if negative then [MINUS] else []) + whole + FractionText(fraction) + ExponentText(e)
  }

  /** x is plus or minus the number the digits write, moved by `places` decimal places to the left. */
  predicate Places(x: real, negative: bool, digits: Text, places: int) {
    var signed := if negative then -(DigitsValue(digits) as real) else DigitsValue(digits) as real;
    if places >= 0 then x * Power10(places) == signed else x == signed * Power10(-places)
  }

  lemma UnsignedExponentRead(mark: unit, digits: Text, rest: Text)
    requires (mark == 0x65 || mark == 0x45) && digits != [] && AllDigits(digits) && EndsNumber(rest)
    ensures ExponentAt([mark] + (digits + rest)) == Some((DigitsValue(digits), rest))
  {
    hide DigitsLength, DigitsValue;
    var ds := digits + rest;
    DigitsRun(digits, rest);
    assert IsDigitCode(digits[0]) && ds[0] == digits[0];
    assert ([mark] + ds)[1..] == ds;
    assert ds[..|digits|] == digits && ds[|digits|..] == rest;
  }

  lemma SignedExponentRead(mark: unit, sign: unit, digits: Text, rest: Text)
    requires (mark == 0x65 || mark == 0x45) && (sign == 0x2B || sign == MINUS)
    requires digits != [] && AllDigits(digits) && EndsNumber(rest)
    ensures ExponentAt([mark] + ([sign] + (digits + rest)))
            == Some((if sign == MINUS then -(DigitsValue(digits) as int) else DigitsValue(digits), rest))
  {
    hide DigitsLength, DigitsValue, AllDigits;
    var ds := digits + rest;
    var s := [mark] + ([sign] + ds);
    DigitsRun(digits, rest);
    assert s[1..] == [sign] + ds && s[2..] == ds;
    assert ds[..|digits|] == digits && ds[|digits|..] == rest;
  }

  lemma ExponentRead(e: Option<ExponentPart>, rest: Text)
    requires e.Some? ==> WfExponent(e.value)
    requires EndsNumber(rest)
    ensures ExponentAt(ExponentText(e) + rest) == Some((ExponentValue(e), rest))
  {
    hide ExponentAt, DigitsValue, AllDigits, EndsNumber;
    if e.None? {
      assert [] + rest == rest;
      NumberEnds(rest);
    } else {
      Regroup([e.value.mark], e.value.sign, e.value.digits, rest);
      if e.value.sign == [] {
        UnsignedExponentRead(e.value.mark, e.value.digits, rest);
      } else {
        SignedExponentRead(e.value.mark, e.value.sign[0], e.value.digits, rest);
      }
    }
  }

  lemma Regroup(a: Text, b: Text, c: Text, d: Text)
    ensures a + b + c + d == a + (b + (c + d))
    ensures b == [] ==> a + b + c + d == a + (c + d)
  {
  }

  lemma ExponentStarts(e: Option<ExponentPart>, rest: Text)
    requires (e.Some? ==> WfExponent(e.value)) && EndsNumber(rest)
    ensures var tail := ExponentText(e) + rest; tail == [] || (!IsDigit(tail[0]) && tail[0] != 0x2E)
  {
  }

  lemma FractionRead(fraction: Text, e: Option<ExponentPart>, rest: Text)
    requires AllDigits(fraction) && (e.Some? ==> WfExponent(e.value)) && EndsNumber(rest)
    ensures FractionAt(FractionText(fraction) + (ExponentText(e) + rest)) == Some((fraction, ExponentText(e) + rest))
  {
    hide DigitsLength, ExponentText, EndsNumber;
    var tail := ExponentText(e) + rest;
    var s := FractionText(fraction) + tail;
    ExponentStarts(e, rest);
    if fraction == [] {
      assert s == tail;
    } else {
      DigitsRun(fraction, tail);
      assert s[1..] == fraction + tail;
      assert (fraction + tail)[..|fraction|] == fraction && (fraction + tail)[|fraction|..] == tail;
    }
  }

  lemma DecimalPlaces(negative: bool, digits: Text, scale: int)
    ensures Places(Decimal(negative, digits, scale), negative, digits, -scale)
  {
    hide DigitsValue, Power10;
    if scale < 0 {
      Divided(DigitsValue(digits) as real, Power10(-scale));
    } else {
      assert scale == 0 ==> Power10(0) == 1.0 by { PowersOfTen(); }
      NegatedProduct(DigitsValue(digits) as real, Power10(scale));
    }
  }

  lemma Divided(v: real, p: real)
    requires p > 0.0
    ensures v / p * p == v && -(v / p) * p == -v
  {
  }

  lemma NegatedProduct(v: real, p: real)
    ensures -(v * p) == -v * p
  {
  }

  /** A number written with any sign, fraction and exponent is read to its end, all its digits in one. */
  lemma NumberTold(negative: bool, whole: Text, fraction: Text, e: Option<ExponentPart>, rest: Text)
    requires whole != [] && AllDigits(whole) && AllDigits(fraction) && (e.Some? ==> WfExponent(e.value))
    requires EndsNumber(rest)
    ensures NumberAt(DecimalText(negative, whole, fraction, e) + rest)
            == Some((Number(Decimal(negative, whole + fraction, ExponentValue(e) - |fraction|)), rest))
  {
    hide DigitsLength, DigitsValue, FractionAt, ExponentAt, Decimal, ExponentText, FractionText, ExponentValue,
      WfExponent, EndsNumber;
    var tail := FractionText(fraction) + (ExponentText(e) + rest);
    var s := DecimalText(negative, whole, fraction, e) + rest;
    assert tail == [] || !IsDigit(tail[0]) by { TailStarts(fraction, e, rest); }
    DigitsRun(whole, tail);
    assert IsDigitCode(whole[0]);
    assert s == (if negative then [MINUS] else []) + (whole + tail);
    assert negative ==> s[1..] == whole + tail;
    assert !negative ==> s == whole + tail;
    assert (whole + tail)[..|whole|] == whole && (whole + tail)[|whole|..] == tail;
    FractionRead(fraction, e, rest);
    ExponentRead(e, rest);
  }

  /**
   Every number JSON can write, with any sign, fraction and exponent, parses to the value its digits say:
   those of the whole part and the fraction together, moved left by the length of the fraction less the exponent.
   */
  lemma DecimalParsed(negative: bool, whole: Text, fraction: Text, e: Option<ExponentPart>, rest: Text)
    requires whole != [] && AllDigits(whole) && AllDigits(fraction) && (e.Some? ==> WfExponent(e.value))
    requires EndsNumber(rest)
    ensures var r := NumberAt(DecimalText(negative, whole, fraction, e) + rest);
            && r.Some? && r.value.1 == rest && r.value.0.Number?
            && Places(r.value.0.x, negative, whole + fraction, |fraction| - ExponentValue(e))
  {
    hide NumberAt, DecimalText, Decimal, Places, ExponentValue, WfExponent, EndsNumber, AllDigits;
    NumberTold(negative, whole, fraction, e, rest);
    DecimalPlaces(negative, whole + fraction, ExponentValue(e) - |fraction|);
  }

  lemma TailStarts(fraction: Text, e: Option<ExponentPart>, rest: Text)
    requires (e.Some? ==> WfExponent(e.value)) && EndsNumber(rest)
    ensures var tail := FractionText(fraction) + (ExponentText(e) + rest); tail == [] || !IsDigit(tail[0])
  {
  }

  /** In particular a number w.f lies between w and w + 1. */
  lemma FractionBetween(whole: Text, fraction: Text, rest: Text)
    requires whole != [] && AllDigits(whole) && AllDigits(fraction) && EndsNumber(rest)
    ensures var r := NumberAt(DecimalText(false, whole, fraction, None) + rest);
            && r.Some? && r.value.1 == rest && r.value.0.Number?
            && DigitsValue(whole) as real <= r.value.0.x < DigitsValue(whole) as real + 1.0
  {
    hide DigitsValue, NumberAt, DecimalText, Power10, AllDigits;
    DecimalParsed(false, whole, fraction, None, rest);
    var x := NumberAt(DecimalText(false, whole, fraction, None) + rest).value.0.x;
    DigitsConcat(whole, fraction);
    DigitsBelow(fraction);
    Between(x, DigitsValue(whole) as real, DigitsValue(fraction) as real, Power10(|fraction|));
  }

  lemma Between(x: real, w: real, f: real, p: real)
    requires p > 0.0 && x * p == w * p + f && 0.0 <= f < p
    ensures w <= x < w + 1.0
  {
    var d := x - w;
    assert d * p == f;
    assert -d * p == -f;
    assert (d - 1.0) * p == f - p;
    if d < 0.0 {
      Product(-d, p);
    } else if d >= 1.0 {
      Product(d - 1.0, p);
    }
  }

  lemma Product(d: real, p: real)
    requires p > 0.0 && d >= 0.0
    ensures d * p >= 0.0 && (d > 0.0 ==> d * p > 0.0)
  {
  }

  lemma EscapeRoundTrip(c: unit, rest: Text)
    ensures Escaped(c)[0] != QUOTE
    ensures UnitAt(Escaped(c) + rest) == Some((c, |Escaped(c)|))
  {
    var s := Escaped(c) + rest;
    if |Escaped(c)| == 6 {
      assert s[2..][..4] == Escaped(c)[2..];
      assert HexValue(HexDigit(c / 16)) == Some(c / 16) && HexValue(HexDigit(c % 16)) == Some(c % 16);
      assert s[2..][0] == 0x30 && s[2..][1] == 0x30 && s[2..][2] == HexDigit(c / 16) && s[2..][3] == HexDigit(c % 16);
    }
  }

  lemma {:induction false} StringRoundTrip(s: Text, rest: Text)
    ensures StringAt(EscapedText(s) + [QUOTE] + rest) == Some((s, rest))
    decreases |s|
  {
    hide Escaped, UnitAt;
    var text := EscapedText(s) + [QUOTE] + rest;
    if s == [] {
      assert text[1..] == rest;
    } else {
      var tail := EscapedText(s[1..]) + [QUOTE] + rest;
      assert text == Escaped(s[0]) + tail;
      EscapeRoundTrip(s[0], tail);
      assert text[|Escaped(s[0])|..] == tail;
      StringRoundTrip(s[1..], rest);
      assert [s[0]] + s[1..] == s;
    }
  }

  lemma {:induction false} SetLast(members: seq<Member>, m: Member)
    requires forall i :: 0 <= i < |members| ==> members[i].key != m.key
    ensures SetMember(members, m.key, m.value) == members + [m]
    decreases |members|
  {
    if members != [] {
      SetLast(members[1..], m);
    }
  }

  /** The first unit a value prints: not white space, and telling the kinds of value apart. */
  lemma PrintHead(v: Json, other: real -> Text)
    requires Plain(v)
    ensures Print(v, other) != []
    ensures match v
            case Null => Print(v, other)[0] == 0x6E
            case Bool(b) => Print(v, other)[0] == if b then 0x74 else 0x66
            case Number(_) => IsDigit(Print(v, other)[0]) || Print(v, other)[0] == MINUS
            case String(_) => Print(v, other)[0] == QUOTE
            case Array(_) => Print(v, other)[0] == OPEN_BRACKET
            case Object(_) => Print(v, other)[0] == OPEN_BRACE
  {
    if v.Number? {
      NatTextHead(if v.x.Floor < 0 then -v.x.Floor else v.x.Floor);
    }
  }

  lemma ValueStart(v: Json, other: real -> Text)
    requires Plain(v)
    ensures Print(v, other) != [] && !IsSpace(Print(v, other)[0]) && Print(v, other)[0] != CLOSE_BRACKET
  {
    hide Print, Plain;
    PrintHead(v, other);
  }

  lemma NoSpaceToSkip(s: Text)
    requires s != [] && !IsSpace(s[0])
    ensures SkipSpace(s) == s
  {
  }

  /** Parsing a printed value stops exactly at its end, whatever valid continuation follows. */
  lemma {:induction false} ValueRoundTrip(v: Json, other: real -> Text, rest: Text)
    requires Plain(v) && EndsNumber(rest)
    ensures ValueAt(Print(v, other) + rest) == Some((v, rest))
    decreases v, 1
  {
    hide StringAt, NumberAt, EscapedText, IntText, ArrayAt, ObjectAt, PrintItems, PrintMembers;
    PrintHead(v, other);
    var s := Print(v, other) + rest;
    assert SkipSpace(s) == s;
    match v
    case Null => assert s[..4] == NULL_TEXT && s[4..] == rest;
    case Bool(b) =>
      if b {
        assert s[..4] == TRUE_TEXT && s[4..] == rest;
      } else {
        assert s[..5] == FALSE_TEXT && s[5..] == rest;
      }
    case Number(x) => NumberRoundTrip(x.Floor, rest);
    case String(text) =>
      assert s[1..] == EscapedText(text) + [QUOTE] + rest;
      StringRoundTrip(text, rest);
    case Array(items) =>
      assert s[1..] == PrintItems(items, other) + [CLOSE_BRACKET] + rest;
      ArrayRoundTrip(items, other, rest);
    case Object(members) =>
      assert s[1..] == PrintMembers(members, other) + [CLOSE_BRACE] + rest;
      ObjectRoundTrip(members, other, rest);
  }

  lemma {:induction false} ArrayRoundTrip(items: seq<Json>, other: real -> Text, rest: Text)
    requires forall i :: 0 <= i < |items| ==> Plain(items[i])
    ensures ArrayAt(PrintItems(items, other) + [CLOSE_BRACKET] + rest) == Some((Array(items), rest))
    decreases items, 3
  {
    hide Print, ElementsAt;
    var s := PrintItems(items, other) + [CLOSE_BRACKET] + rest;
    if items == [] {
      assert s[1..] == rest;
    } else {
      ValueStart(items[0], other);
      assert s[0] == Print(items[0], other)[0];
      NoSpaceToSkip(s);
      ElementsRoundTrip([], items, other, rest);
      assert [] + items == items;
    }
  }

  lemma {:induction false} ElementsRoundTrip(done: seq<Json>, items: seq<Json>, other: real -> Text, rest: Text)
    requires items != [] && forall i :: 0 <= i < |items| ==> Plain(items[i])
    ensures ElementsAt(PrintItems(items, other) + [CLOSE_BRACKET] + rest, done) == Some((Array(done + items), rest))
    decreases items, 2
  {
    hide Print, ValueAt, Plain;
    var s := PrintItems(items, other) + [CLOSE_BRACKET] + rest;
    if |items| == 1 {
      var tail := [CLOSE_BRACKET] + rest;
      assert s == Print(items[0], other) + tail;
      ValueRoundTrip(items[0], other, tail);
      assert tail[1..] == rest && done + [items[0]] == done + items;
    } else {
      var more := PrintItems(items[1..], other) + [CLOSE_BRACKET] + rest;
      var tail := [COMMA] + more;
      assert s == Print(items[0], other) + tail;
      ValueRoundTrip(items[0], other, tail);
      assert tail[1..] == more;
      ElementsRoundTrip(done + [items[0]], items[1..], other, rest);
      assert done + [items[0]] + items[1..] == done + items;
    }
  }

  lemma {:induction false} ObjectRoundTrip(members: seq<Member>, other: real -> Text, rest: Text)
    requires DistinctKeys(members) && forall i :: 0 <= i < |members| ==> Plain(members[i].value)
    ensures ObjectAt(PrintMembers(members, other) + [CLOSE_BRACE] + rest) == Some((Object(members), rest))
    decreases members, 3
  {
    hide Print, MembersAt;
    var s := PrintMembers(members, other) + [CLOSE_BRACE] + rest;
    if members == [] {
      assert s[1..] == rest;
    } else {
      assert s[0] == QUOTE;
      MembersRoundTrip([], members, other, rest);
      assert [] + members == members;
    }
  }

  lemma KeyRoundTrip(key: Text, rest: Text)
    ensures KeyAt(Quoted(key) + [COLON] + rest) == Some((key, rest))
  {
    hide StringAt, EscapedText;
    var s := Quoted(key) + [COLON] + rest;
    var after := [COLON] + rest;
    assert s[1..] == EscapedText(key) + [QUOTE] + after;
    StringRoundTrip(key, after);
    assert after[1..] == rest;
  }

  lemma MemberRead(
      done: seq<Member>, m: Member, other: real -> Text, tail: Text)
    requires forall i :: 0 <= i < |done| ==> done[i].key != m.key
    requires ValueAt(Print(m.value, other) + tail) == Some((m.value, tail))
    requires tail != [] && (tail[0] == COMMA || tail[0] == CLOSE_BRACE)
    ensures MembersAt(Quoted(m.key) + [COLON] + (Print(m.value, other) + tail), done)
            == if tail[0] == COMMA then MembersAt(tail[1..], done + [m]) else Some((Object(done + [m]), tail[1..]))
  {
    hide Print, ValueAt, KeyAt, Quoted, SetMember;
    KeyRoundTrip(m.key, Print(m.value, other) + tail);
    SetLast(done, m);
    NoSpaceToSkip(tail);
  }

  lemma MembersSplit(done: seq<Member>, members: seq<Member>)
    requires members != [] && DistinctKeys(done + members)
    ensures forall i :: 0 <= i < |done| ==> done[i].key != members[0].key
    ensures DistinctKeys(done + [members[0]] + members[1..])
    ensures done + [members[0]] + members[1..] == done + members
  {
    var all := done + members;
    assert done + [members[0]] + members[1..] == all;
    forall i | 0 <= i < |done| ensures done[i].key != members[0].key {
      assert all[i] == done[i] && all[|done|] == members[0];
    }
  }

  lemma {:induction false} MembersRoundTrip(
      done: seq<Member>, members: seq<Member>, other: real -> Text, rest: Text)
    requires members != [] && DistinctKeys(done + members)
    requires forall i :: 0 <= i < |members| ==> Plain(members[i].value)
    ensures MembersAt(PrintMembers(members, other) + [CLOSE_BRACE] + rest, done) == Some((Object(done + members), rest))
    decreases members, 2
  {
    hide Print, ValueAt, Plain, Quoted, MembersAt, DistinctKeys;
    var m := members[0];
    MembersSplit(done, members);
    if |members| == 1 {
      var tail := [CLOSE_BRACE] + rest;
      assert PrintMembers(members, other) + [CLOSE_BRACE] + rest
          == Quoted(m.key) + [COLON] + (Print(m.value, other) + tail);
      ValueRoundTrip(m.value, other, tail);
      MemberRead(done, m, other, tail);
      assert tail[1..] == rest && done + [m] == done + members;
    } else {
      var more := PrintMembers(members[1..], other) + [CLOSE_BRACE] + rest;
      var tail := [COMMA] + more;
      assert PrintMembers(members, other) + [CLOSE_BRACE] + rest
          == Quoted(m.key) + [COLON] + (Print(m.value, other) + tail);
      ValueRoundTrip(m.value, other, tail);
      MemberRead(done, m, other, tail);
      assert tail[1..] == more;
      MembersRoundTrip(done + [m], members[1..], other, rest);
    }
  }

  /** tryParse(toString(v)) is v, even with white space around the text. */
  lemma PrintedParses(v: Json, other: real -> Text, before: Text, after: Text)
    requires Plain(v)
    requires SkipSpace(before) == [] && SkipSpace(after) == []
    ensures TryParse(before + Print(v, other) + after) == Some(v)
  {
    hide Print, Plain, ValueAt, SkipSpace, EndsNumber;
    var text := Print(v, other) + after;
    assert before + Print(v, other) + after == before + text;
    SpaceAround(before, text);
    AllSpaceEndsNumber(after);
    ValueRoundTrip(v, other, after);
    ValueSkipsSpace(before + text, text);
  }

  lemma AllSpaceEndsNumber(after: Text)
    requires SkipSpace(after) == []
    ensures EndsNumber(after)
  {
  }

  lemma ValueSkipsSpace(s: Text, t: Text)
    requires SkipSpace(s) == SkipSpace(t)
    ensures ValueAt(s) == ValueAt(t)
  {
    hide StringAt, NumberAt, ArrayAt, ObjectAt, WordAt, SkipSpace;
  }

  lemma {:induction false} SpaceAround(before: Text, s: Text)
    requires SkipSpace(before) == []
    ensures SkipSpace(before + s) == SkipSpace(s)
    decreases |before|
  {
    if before == [] {
      assert before + s == s;
    } else {
      assert (before + s)[1..] == before[1..] + s;
      SpaceAround(before[1..], s);
    }
  }

  /** Whatever text is parsed, objects come out with distinct keys. */
  lemma {:induction false} SetKeepsDistinct(members: seq<Member>, key: Text, value: Json)
    requires DistinctKeys(members)
    ensures DistinctKeys(SetMember(members, key, value))
    ensures forall i :: 0 <= i < |SetMember(members, key, value)| ==>
              SetMember(members, key, value)[i].key == key
              || exists j :: 0 <= j < |members| && members[j].key == SetMember(members, key, value)[i].key
    decreases |members|
  {
    if members != [] && members[0].key != key {
      SetKeepsDistinct(members[1..], key, value);
      var rest := SetMember(members[1..], key, value);
      var result := SetMember(members, key, value);
      assert result == [members[0]] + rest;
      forall i | 0 <= i < |rest|
        ensures rest[i].key != members[0].key
        ensures rest[i].key == key || exists j :: 0 <= j < |members| && members[j].key == rest[i].key
      {
        if rest[i].key != key {
          var j :| 0 <= j < |members[1..]| && members[1..][j].key == rest[i].key;
          assert members[j + 1].key == rest[i].key;
        }
      }
    }
  }

  /** Reading back a member: set then get. */
  function GetMember(members: seq<Member>, key: Text): Option<Json>
    decreases |members|
  {
    if members == [] then None
    else if members[0].key == key then Some(members[0].value)
    else GetMember(members[1..], key)
  }

  lemma {:induction false} GetAfterSet(members: seq<Member>, key: Text, value: Json, other: Text)
    ensures GetMember(SetMember(members, key, value), other)
            == if other == key then Some(value) else GetMember(members, other)
    decreases |members|
  {
    if members != [] && members[0].key != key {
      GetAfterSet(members[1..], key, value, other);
    }
  }
}
