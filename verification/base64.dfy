/** Base64 (section 4 of RFC 4648) as src/wasm/host_functions.cpp encodes and decodes binary columns. */
module Base64 {
  import opened Wrappers
  import opened Bytes

  type sextet = x: int | 0 <= x < 64

  const PAD: byte := 0x3D

  function Digit(x: sextet): byte {
    if x < 26 then 0x41 + x
    else if x < 52 then 0x61 + x - 26
    else if x < 62 then 0x30 + x - 52
    else if x == 62 then 0x2B
    else 0x2F
  }

  function DigitValue(c: byte): Option<sextet> {
    if 0x41 <= c <= 0x5A then Some(c - 0x41)
    else if 0x61 <= c <= 0x7A then Some(c - 0x61 + 26)
    else if 0x30 <= c <= 0x39 then Some(c - 0x30 + 52)
    else if c == 0x2B then Some(62)
    else if c == 0x2F then Some(63)
    else None
  }

  lemma DigitRoundTrip(x: sextet)
    ensures DigitValue(Digit(x)) == Some(x) && Digit(x) != PAD
  {
  }

  /** Up to three bytes as four characters. */
  function EncodeGroup(g: Blob): (r: Blob)
    requires 0 < |g| <= 3
    ensures |r| == 4
  {
    var d1 := if |g| > 1 then g[1] else 0;
    var d2 := if |g| > 2 then g[2] else 0;
    [Digit(g[0] / 4), Digit(g[0] % 4 * 16 + d1 / 16),
     if |g| > 1 then Digit(d1 % 16 * 4 + d2 / 64) else PAD,
     if |g| > 2 then Digit(d2 % 64) else PAD]
  }

  function Encode(data: Blob): Blob
    decreases |data|
  {
    if data == [] then []
    else if |data| <= 3 then EncodeGroup(data)
    else EncodeGroup(data[..3]) + Encode(data[3..])
  }

  /** Four characters as up to three bytes. After a third character of '=', the fourth is not looked at. */
  function DecodeGroup(g: Blob): Option<Blob>
    requires |g| == 4
  {
    var a :- DigitValue(g[0]);
    var b :- DigitValue(g[1]);
    var first: byte := a as int * 4 + b / 16;
    if g[2] == PAD then Some([first])
    else
      var c :- DigitValue(g[2]);
      var second: byte := b as int % 16 * 16 + c / 4;
      if g[3] == PAD then Some([first, second])
      else
        var d :- DigitValue(g[3]);
        Some([first, second, c as int % 4 * 64 + d])
  }

  function DecodeGroups(text: Blob): Option<Blob>
    requires |text| % 4 == 0
    decreases |text|
  {
    if text == [] then Some([])
    else
      var head :- DecodeGroup(text[..4]);
      var tail :- DecodeGroups(text[4..]);
      Some(head + tail)
  }

  function Decode(text: Blob): Option<Blob> {
    if |text| % 4 != 0 then None else DecodeGroups(text)
  }

  lemma GroupRoundTrip(g: Blob)
    requires 0 < |g| <= 3
    ensures DecodeGroup(EncodeGroup(g)) == Some(g)
  {
    hide Digit, DigitValue;
    var d1 := if |g| > 1 then g[1] else 0;
    var d2 := if |g| > 2 then g[2] else 0;
    DigitRoundTrip(g[0] / 4);
    DigitRoundTrip(g[0] % 4 * 16 + d1 / 16);
    DigitRoundTrip(d1 % 16 * 4 + d2 / 64);
    DigitRoundTrip(d2 % 64);
    if |g| == 1 {
      assert g == [g[0]];
    } else if |g| == 2 {
      assert g == [g[0], g[1]];
    } else {
      assert g == [g[0], g[1], g[2]];
    }
  }

  lemma {:induction false} EncodedLength(data: Blob)
    ensures |Encode(data)| == (|data| + 2) / 3 * 4
    decreases |data|
  {
    hide EncodeGroup;
    if |data| > 3 {
      EncodedLength(data[3..]);
    }
  }

  /** Decoding gives back any bytes that were encoded. */
  lemma {:induction false} RoundTrip(data: Blob)
    ensures Decode(Encode(data)) == Some(data)
    decreases |data|
  {
    hide EncodeGroup, DecodeGroup;
    EncodedLength(data);
    var text := Encode(data);
    if 0 < |data| <= 3 {
      GroupRoundTrip(data);
      assert text[..4] == text && text[4..] == [];
      DecodeNothing(text[4..]);
      assert data + [] == data;
    } else if |data| > 3 {
      GroupRoundTrip(data[..3]);
      RoundTrip(data[3..]);
      assert text[..4] == EncodeGroup(data[..3]) && text[4..] == Encode(data[3..]);
      assert data[..3] + data[3..] == data;
    }
  }

  /** The examples of section 10 of RFC 4648: "", "f", "fo", "foo" and "foobar". */
  lemma KnownEncodings()
    ensures Encode([]) == []
    ensures Encode([0x66]) == [0x5A, 0x67, 0x3D, 0x3D]
    ensures Encode([0x66, 0x6F]) == [0x5A, 0x6D, 0x38, 0x3D]
    ensures Encode([0x66, 0x6F, 0x6F]) == [0x5A, 0x6D, 0x39, 0x76]
    ensures Encode([0x66, 0x6F, 0x6F, 0x62, 0x61, 0x72]) == [0x5A, 0x6D, 0x39, 0x76, 0x59, 0x6D, 0x46, 0x79]
  {
    var foobar: Blob := [0x66, 0x6F, 0x6F, 0x62, 0x61, 0x72];
    assert foobar[..3] == [0x66, 0x6F, 0x6F] && foobar[3..] == [0x62, 0x61, 0x72];
  }

  /** The alphabet: A to Z, a to z, 0 to 9, + and /, each in order. */
  lemma Alphabet(x: sextet)
    ensures Digit(0) == 0x41 && Digit(25) == 0x5A && Digit(26) == 0x61 && Digit(51) == 0x7A
    ensures Digit(52) == 0x30 && Digit(61) == 0x39 && Digit(62) == 0x2B && Digit(63) == 0x2F
    ensures x !in {25, 51, 61, 62, 63} ==> Digit(x + 1) == Digit(x) + 1
  {
  }

  // ---- What the encoder can have written ----

  /**
   Four characters as the encoder writes them: digits, with padding only at the very end, as many '=' as there
   are bytes missing, and no spare bits set.
   */
  predicate CanonicalGroup(g: Blob, last: bool)
    requires |g| == 4
  {
    && DigitValue(g[0]).Some? && DigitValue(g[1]).Some?
    && if last && g[2] == PAD then g[3] == PAD && DigitValue(g[1]).value % 16 == 0
       else
         && DigitValue(g[2]).Some?
         && if last && g[3] == PAD then DigitValue(g[2]).value % 4 == 0 else DigitValue(g[3]).Some?
  }

  predicate Canonical(text: Blob)
    decreases |text|
  {
    text == [] || (|text| >= 4 && CanonicalGroup(text[..4], |text| == 4) && Canonical(text[4..]))
  }

  lemma DigitBack(c: byte)
    ensures DigitValue(c).Some? ==> Digit(DigitValue(c).value) == c && c != PAD
  {
  }

  lemma EncodedGroupCanonical(g: Blob, last: bool)
    requires 0 < |g| <= 3 && (last || |g| == 3)
    ensures CanonicalGroup(EncodeGroup(g), last)
  {
    hide Digit, DigitValue;
    var d1 := if |g| > 1 then g[1] else 0;
    var d2 := if |g| > 2 then g[2] else 0;
    DigitRoundTrip(g[0] / 4);
    DigitRoundTrip(g[0] % 4 * 16 + d1 / 16);
    DigitRoundTrip(d1 % 16 * 4 + d2 / 64);
    DigitRoundTrip(d2 % 64);
  }

  /** Six-bit digits packed into bytes and taken out again. */
  lemma Repacked(a: sextet, b: sextet, c: sextet, d: sextet)
    ensures var first, second, third := a as int * 4 + b / 16, b as int % 16 * 16 + c / 4, c as int % 4 * 64 + d;
            && first / 4 == a && first % 4 * 16 + second / 16 == b
            && second % 16 * 4 + third / 64 == c && third % 64 == d
            && (b % 16 == 0 ==> first % 4 * 16 == b) && (c % 4 == 0 ==> second % 16 * 4 == c)
  {
    var b1, b2, c1, c2 := b / 16, b % 16, c / 4, c % 4;
    assert b == b1 * 16 + b2 && c == c1 * 4 + c2;
  }

  /** A canonical group decodes to bytes that encode to it. */
  lemma CanonicalGroupBack(g: Blob, last: bool)
    requires |g| == 4 && CanonicalGroup(g, last)
    ensures DecodeGroup(g).Some? && 0 < |DecodeGroup(g).value| <= 3 && EncodeGroup(DecodeGroup(g).value) == g
    ensures !last ==> |DecodeGroup(g).value| == 3
  {
    hide Digit, DigitValue;
    DigitBack(g[0]);
    DigitBack(g[1]);
    DigitBack(g[2]);
    DigitBack(g[3]);
    var a, b := DigitValue(g[0]).value, DigitValue(g[1]).value;
    var c: sextet := if g[2] == PAD then 0 else DigitValue(g[2]).value;
    var d: sextet := if g[2] == PAD || g[3] == PAD then 0 else DigitValue(g[3]).value;
    Repacked(a, b, c, d);
    assert g == [g[0], g[1], g[2], g[3]];
  }

  lemma {:induction false} EncodedIsCanonical(data: Blob)
    ensures Canonical(Encode(data))
    decreases |data|
  {
    hide EncodeGroup, CanonicalGroup;
    var text := Encode(data);
    if 0 < |data| <= 3 {
      EncodedGroupCanonical(data, true);
      assert text[..4] == text && text[4..] == [];
    } else if |data| > 3 {
      EncodedGroupCanonical(data[..3], false);
      EncodedIsCanonical(data[3..]);
      EncodedLength(data[3..]);
      assert text[..4] == EncodeGroup(data[..3]) && text[4..] == Encode(data[3..]);
    }
  }

  lemma {:induction false} CanonicalBack(text: Blob)
    requires Canonical(text)
    ensures |text| % 4 == 0 && DecodeGroups(text).Some? && Encode(DecodeGroups(text).value) == text
    ensures text != [] ==> DecodeGroups(text).value != []
    decreases |text|
  {
    hide EncodeGroup, DecodeGroup, CanonicalGroup;
    if text != [] {
      CanonicalGroupBack(text[..4], |text| == 4);
      CanonicalBack(text[4..]);
      var head, tail := DecodeGroup(text[..4]).value, DecodeGroups(text[4..]).value;
      if |text| == 4 {
        assert tail == [] && head + [] == head;
      } else {
        assert (head + tail)[..3] == head && (head + tail)[3..] == tail;
      }
      assert text == text[..4] + text[4..];
    }
  }

  /** The texts that survive decoding and encoding are exactly the canonical ones, which are those the encoder writes. */
  lemma CanonicalIff(text: Blob)
    ensures Decode(text).Some? && Encode(Decode(text).value) == text <==> Canonical(text)
    ensures Canonical(text) <==> exists data :: text == Encode(data)
  {
    hide Canonical, Encode, DecodeGroups;
    if Canonical(text) {
      CanonicalBack(text);
    }
    if data :| text == Encode(data) {
      EncodedIsCanonical(data);
    }
  }

  /** The decoder also takes text the encoder never writes: here a fourth character behind the padding. */
  lemma LaxlyDecoded()
    ensures exists text :: Decode(text).Some? && !Canonical(text)
  {
    var text: Blob := [0x51, 0x51, PAD, 0x78];
    assert text[..4] == text && text[4..] == [];
    assert DecodeGroups([]) == Some([]);
    assert Decode(text).Some?;
  }

  method Base64Encode(data: Blob) returns (out: Blob)
    ensures out == Encode(data)
  {
    hide Encode, EncodeGroup, Rest, Chunk;
    out := [];
    var i := 0;
    EncodeEnds(data);
    assert [] + Encode(data) == Encode(data);
    while i < |data|
      invariant 0 <= i && out + Encode(Rest(data, i)) == Encode(data)
      decreases |data| - i
    {
      EncodeStep(data, i);
      var group := EncodeChunk(data, i);
      assert out + (group + Encode(Rest(data, i + 3))) == out + group + Encode(Rest(data, i + 3));
      out := out + group;
      i := i + 3;
    }
    assert out + [] == out;
  }

  /** One turn of the encoding loop, on the 24-bit number the group's bytes make. */
  method EncodeChunk(data: Blob, i: nat) returns (group: Blob)
    requires i < |data|
    ensures group == EncodeGroup(Chunk(data, i))
  {
    hide Digit, EncodeGroup;
    var n: nat := data[i] as int * 0x1_0000;
    if i + 1 < |data| {
      n := n + data[i + 1] as int * 0x100;
    }
    if i + 2 < |data| {
      n := n + data[i + 2];
    }
    GroupBits(Chunk(data, i), n);
    group := [Digit(n / 0x4_0000 % 64), Digit(n / 0x1000 % 64),
              if i + 1 < |data| then Digit(n / 64 % 64) else PAD,
              if i + 2 < |data| then Digit(n % 64) else PAD];
  }

  function Rest(data: Blob, i: nat): Blob {
    if i <= |data| then data[i..] else []
  }

  function Chunk(data: Blob, i: nat): (g: Blob)
    requires i < |data|
    ensures 0 < |g| <= 3
  {
    if i + 3 <= |data| then data[i..i + 3] else data[i..]
  }

  lemma EncodeEnds(data: Blob)
    ensures Encode(Rest(data, 0)) == Encode(data)
    ensures forall i :: i >= |data| ==> Encode(Rest(data, i)) == []
  {
    assert data[0..] == data;
  }

  lemma EncodeStep(data: Blob, i: nat)
    requires i < |data|
    ensures Encode(Rest(data, i)) == EncodeGroup(Chunk(data, i)) + Encode(Rest(data, i + 3))
  {
    hide EncodeGroup;
    if i + 3 < |data| {
      assert data[i..][..3] == data[i..i + 3];
      assert data[i..][3..] == data[i + 3..];
    } else {
      assert Chunk(data, i) == data[i..];
      assert Rest(data, i + 3) == [];
    }
  }

  lemma GroupBits(g: Blob, n: nat)
    requires 0 < |g| <= 3
    requires n == g[0] as int * 0x1_0000 + (if |g| > 1 then g[1] as int * 0x100 else 0) + (if |g| > 2 then g[2] else 0)
    ensures EncodeGroup(g) == [Digit(n / 0x4_0000 % 64), Digit(n / 0x1000 % 64),
                               if |g| > 1 then Digit(n / 64 % 64) else PAD,
                               if |g| > 2 then Digit(n % 64) else PAD]
  {
    hide Digit;
    Bits(g[0], if |g| > 1 then g[1] else 0, if |g| > 2 then g[2] else 0);
  }

  /** The four six-bit digits of a 24-bit group. */
  lemma Bits(x: byte, y: byte, z: byte)
    ensures var n: nat := x as int * 0x1_0000 + y as int * 0x100 + z;
            && n / 0x4_0000 % 64 == x / 4
            && n / 0x1000 % 64 == x % 4 * 16 + y / 16
            && n / 64 % 64 == y % 16 * 4 + z / 64
            && n % 64 == z % 64
  {
    var a, b, c, d, e, f := x / 4, x % 4, y / 16, y % 16, z / 64, z % 64;
    var n: nat := x as int * 0x1_0000 + y as int * 0x100 + z;
    assert n == ((a * 64 + (b * 16 + c)) * 64 + (d * 4 + e)) * 64 + f;
    Digits(a, b * 16 + c, d * 4 + e, f, n);
  }

  lemma Digits(p: int, q: int, r: int, s: int, n: int)
    requires 0 <= p < 64 && 0 <= q < 64 && 0 <= r < 64 && 0 <= s < 64
    requires n == ((p * 64 + q) * 64 + r) * 64 + s
    ensures n / 0x4_0000 % 64 == p && n / 0x1000 % 64 == q && n / 64 % 64 == r && n % 64 == s
  {
    assert n / 64 == (p * 64 + q) * 64 + r;
    assert n / 0x1000 == p * 64 + q;
    assert n / 0x4_0000 == p;
  }

  method Base64Decode(text: Blob) returns (out: Option<Blob>)
    ensures out == Decode(text)
  {
    hide DigitValue, DecodeGroup, DecodeGroups;
    if |text| % 4 != 0 {
      return None;
    }
    var bytes: Blob := [];
    var i := 0;
    assert text[0..] == text;
    DecodeStart(text);
    while i < |text|
      invariant 0 <= i <= |text| && i % 4 == 0
      invariant Decode(text) == After(bytes, DecodeGroups(text[i..]))
    {
      DecodeStep(text, i, bytes);
      var group := Group(text[i..i + 4]);
      if group.None? {
        return None;
      }
      bytes := bytes + group.value;
      i := i + 4;
    }
    DecodeNothing(text[i..]);
    assert bytes + [] == bytes;
    return Some(bytes);
  }

  function After(bytes: Blob, more: Option<Blob>): Option<Blob> {
    if more.None? then None else Some(bytes + more.value)
  }

  /** One turn of the decoding loop. */
  method Group(g: Blob) returns (out: Option<Blob>)
    requires |g| == 4
    ensures out == DecodeGroup(g)
  {
    hide DigitValue;
    var a, b := DigitValue(g[0]), DigitValue(g[1]);
    if a.None? || b.None? {
      return None;
    }
    var bytes: Blob := [(a.value as int * 4 + b.value / 16) % 256];
    if g[2] != PAD {
      var c := DigitValue(g[2]);
      if c.None? {
        return None;
      }
      ShiftedFour(b.value, c.value / 4);
      bytes := bytes + [(b.value as int * 16 + c.value / 4) % 256];
      assert bytes == [(a.value as int * 4 + b.value / 16) % 256, b.value as int % 16 * 16 + c.value / 4];
      if g[3] != PAD {
        var d := DigitValue(g[3]);
        if d.None? {
          return None;
        }
        ShiftedSix(c.value, d.value);
        bytes := bytes + [(c.value as int * 64 + d.value) % 256];
        assert bytes == [(a.value as int * 4 + b.value / 16) % 256, b.value as int % 16 * 16 + c.value / 4,
                         c.value as int % 4 * 64 + d.value];
      }
    }
    return Some(bytes);
  }

  /** Shifting left drops the high bits of a byte. */
  lemma ShiftedFour(high: sextet, low: sextet)
    requires low < 16
    ensures (high as int * 16 + low) % 256 == high % 16 * 16 + low
  {
    assert high as int * 16 + low == high / 16 * 256 + (high % 16 * 16 + low);
  }

  lemma ShiftedSix(high: sextet, low: sextet)
    ensures (high as int * 64 + low) % 256 == high as int % 4 * 64 + low
  {
    assert high as int * 64 + low == high / 4 * 256 + (high as int % 4 * 64 + low);
  }

  lemma DecodeStart(text: Blob)
    requires |text| % 4 == 0
    ensures DecodeGroups(text) == After([], DecodeGroups(text))
  {
    hide DecodeGroups;
    if DecodeGroups(text).Some? {
      assert [] + DecodeGroups(text).value == DecodeGroups(text).value;
    }
  }

  lemma DecodeNothing(text: Blob)
    requires text == []
    ensures DecodeGroups(text) == Some([])
  {
  }

  lemma DecodeStep(text: Blob, i: nat, bytes: Blob)
    requires |text| % 4 == 0 && i % 4 == 0 && i < |text|
    ensures var head := DecodeGroup(text[i..i + 4]);
            After(bytes, DecodeGroups(text[i..]))
            == if head.None? then None else After(bytes + head.value, DecodeGroups(text[i + 4..]))
  {
    hide DecodeGroup;
    assert text[i..][..4] == text[i..i + 4] && text[i..][4..] == text[i + 4..];
    var head, tail := DecodeGroup(text[i..i + 4]), DecodeGroups(text[i + 4..]);
    if head.Some? && tail.Some? {
      assert bytes + (head.value + tail.value) == bytes + head.value + tail.value;
    }
  }
}
