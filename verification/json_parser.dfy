/** The SDK's parser object and printer loops, against the functions of JsonSdk. */
module JsonParsers {
  import opened Wrappers
  import opened JsonSdk
  import opened Decimals

  class JsonParser {
    const text: Text
    var pos: nat

    ghost predicate Valid()
      reads this
    {
      pos <= |text|
    }

    ghost function Left(): Text
      reads this
      requires Valid()
    {
      text[pos..]
    }

    constructor (text: Text)
      ensures Valid() && Left() == text && this.text == text
    {
      this.text := text;
      pos := 0;
    }

    method SkipWs()
      requires Valid()
      modifies this
      ensures Valid() && pos >= old(pos)
      ensures Left() == SkipSpace(old(Left()))
    {
      while pos < |text| && IsSpace(text[pos])
        invariant Valid() && pos >= old(pos)
        invariant SkipSpace(old(Left())) == SkipSpace(Left())
      {
        assert Left()[1..] == text[pos + 1..];
        pos := pos + 1;
      }
    }

    /** Steps over a run of digits. */
    method Digits() returns (digits: Text)
      requires Valid()
      modifies this
      ensures Valid() && pos == old(pos) + |digits|
      ensures |digits| == DigitsLength(old(Left()))
      ensures digits == old(Left())[..|digits|] && Left() == old(Left())[|digits|..]
    {
      var start := pos;
      while pos < |text| && IsDigit(text[pos])
        invariant start <= pos <= |text|
        invariant DigitsLength(old(Left())) == pos - start + DigitsLength(Left())
      {
        assert Left()[1..] == text[pos + 1..];
        pos := pos + 1;
      }
      digits := text[start..pos];
    }

    /** Steps over the word if the text continues with it; otherwise the position stays. */
    method Literal(word: Text) returns (found: bool)
      requires Valid()
      modifies this
      ensures Valid()
      ensures found <==> StartsWith(old(Left()), word)
      ensures Left() == if found then old(Left())[|word|..] else old(Left())
    {
      if pos + |word| > |text| {
        return false;
      }
      var i := 0;
      while i < |word|
        invariant 0 <= i <= |word| && pos == old(pos)
        invariant forall j :: 0 <= j < i ==> text[pos + j] == word[j]
      {
        if text[pos + i] != word[i] {
          assert old(Left())[..|word|][i] != word[i];
          return false;
        }
        i := i + 1;
      }
      assert old(Left())[..|word|] == word;
      pos := pos + |word|;
      return true;
    }

    method ParseNumber() returns (v: Option<Json>)
      requires Valid()
      modifies this
      ensures Valid()
      ensures v.None? <==> old(NumberAt(Left())).None?
      ensures v.Some? ==> old(NumberAt(Left())) == Some((v.value, Left()))
    {
      hide DigitsLength, DigitsValue, Decimal, FractionAt, ExponentAt;
      var negative := pos < |text| && text[pos] == MINUS;
      if negative {
        pos := pos + 1;
        assert Left() == old(Left())[1..];
      }
      var whole := Digits();
      if whole == [] {
        return None;
      }
      var fraction := ParseFraction();
      if fraction.None? {
        return None;
      }
      var exponent := ParseExponent();
      if exponent.None? {
        return None;
      }
      return Some(Number(Decimal(negative, whole + fraction.value, exponent.value - |fraction.value|)));
    }

    method ParseFraction() returns (fraction: Option<Text>)
      requires Valid()
      modifies this
      ensures Valid()
      ensures fraction.None? <==> old(FractionAt(Left())).None?
      ensures fraction.Some? ==> old(FractionAt(Left())) == Some((fraction.value, Left()))
    {
      hide DigitsLength;
      if pos < |text| && text[pos] == 0x2E {
        pos := pos + 1;
        assert Left() == old(Left())[1..];
        var digits := Digits();
        return if digits == [] then None else Some(digits);
      }
      return Some([]);
    }

    method ParseExponent() returns (exponent: Option<int>)
      requires Valid()
      modifies this
      ensures Valid()
      ensures exponent.None? <==> old(ExponentAt(Left())).None?
      ensures exponent.Some? ==> old(ExponentAt(Left())) == Some((exponent.value, Left()))
    {
      hide DigitsLength, DigitsValue;
      if pos < |text| && (text[pos] == 0x65 || text[pos] == 0x45) {
        pos := pos + 1;
        assert Left() == old(Left())[1..];
        var negative := false;
        if pos < |text| && (text[pos] == 0x2B || text[pos] == MINUS) {
          negative := text[pos] == MINUS;
          pos := pos + 1;
          assert Left() == old(Left())[2..];
        }
        var digits := Digits();
        if digits == [] {
          return None;
        }
        return Some(if negative then -(DigitsValue(digits) as int) else DigitsValue(digits));
      }
      return Some(0);
    }

    method ParseString() returns (s: Option<Text>)
      requires Valid() && pos < |text|
      modifies this
      ensures Valid()
      ensures s.None? <==> old(StringAt(Left()[1..])).None?
      ensures s.Some? ==> old(StringAt(Left()[1..])) == Some((s.value, Left()))
    {
      hide FourHex, Unescaped, StringAt;
      pos := pos + 1;
      ghost var start := Left();
      assert start == old(Left())[1..];
      var out: Text := [];
      assert StringAt(start).Some? ==> out + StringAt(start).value.0 == StringAt(start).value.0;
      while pos < |text|
        invariant Valid()
        invariant ReadTo(start, out, Left())
        decreases |text| - pos
      {
        StringStep(Left());
        if Left()[0] != QUOTE && UnitAt(Left()).Some? {
          ReadSoFar(start, Left(), out);
        }
        var c := text[pos];
        if c == QUOTE {
          pos := pos + 1;
          assert text[pos - 1..][1..] == Left();
          assert out + [] == out;
          return Some(out);
        }
        if c == BACKSLASH {
          var at := pos;
          pos := pos + 1;
          if pos >= |text| {
            return None;
          }
          var e := text[pos];
          if e == 0x75 {
            if pos + 4 >= |text| {
              return None;
            }
            assert text[at..][2..] == text[pos + 1..];
            var code := FourHex(text[pos + 1..]);
            if code.None? {
              return None;
            }
            pos := pos + 4;
            out := out + [code.value];
          } else {
            var plain := Unescaped(e);
            if plain.None? {
              return None;
            }
            out := out + [plain.value];
          }
          pos := pos + 1;
          assert text[at..][pos - at..] == Left();
        } else {
          out := out + [c];
          pos := pos + 1;
          assert text[pos - 1..][1..] == Left();
        }
      }
      StringUnterminated(Left());
      return None;
    }

    method ParseValue() returns (v: Option<Json>)
      requires Valid()
      modifies this
      ensures Valid()
      ensures v.None? <==> old(ValueAt(Left())).None?
      ensures v.Some? ==> old(ValueAt(Left())) == Some((v.value, Left())) && pos > old(pos)
      decreases |text| - pos, 1
    {
      hide StringAt, NumberAt, ArrayAt, ObjectAt, SkipSpace;
      SkipWs();
      if pos >= |text| {
        return None;
      }
      var c := text[pos];
      if c == OPEN_BRACE {
        v := ParseObject();
      } else if c == OPEN_BRACKET {
        v := ParseArray();
      } else if c == QUOTE {
        var s := ParseString();
        v := if s.None? then None else Some(String(s.value));
      } else if c == 0x74 {
        var found := Literal(TRUE_TEXT);
        v := if found then Some(Bool(true)) else None;
      } else if c == 0x66 {
        var found := Literal(FALSE_TEXT);
        v := if found then Some(Bool(false)) else None;
      } else if c == 0x6E {
        var found := Literal(NULL_TEXT);
        v := if found then Some(Null) else None;
      } else {
        v := ParseNumber();
      }
    }

    method ParseArray() returns (v: Option<Json>)
      requires Valid() && pos < |text|
      modifies this
      ensures Valid()
      ensures v.None? <==> old(ArrayAt(Left()[1..])).None?
      ensures v.Some? ==> old(ArrayAt(Left()[1..])) == Some((v.value, Left())) && pos > old(pos)
      decreases |text| - pos, 0
    {
      hide ValueAt, SkipSpace;
      pos := pos + 1;
      assert Left() == old(Left())[1..];
      SkipWs();
      if pos < |text| && text[pos] == CLOSE_BRACKET {
        pos := pos + 1;
        assert Left() == SkipSpace(old(Left())[1..])[1..];
        return Some(Array([]));
      }
      var items: seq<Json> := [];
      while true
        invariant Valid() && pos > old(pos)
        invariant old(ArrayAt(Left()[1..])) == ElementsAt(Left(), items)
        decreases |text| - pos
      {
        v := ParseValue();
        if v.None? {
          return None;
        }
        items := items + [v.value];
        SkipWs();
        if pos >= |text| {
          return None;
        }
        var c := text[pos];
        ghost var t := Left();
        pos := pos + 1;
        assert Left() == t[1..];
        if c == CLOSE_BRACKET {
          return Some(Array(items));
        }
        if c != COMMA {
          return None;
        }
      }
    }

    /** A member's key and colon. */
    method ParseKey() returns (key: Option<Text>)
      requires Valid()
      modifies this
      ensures Valid()
      ensures key.None? <==> old(KeyAt(Left())).None?
      ensures key.Some? ==> old(KeyAt(Left())) == Some((key.value, Left())) && pos > old(pos)
    {
      hide StringAt, SkipSpace;
      SkipWs();
      if pos >= |text| || text[pos] != QUOTE {
        return None;
      }
      key := ParseString();
      if key.None? {
        return None;
      }
      SkipWs();
      if pos >= |text| || text[pos] != COLON {
        return None;
      }
      ghost var u := Left();
      pos := pos + 1;
      assert Left() == u[1..];
    }

    method ParseObject() returns (v: Option<Json>)
      requires Valid() && pos < |text|
      modifies this
      ensures Valid()
      ensures v.None? <==> old(ObjectAt(Left()[1..])).None?
      ensures v.Some? ==> old(ObjectAt(Left()[1..])) == Some((v.value, Left())) && pos > old(pos)
      decreases |text| - pos, 0
    {
      hide ValueAt, SkipSpace, KeyAt, SetMember;
      pos := pos + 1;
      assert Left() == old(Left())[1..];
      SkipWs();
      if pos < |text| && text[pos] == CLOSE_BRACE {
        pos := pos + 1;
        assert Left() == SkipSpace(old(Left())[1..])[1..];
        return Some(Object([]));
      }
      var members: seq<Member> := [];
      while true
        invariant Valid() && pos > old(pos)
        invariant old(ObjectAt(Left()[1..])) == MembersAt(Left(), members)
        decreases |text| - pos
      {
        var key := ParseKey();
        if key.None? {
          return None;
        }
        v := ParseValue();
        if v.None? {
          return None;
        }
        members := SetMember(members, key.value, v.value);
        SkipWs();
        if pos >= |text| {
          return None;
        }
        var c := text[pos];
        ghost var t := Left();
        pos := pos + 1;
        assert Left() == t[1..];
        if c == CLOSE_BRACE {
          return Some(Object(members));
        }
        if c != COMMA {
          return None;
        }
      }
    }
  }

  /** Reading `out` from the start of a string leaves `rest`. */
  ghost predicate ReadTo(start: Text, out: Text, rest: Text) {
    && (StringAt(start).None? <==> StringAt(rest).None?)
    && (StringAt(start).Some? ==> StringAt(start).value == (out + StringAt(rest).value.0, StringAt(rest).value.1))
  }

  lemma ReadSoFar(start: Text, rest: Text, out: Text)
    requires ReadTo(start, out, rest) && rest != [] && rest[0] != QUOTE && UnitAt(rest).Some?
    ensures ReadTo(start, out + [UnitAt(rest).value.0], rest[UnitAt(rest).value.1..])
  {
    hide UnitAt, StringAt;
    StringStep(rest);
    var c := UnitAt(rest).value.0;
    var after := rest[UnitAt(rest).value.1..];
    if StringAt(after).Some? {
      var more := StringAt(after).value.0;
      assert out + ([c] + more) == out + [c] + more;
    }
  }

  lemma StringStep(s: Text)
    requires s != []
    ensures s[0] == QUOTE ==> StringAt(s) == Some(([], s[1..]))
    ensures s[0] != QUOTE && UnitAt(s).None? ==> StringAt(s).None?
    ensures s[0] != QUOTE && UnitAt(s).Some? ==>
              && (StringAt(s).None? <==> StringAt(s[UnitAt(s).value.1..]).None?)
              && (StringAt(s).Some? ==>
                    StringAt(s).value == ([UnitAt(s).value.0] + StringAt(s[UnitAt(s).value.1..]).value.0,
                                          StringAt(s[UnitAt(s).value.1..]).value.1))
  {
  }

  lemma StringUnterminated(s: Text)
    requires s == []
    ensures StringAt(s).None?
  {
  }

  /** JsonValue.tryParse. */
  method ParseText(text: Text) returns (v: Option<Json>)
    ensures v == TryParse(text)
  {
    hide ValueAt, SkipSpace;
    var p := new JsonParser(text);
    v := p.ParseValue();
    if v.Some? {
      p.SkipWs();
      if p.pos != |text| {
        return None;
      }
    }
  }

  method QuoteText(s: Text) returns (out: Text)
    ensures out == Quoted(s)
  {
    hide Escaped;
    out := [QUOTE];
    var i := 0;
    assert s[0..] == s;
    while i < |s|
      invariant 0 <= i <= |s|
      invariant out + EscapedText(s[i..]) == [QUOTE] + EscapedText(s)
    {
      assert s[i..][1..] == s[i + 1..];
      out := out + Escaped(s[i]);
      i := i + 1;
    }
    assert EscapedText(s[i..]) == [];
    out := out + [QUOTE];
  }

  /** What the array loop has appended before element i, and what it still will. */
  lemma {:induction false} PrintItemsFrom(items: seq<Json>, i: nat, other: real -> Text)
    requires i < |items|
    ensures PrintItems(items[i..], other)
            == Print(items[i], other)
               + Separator(i + 1, |items|) + PrintItems(items[i + 1..], other)
  {
    assert items[i..][1..] == items[i + 1..];
    PrintNothing(other);
  }

  lemma {:induction false} PrintMembersFrom(members: seq<Member>, i: nat, other: real -> Text)
    requires i < |members|
    ensures PrintMembers(members[i..], other)
            == Quoted(members[i].key) + [COLON] + Print(members[i].value, other)
               + Separator(i + 1, |members|) + PrintMembers(members[i + 1..], other)
  {
    assert members[i..][1..] == members[i + 1..];
    PrintNothing(other);
  }

  /** JsonValue.toString. */
  method ToString(v: Json, other: real -> Text) returns (out: Text)
    ensures out == Print(v, other)
    decreases v
  {
    hide PrintItems, PrintMembers, Quoted, IntText;
    match v
    case Null => out := NULL_TEXT;
    case Bool(b) => out := if b then TRUE_TEXT else FALSE_TEXT;
    case Number(x) => out := if SafeInteger(x) then IntText(x.Floor) else other(x);
    case String(s) => out := QuoteText(s);
    case Array(items) =>
      var inside := ItemsToString(items, other);
      out := [OPEN_BRACKET] + inside + [CLOSE_BRACKET];
    case Object(members) =>
      var inside := MembersToString(members, other);
      out := [OPEN_BRACE] + inside + [CLOSE_BRACE];
  }

  method ItemsToString(items: seq<Json>, other: real -> Text) returns (out: Text)
    ensures out == PrintItems(items, other)
    decreases items
  {
    hide Print, PrintItems;
    out := [];
    assert items[0..] == items;
    for i := 0 to |items|
      invariant out + Separator(i, |items|) + PrintItems(items[i..], other) == PrintItems(items, other)
    {
      PrintItemsFrom(items, i, other);
      if i > 0 {
        out := out + [COMMA];
      }
      var item := ToString(items[i], other);
      out := out + item;
    }
    assert items[|items|..] == [];
    PrintNothing(other);
  }

  method MembersToString(members: seq<Member>, other: real -> Text) returns (out: Text)
    ensures out == PrintMembers(members, other)
    decreases members
  {
    hide Print, PrintMembers, Quoted;
    out := [];
    assert members[0..] == members;
    for i := 0 to |members|
      invariant out + Separator(i, |members|) + PrintMembers(members[i..], other) == PrintMembers(members, other)
    {
      PrintMembersFrom(members, i, other);
      if i > 0 {
        out := out + [COMMA];
      }
      var key := QuoteText(members[i].key);
      var value := ToString(members[i].value, other);
      out := out + (key + [COLON] + value);
    }
    assert members[|members|..] == [];
    PrintNothing(other);
  }

  /** The comma still to be appended before element i of n. */
  function Separator(i: nat, n: nat): Text {
    if 0 < i < n then [COMMA] else []
  }

  lemma PrintNothing(other: real -> Text)
    ensures PrintItems([], other) == [] && PrintMembers([], other) == []
  {
  }
}
