/**
 The JSON grammar as trees with their text and their value, and that tryParse accepts exactly the texts the
 grammar writes, with exactly the value the tree has (the TypeScript template in src/cmd/origindb_init.cpp).
 */
module JsonGrammar {
  import opened Wrappers
  import opened Decimals
  import opened JsonSdk

  // ---- Trees ----

  /** One unit of a string as it is written: itself, a letter after a backslash, or four hex digits. */
  datatype UnitText =
    | Raw(c: unit)
    | Short(letter: unit, c: unit)
    | Hex(digits: Text, nibbles: seq<nat>, c: unit)

  datatype Tree =
    | NullTree
    | BoolTree(b: bool)
    | NumberTree(negative: bool, whole: Text, fraction: Text, exponent: Option<ExponentPart>)
    | StringTree(units: seq<UnitText>)
    | EmptyArray(gap: Text)
    | ArrayTree(items: seq<Item>)
    | EmptyObject(gap: Text)
    | ObjectTree(entries: seq<Entry>)

  /** A value with the white space around it. */
  datatype Item = Item(before: Text, tree: Tree, after: Text)

  datatype Entry = Entry(before: Text, key: seq<UnitText>, between: Text, item: Item)

  predicate Blank(s: Text) {
    forall i :: 0 <= i < |s| ==> s[i] in {9, 10, 13, 32}
  }

  const LOWER: string := "0123456789abcdef"
  const UPPER: string := "0123456789ABCDEF"

  predicate HexSpells(h: unit, d: nat) {
    d < 16 && (h == LOWER[d] as int || h == UPPER[d] as int)
  }

  predicate WfUnit(u: UnitText) {
    match u
    case Raw(c) => c != 34 && c != 92
    case Short(letter, c) => (letter, c) in {(34, 34), (92, 92), (47, 47), (98, 8), (102, 12), (110, 10), (114, 13), (116, 9)}
    case Hex(digits, nibbles, c) =>
      && |digits| == |nibbles| == 4 && (forall i :: 0 <= i < 4 ==> HexSpells(digits[i], nibbles[i]))
      && c == 4096 * nibbles[0] + 256 * nibbles[1] + 16 * nibbles[2] + nibbles[3]
  }

  predicate WfUnits(units: seq<UnitText>) {
    forall i :: 0 <= i < |units| ==> WfUnit(units[i])
  }

  predicate WfTree(t: Tree)
    decreases t
  {
    match t
    case NumberTree(_, whole, fraction, e) =>
      whole != [] && AllDigits(whole) && AllDigits(fraction) && (e.Some? ==> WfExponent(e.value))
    case StringTree(units) => WfUnits(units)
    case EmptyArray(gap) => Blank(gap)
    case ArrayTree(items) => items != [] && forall i :: 0 <= i < |items| ==> WfItem(items[i])
    case EmptyObject(gap) => Blank(gap)
    case ObjectTree(entries) => entries != [] && forall i :: 0 <= i < |entries| ==> WfEntry(entries[i])
    case _ => true
  }

  predicate WfItem(item: Item)
    decreases item
  {
    Blank(item.before) && WfTree(item.tree) && Blank(item.after)
  }

  predicate WfEntry(entry: Entry)
    decreases entry
  {
    Blank(entry.before) && WfUnits(entry.key) && Blank(entry.between) && WfItem(entry.item)
  }

  // ---- Their text ----

  function UnitWritten(u: UnitText): Text {
    match u
    case Raw(c) => [c]
    case Short(letter, _) => [92, letter]
    case Hex(digits, _, _) => [92, 117] + digits
  }

  function UnitsWritten(units: seq<UnitText>): Text
    decreases |units|
  {
    if units == [] then [] else UnitWritten(units[0]) + UnitsWritten(units[1..])
  }

  function StringWritten(units: seq<UnitText>): Text {
    [34] + UnitsWritten(units) + [34]
  }

  function Written(t: Tree): Text
    decreases t
  {
    match t
    case NullTree => [110, 117, 108, 108]
    case BoolTree(b) => if b then [116, 114, 117, 101] else [102, 97, 108, 115, 101]
    case NumberTree(negative, whole, fraction, e) => DecimalText(negative, whole, fraction, e)
    case StringTree(units) => StringWritten(units)
    case EmptyArray(gap) => [91] + gap + [93]
    case ArrayTree(items) => [91] + ItemsWritten(items) + [93]
    case EmptyObject(gap) => [123] + gap + [125]
    case ObjectTree(entries) => [123] + EntriesWritten(entries) + [125]
  }

  function ItemWritten(item: Item): Text
    decreases item
  {
    item.before + Written(item.tree) + item.after
  }

  function ItemsWritten(items: seq<Item>): Text
    decreases items
  {
    if items == [] then []
    else ItemWritten(items[0]) + (if |items| == 1 then [] else [44] + ItemsWritten(items[1..]))
  }

  function EntryWritten(entry: Entry): Text
    decreases entry
  {
    entry.before + StringWritten(entry.key) + entry.between + [58] + ItemWritten(entry.item)
  }

  function EntriesWritten(entries: seq<Entry>): Text
    decreases entries
  {
    if entries == [] then []
    else EntryWritten(entries[0]) + (if |entries| == 1 then [] else [44] + EntriesWritten(entries[1..]))
  }

  // ---- Their value ----

  function Units(units: seq<UnitText>): Text {
    seq(|units|, i requires 0 <= i < |units| => units[i].c)
  }

  function Meaning(t: Tree): Json
    decreases t
  {
    match t
    case NullTree => Null
    case BoolTree(b) => Bool(b)
    case NumberTree(negative, whole, fraction, e) =>
      Number(Decimal(negative, whole + fraction, ExponentValue(e) - |fraction|))
    case StringTree(units) => String(Units(units))
    case EmptyArray(_) => Array([])
    case ArrayTree(items) => Array(Meanings(items))
    case EmptyObject(_) => Object([])
    case ObjectTree(entries) => Object(Merged([], entries))
  }

  function Meanings(items: seq<Item>): seq<Json>
    decreases items
  {
    if items == [] then [] else [Meaning(items[0].tree)] + Meanings(items[1..])
  }

  /** Members set one after the other: see SetKeepsOrder for a key written twice. */
  function Merged(members: seq<Member>, entries: seq<Entry>): seq<Member>
    decreases entries
  {
    if entries == [] then members
    else Merged(SetMember(members, Units(entries[0].key), Meaning(entries[0].item.tree)), entries[1..])
  }

  /** A key set again keeps its place and takes the new value; a new one goes last. */
  lemma {:induction false} SetKeepsOrder(members: seq<Member>, key: Text, value: Json)
    requires DistinctKeys(members)
    ensures (forall i :: 0 <= i < |members| ==> members[i].key != key)
            ==> SetMember(members, key, value) == members + [Member(key, value)]
    ensures forall i :: 0 <= i < |members| && members[i].key == key ==>
              SetMember(members, key, value) == members[i := Member(key, value)]
    decreases |members|
  {
    if members != [] && members[0].key != key {
      var more := members[1..];
      SetKeepsOrder(more, key, value);
      forall i | 0 <= i < |members| && members[i].key == key
        ensures SetMember(members, key, value) == members[i := Member(key, value)]
      {
        assert more[i - 1].key == key;
        assert members[i := Member(key, value)] == [members[0]] + more[i - 1 := Member(key, value)];
      }
      if forall i :: 0 <= i < |members| ==> members[i].key != key {
        assert forall i :: 0 <= i < |more| ==> more[i].key != key;
        assert members + [Member(key, value)] == [members[0]] + (more + [Member(key, value)]);
      }
    }
  }

  // ---- White space ----

  lemma {:induction false} BlankSkipped(gap: Text, s: Text)
    requires Blank(gap)
    ensures SkipSpace(gap + s) == SkipSpace(s)
    decreases |gap|
  {
    if gap == [] {
      assert gap + s == s;
    } else {
      assert (gap + s)[1..] == gap[1..] + s;
      assert gap[0] in {9, 10, 13, 32};
      BlankSkipped(gap[1..], s);
    }
  }

  lemma {:induction false} GapOf(s: Text) returns (gap: Text)
    ensures Blank(gap) && s == gap + SkipSpace(s)
    decreases |s|
  {
    gap := [];
    if s != [] && IsSpace(s[0]) {
      gap := GapOf(s[1..]);
      gap := [s[0]] + gap;
      assert s == [s[0]] + s[1..];
    }
  }

  // ---- Strings ----

  lemma HexSpelled(h: unit, d: nat)
    ensures HexSpells(h, d) <==> HexValue(h) == Some(d)
  {
    if HexSpells(h, d) {
      assert LOWER[d] as int == if d < 10 then 48 + d else 87 + d;
      assert UPPER[d] as int == if d < 10 then 48 + d else 55 + d;
    }
    if HexValue(h) == Some(d) {
      assert LOWER[d] as int == if d < 10 then 48 + d else 87 + d;
      assert UPPER[d] as int == if d < 10 then 48 + d else 55 + d;
    }
  }

  lemma HexRead(digits: Text, nibbles: seq<nat>, c: unit)
    requires WfUnit(Hex(digits, nibbles, c))
    ensures FourHex(digits) == Some(c)
  {
    hide HexSpells, HexValue;
    HexSpelled(digits[0], nibbles[0]);
    HexSpelled(digits[1], nibbles[1]);
    HexSpelled(digits[2], nibbles[2]);
    HexSpelled(digits[3], nibbles[3]);
    HexBelow(digits[0]);
    HexBelow(digits[1]);
    HexBelow(digits[2]);
    HexBelow(digits[3]);
  }

  lemma HexFound(digits: Text, nibbles: seq<nat>)
    requires |digits| == |nibbles| == 4 && FourHex(digits).Some?
    requires forall i :: 0 <= i < 4 ==> HexValue(digits[i]) == Some(nibbles[i])
    ensures WfUnit(Hex(digits, nibbles, FourHex(digits).value))
  {
    hide HexSpells, HexValue;
    forall i | 0 <= i < 4 ensures HexSpells(digits[i], nibbles[i]) && nibbles[i] < 16 {
      HexSpelled(digits[i], nibbles[i]);
      HexBelow(digits[i]);
    }
  }

  lemma HexBelow(h: unit)
    ensures HexValue(h).Some? ==> HexValue(h).value < 16
  {
  }

  lemma AllHex(s: Text)
    requires |s| >= 4 && FourHex(s).Some?
    ensures HexValue(s[0]).Some? && HexValue(s[1]).Some? && HexValue(s[2]).Some? && HexValue(s[3]).Some?
  {
  }

  lemma UnitRead(u: UnitText, rest: Text)
    requires WfUnit(u)
    ensures UnitAt(UnitWritten(u) + rest) == Some((u.c, |UnitWritten(u)|)) && UnitWritten(u)[0] != QUOTE
  {
    hide FourHex;
    var s := UnitWritten(u) + rest;
    if u.Hex? {
      HexRead(u.digits, u.nibbles, u.c);
      assert FourHex(s[2..]) == FourHex(u.digits) by { SameHex(s[2..], u.digits); }
    }
  }

  lemma SameHex(s: Text, digits: Text)
    requires |s| >= 4 && |digits| == 4 && forall i :: 0 <= i < 4 ==> s[i] == digits[i]
    ensures FourHex(s) == FourHex(digits)
  {
  }

  lemma UnitFound(s: Text) returns (u: UnitText)
    requires s != [] && s[0] != QUOTE && UnitAt(s).Some?
    ensures WfUnit(u) && u.c == UnitAt(s).value.0
    ensures UnitAt(s).value.1 <= |s| && UnitWritten(u) == s[..UnitAt(s).value.1]
  {
    hide FourHex, HexValue, HexSpells;
    var (c, n) := UnitAt(s).value;
    if s[0] != BACKSLASH {
      u := Raw(c);
    } else if s[1] == 0x75 {
      var digits := s[2..6];
      SameHex(s[2..], digits);
      AllHex(digits);
      var nibbles: seq<nat> := [HexValue(digits[0]).value, HexValue(digits[1]).value, HexValue(digits[2]).value, HexValue(digits[3]).value];
      HexFound(digits, nibbles);
      u := Hex(digits, nibbles, c);
      assert s[..6] == [92, 117] + digits;
    } else {
      u := Short(s[1], c);
    }
  }

  lemma {:induction false} UnitsRead(units: seq<UnitText>, rest: Text)
    requires WfUnits(units)
    ensures StringAt(UnitsWritten(units) + [QUOTE] + rest) == Some((Units(units), rest))
    decreases |units|
  {
    hide UnitAt, UnitWritten, WfUnit;
    var s := UnitsWritten(units) + [QUOTE] + rest;
    if units == [] {
      assert s[1..] == rest;
    } else {
      var tail := UnitsWritten(units[1..]) + [QUOTE] + rest;
      assert s == UnitWritten(units[0]) + tail;
      UnitRead(units[0], tail);
      assert s[|UnitWritten(units[0])|..] == tail;
      UnitsRead(units[1..], rest);
      assert [units[0].c] + Units(units[1..]) == Units(units);
    }
  }

  lemma UnitsNone()
    ensures WfUnits([]) && UnitsWritten([]) == [] && Units([]) == []
  {
  }

  lemma UnitsStep(u: UnitText, more: seq<UnitText>)
    ensures WfUnits([u] + more) <==> WfUnit(u) && WfUnits(more)
    ensures UnitsWritten([u] + more) == UnitWritten(u) + UnitsWritten(more)
    ensures Units([u] + more) == [u.c] + Units(more)
  {
    hide WfUnit, UnitWritten;
    assert ([u] + more)[1..] == more;
    if WfUnits([u] + more) {
      forall i | 0 <= i < |more| ensures WfUnit(more[i]) {
        assert ([u] + more)[i + 1] == more[i];
      }
      assert ([u] + more)[0] == u;
    }
  }

  lemma {:induction false} UnitsFound(s: Text) returns (units: seq<UnitText>)
    requires StringAt(s).Some?
    ensures WfUnits(units) && Units(units) == StringAt(s).value.0
    ensures s == UnitsWritten(units) + [QUOTE] + StringAt(s).value.1
    decreases |s|
  {
    hide UnitAt, UnitWritten, WfUnit, Units, UnitsWritten, WfUnits;
    if s[0] == QUOTE {
      units := [];
      UnitsNone();
      assert s == [QUOTE] + s[1..];
    } else {
      var n := UnitAt(s).value.1;
      var u := UnitFound(s);
      var more := UnitsFound(s[n..]);
      units := [u] + more;
      UnitsStep(u, more);
      assert s == s[..n] + s[n..];
      Regrouped(UnitWritten(u), UnitsWritten(more), [QUOTE], StringAt(s[n..]).value.1);
    }
  }

  // ---- Numbers ----

  lemma {:induction false} DigitsFound(s: Text)
    ensures AllDigits(s[..DigitsLength(s)])
    decreases |s|
  {
    if s != [] && IsDigit(s[0]) {
      DigitsFound(s[1..]);
      assert s[..DigitsLength(s)] == [s[0]] + s[1..][..DigitsLength(s[1..])];
    }
  }

  lemma FractionFound(s: Text)
    requires FractionAt(s).Some?
    ensures var (fraction, rest) := FractionAt(s).value; AllDigits(fraction) && s == FractionText(fraction) + rest
  {
    hide DigitsLength;
    if Head(s) == 0x2E {
      DigitsFound(s[1..]);
    }
  }

  /** Digits after an e and perhaps a sign are an exponent. */
  lemma ExponentMade(mark: unit, sign: Text, digits: Text)
    requires mark == 0x65 || mark == 0x45
    requires sign == [] || sign == [0x2B] || sign == [MINUS]
    requires DigitsLength(digits) > 0
    ensures var n := DigitsLength(digits);
            var e := ExponentPart(mark, sign, digits[..n]);
            && WfExponent(e) && [mark] + sign + digits == ExponentText(Some(e)) + digits[n..]
            && ExponentValue(Some(e)) == if sign == [MINUS] then -(DigitsValue(digits[..n]) as int) else DigitsValue(digits[..n])
  {
    hide DigitsLength, DigitsValue, AllDigits;
    DigitsFound(digits);
    var n := DigitsLength(digits);
    assert digits == digits[..n] + digits[n..];
  }

  lemma SignedFound(s: Text) returns (e: ExponentPart)
    requires ExponentAt(s).Some? && (Head(s) == 0x65 || Head(s) == 0x45)
    requires Head(s[1..]) == 0x2B || Head(s[1..]) == MINUS
    ensures WfExponent(e) && ExponentAt(s).value.0 == ExponentValue(Some(e))
    ensures s == ExponentText(Some(e)) + ExponentAt(s).value.1
  {
    hide DigitsLength, DigitsValue, WfExponent, ExponentText, ExponentValue;
    ExponentMade(s[0], [s[1]], s[2..]);
    e := ExponentPart(s[0], [s[1]], s[2..][..DigitsLength(s[2..])]);
    assert s == [s[0]] + [s[1]] + s[2..];
  }

  lemma UnsignedFound(s: Text) returns (e: ExponentPart)
    requires ExponentAt(s).Some? && (Head(s) == 0x65 || Head(s) == 0x45)
    requires Head(s[1..]) != 0x2B && Head(s[1..]) != MINUS
    ensures WfExponent(e) && ExponentAt(s).value.0 == ExponentValue(Some(e))
    ensures s == ExponentText(Some(e)) + ExponentAt(s).value.1
  {
    hide DigitsLength, DigitsValue, WfExponent, ExponentText, ExponentValue;
    ExponentMade(s[0], [], s[1..]);
    e := ExponentPart(s[0], [], s[1..][..DigitsLength(s[1..])]);
    assert s == [s[0]] + [] + s[1..];
  }

  lemma ExponentFound(s: Text) returns (e: Option<ExponentPart>)
    requires ExponentAt(s).Some?
    ensures e.Some? ==> WfExponent(e.value)
    ensures ExponentAt(s).value.0 == ExponentValue(e) && s == ExponentText(e) + ExponentAt(s).value.1
  {
    if Head(s) != 0x65 && Head(s) != 0x45 {
      e := None;
    } else {
      hide *;
      var part;
      if Head(s[1..]) == 0x2B || Head(s[1..]) == MINUS {
        part := SignedFound(s);
      } else {
        part := UnsignedFound(s);
      }
      e := Some(part);
    }
  }

  lemma NumberFound(s: Text) returns (t: Tree)
    requires NumberAt(s).Some?
    ensures t.NumberTree? && WfTree(t) && Meaning(t) == NumberAt(s).value.0 && s == Written(t) + NumberAt(s).value.1
  {
    hide DigitsLength, DigitsValue, Decimal, FractionAt, ExponentAt, ExponentText, FractionText, ExponentValue, WfExponent,
      DecimalText, AllDigits;
    var negative := Head(s) == MINUS;
    var digits := if negative then s[1..] else s;
    var n := DigitsLength(digits);
    DigitsFound(digits);
    FractionFound(digits[n..]);
    var (fraction, rest) := FractionAt(digits[n..]).value;
    var e := ExponentFound(rest);
    var whole := digits[..n];
    t := NumberTree(negative, whole, fraction, e);
    assert digits == whole + digits[n..];
    NumberAssembled(negative, s, whole, fraction, e, rest, ExponentAt(rest).value.1);
  }

  lemma NumberAssembled(
      negative: bool, s: Text, whole: Text, fraction: Text, e: Option<ExponentPart>, rest: Text, after: Text)
    requires negative <==> Head(s) == MINUS
    requires (if negative then s[1..] else s) == whole + (FractionText(fraction) + rest) && rest == ExponentText(e) + after
    ensures s == DecimalText(negative, whole, fraction, e) + after
  {
    hide FractionText, ExponentText;
    var sign: Text := if negative then [MINUS] else [];
    assert s == sign + (if negative then s[1..] else s);
    Flat(sign, whole, FractionText(fraction), ExponentText(e), after);
  }

  lemma Flat(a: Text, b: Text, c: Text, d: Text, e: Text)
    ensures a + (b + (c + (d + e))) == a + b + c + d + e
  {
    Regroup(a, b, c, d);
  }

  lemma NumberRead(t: Tree, rest: Text)
    requires t.NumberTree? && WfTree(t) && EndsNumber(rest)
    ensures NumberAt(Written(t) + rest) == Some((Meaning(t), rest))
  {
    hide NumberAt, Decimal, DecimalText, WfExponent, AllDigits, EndsNumber;
    NumberTold(t.negative, t.whole, t.fraction, t.exponent, rest);
  }

  // ---- What a value may be followed by ----

  lemma TreeHead(t: Tree)
    requires WfTree(t)
    ensures Written(t) != [] && !IsSpace(Written(t)[0]) && Written(t)[0] != CLOSE_BRACKET
    ensures match t
            case NullTree => Written(t)[0] == 0x6E
            case BoolTree(b) => Written(t)[0] == if b then 0x74 else 0x66
            case NumberTree(_, _, _, _) => IsDigit(Written(t)[0]) || Written(t)[0] == MINUS
            case StringTree(_) => Written(t)[0] == QUOTE
            case EmptyArray(_) => Written(t)[0] == OPEN_BRACKET
            case ArrayTree(_) => Written(t)[0] == OPEN_BRACKET
            case EmptyObject(_) => Written(t)[0] == OPEN_BRACE
            case ObjectTree(_) => Written(t)[0] == OPEN_BRACE
  {
    if t.NumberTree? {
      assert IsDigitCode(t.whole[0]);
    }
  }

  lemma BlankEndsNumber(gap: Text, rest: Text)
    requires Blank(gap) && EndsNumber(rest)
    ensures EndsNumber(gap + rest)
  {
    if gap != [] {
      assert gap[0] in {9, 10, 13, 32};
    }
  }

  // ---- What the grammar writes is read ----

  lemma {:induction false} TreeRead(t: Tree, rest: Text)
    requires WfTree(t) && EndsNumber(rest)
    ensures ValueAt(Written(t) + rest) == Some((Meaning(t), rest))
    decreases t, 1
  {
    hide StringAt, NumberAt, ArrayAt, ObjectAt, ItemsWritten, EntriesWritten, UnitsWritten, DecimalText, Units,
      WfUnits, WfItem, WfEntry, Meanings, Merged, Decimal, EndsNumber;
    TreeHead(t);
    var s := Written(t) + rest;
    NoSpaceToSkip(s);
    match t
    case NullTree => assert s[..4] == NULL_TEXT && s[4..] == rest;
    case BoolTree(b) =>
      if b {
        assert s[..4] == TRUE_TEXT && s[4..] == rest;
      } else {
        assert s[..5] == FALSE_TEXT && s[5..] == rest;
      }
    case NumberTree(_, _, _, _) => NumberRead(t, rest);
    case StringTree(units) =>
      assert s[1..] == UnitsWritten(units) + [QUOTE] + rest;
      UnitsRead(units, rest);
    case EmptyArray(gap) =>
      assert s[1..] == gap + ([CLOSE_BRACKET] + rest);
      EmptyRead(gap, rest);
    case EmptyObject(gap) =>
      assert s[1..] == gap + ([CLOSE_BRACE] + rest);
      EmptyRead(gap, rest);
    case ArrayTree(items) =>
      assert s[1..] == ItemsWritten(items) + [CLOSE_BRACKET] + rest;
      ArrayRead(items, rest);
    case ObjectTree(entries) =>
      assert s[1..] == EntriesWritten(entries) + [CLOSE_BRACE] + rest;
      ObjectRead(entries, rest);
  }

  lemma EmptyRead(gap: Text, rest: Text)
    requires Blank(gap)
    ensures ArrayAt(gap + ([CLOSE_BRACKET] + rest)) == Some((Array([]), rest))
    ensures ObjectAt(gap + ([CLOSE_BRACE] + rest)) == Some((Object([]), rest))
  {
    hide ElementsAt, MembersAt, Blank;
    BlankSkipped(gap, [CLOSE_BRACKET] + rest);
    BlankSkipped(gap, [CLOSE_BRACE] + rest);
    NoSpaceToSkip([CLOSE_BRACKET] + rest);
    NoSpaceToSkip([CLOSE_BRACE] + rest);
    assert ([CLOSE_BRACKET] + rest)[1..] == rest && ([CLOSE_BRACE] + rest)[1..] == rest;
  }

  predicate Closing(tail: Text) {
    tail != [] && (tail[0] == COMMA || tail[0] == CLOSE_BRACKET || tail[0] == CLOSE_BRACE)
  }

  lemma {:induction false} ItemRead(item: Item, tail: Text)
    requires WfItem(item) && Closing(tail)
    ensures ValueAt(ItemWritten(item) + tail) == Some((Meaning(item.tree), item.after + tail))
    ensures SkipSpace(item.after + tail) == tail
    decreases item, 2
  {
    hide ValueAt, Written, WfTree, Meaning, Blank;
    var more := item.after + tail;
    assert EndsNumber(more) by { BlankEndsNumber(item.after, tail); }
    TreeRead(item.tree, more);
    assert ItemWritten(item) + tail == item.before + (Written(item.tree) + more);
    BlankSkipped(item.before, Written(item.tree) + more);
    ValueSkipsSpace(item.before + (Written(item.tree) + more), Written(item.tree) + more);
    BlankSkipped(item.after, tail);
    NoSpaceToSkip(tail);
  }

  /** Items start with something other than the closing bracket. */
  lemma ItemsStart(items: seq<Item>, rest: Text)
    requires items != [] && WfItem(items[0])
    ensures Head(SkipSpace(ItemsWritten(items) + rest)) != CLOSE_BRACKET
  {
    hide Written, WfTree, Blank;
    var item := items[0];
    var more := Written(item.tree) + (item.after + (if |items| == 1 then [] else [44] + ItemsWritten(items[1..])) + rest);
    assert ItemsWritten(items) + rest == item.before + more;
    TreeHead(item.tree);
    BlankSkipped(item.before, more);
    NoSpaceToSkip(more);
  }

  lemma {:induction false} ArrayRead(items: seq<Item>, rest: Text)
    requires items != [] && forall i :: 0 <= i < |items| ==> WfItem(items[i])
    ensures ArrayAt(ItemsWritten(items) + [CLOSE_BRACKET] + rest) == Some((Array(Meanings(items)), rest))
    decreases items, 4
  {
    hide ElementsAt, ItemsWritten, Meanings, WfItem, SkipSpace;
    var s := ItemsWritten(items) + [CLOSE_BRACKET] + rest;
    assert s == ItemsWritten(items) + ([CLOSE_BRACKET] + rest);
    ItemsStart(items, [CLOSE_BRACKET] + rest);
    ElementsSkipSpace(s, []);
    ElementsRead([], items, rest);
    assert [] + Meanings(items) == Meanings(items);
  }

  lemma {:induction false} ElementsRead(done: seq<Json>, items: seq<Item>, rest: Text)
    requires items != [] && forall i :: 0 <= i < |items| ==> WfItem(items[i])
    ensures ElementsAt(ItemsWritten(items) + [CLOSE_BRACKET] + rest, done) == Some((Array(done + Meanings(items)), rest))
    decreases items, 3
  {
    hide ValueAt, WfItem, ItemWritten, Meaning, SkipSpace;
    var text := ItemsWritten(items) + [CLOSE_BRACKET] + rest;
    if |items| == 1 {
      var tail := [CLOSE_BRACKET] + rest;
      assert text == ItemWritten(items[0]) + tail;
      ItemRead(items[0], tail);
      assert tail[1..] == rest;
      assert Meanings(items) == [Meaning(items[0].tree)];
    } else {
      var more := ItemsWritten(items[1..]) + [CLOSE_BRACKET] + rest;
      var tail := [COMMA] + more;
      assert text == ItemWritten(items[0]) + tail;
      ItemRead(items[0], tail);
      assert tail[1..] == more;
      ElementsRead(done + [Meaning(items[0].tree)], items[1..], rest);
      assert done + [Meaning(items[0].tree)] + Meanings(items[1..]) == done + Meanings(items);
    }
  }

  lemma KeyRead(entry: Entry, more: Text)
    requires Blank(entry.before) && WfUnits(entry.key) && Blank(entry.between)
    ensures KeyAt(entry.before + StringWritten(entry.key) + entry.between + [58] + more) == Some((Units(entry.key), more))
  {
    hide StringAt, UnitsWritten, Units, WfUnits, Blank;
    var colon := [COLON] + more;
    var text := StringWritten(entry.key) + (entry.between + colon);
    assert entry.before + StringWritten(entry.key) + entry.between + [58] + more == entry.before + text;
    BlankSkipped(entry.before, text);
    NoSpaceToSkip(text);
    assert text[1..] == UnitsWritten(entry.key) + [QUOTE] + (entry.between + colon);
    UnitsRead(entry.key, entry.between + colon);
    BlankSkipped(entry.between, colon);
    NoSpaceToSkip(colon);
    assert colon[1..] == more;
  }

  /** Entries start with a quote. */
  lemma EntriesStart(entries: seq<Entry>, rest: Text)
    requires entries != [] && WfEntry(entries[0])
    ensures Head(SkipSpace(EntriesWritten(entries) + rest)) == QUOTE
  {
    hide UnitsWritten, ItemWritten, WfItem, Blank;
    var entry := entries[0];
    var more := StringWritten(entry.key)
      + (entry.between + [58] + ItemWritten(entry.item) + (if |entries| == 1 then [] else [44] + EntriesWritten(entries[1..])) + rest);
    assert EntriesWritten(entries) + rest == entry.before + more;
    BlankSkipped(entry.before, more);
    NoSpaceToSkip(more);
  }

  lemma {:induction false} ObjectRead(entries: seq<Entry>, rest: Text)
    requires entries != [] && forall i :: 0 <= i < |entries| ==> WfEntry(entries[i])
    ensures ObjectAt(EntriesWritten(entries) + [CLOSE_BRACE] + rest) == Some((Object(Merged([], entries)), rest))
    decreases entries, 4
  {
    hide MembersAt, EntriesWritten, Merged, WfEntry, SkipSpace;
    var s := EntriesWritten(entries) + [CLOSE_BRACE] + rest;
    assert s == EntriesWritten(entries) + ([CLOSE_BRACE] + rest);
    EntriesStart(entries, [CLOSE_BRACE] + rest);
    MembersSkipSpace(s, []);
    EntriesRead([], entries, rest);
  }

  lemma {:induction false} EntriesRead(members: seq<Member>, entries: seq<Entry>, rest: Text)
    requires entries != [] && forall i :: 0 <= i < |entries| ==> WfEntry(entries[i])
    ensures MembersAt(EntriesWritten(entries) + [CLOSE_BRACE] + rest, members) == Some((Object(Merged(members, entries)), rest))
    decreases entries, 3
  {
    hide KeyAt, ValueAt, ItemWritten, WfItem, Meaning, Units, WfUnits, Blank, StringWritten, SetMember, SkipSpace;
    var text := EntriesWritten(entries) + [CLOSE_BRACE] + rest;
    var entry, others := entries[0], entries[1..];
    var tail := (if others == [] then [] else [44] + EntriesWritten(others)) + ([CLOSE_BRACE] + rest);
    EntriesSplit(entries, [CLOSE_BRACE] + rest);
    assert text == EntriesWritten(entries) + ([CLOSE_BRACE] + rest);
    hide EntriesWritten;
    KeyRead(entry, ItemWritten(entry.item) + tail);
    ItemRead(entry.item, tail);
    if others == [] {
      assert tail[1..] == rest;
    } else {
      assert tail[1..] == EntriesWritten(others) + [CLOSE_BRACE] + rest;
      EntriesRead(SetMember(members, Units(entry.key), Meaning(entry.item.tree)), others, rest);
    }
  }

  /** The first entry's text, up to its colon and from there on. */
  lemma EntriesSplit(entries: seq<Entry>, rest: Text)
    requires entries != []
    ensures var entry, others := entries[0], entries[1..];
            var tail := (if others == [] then [] else [44] + EntriesWritten(others)) + rest;
            EntriesWritten(entries) + rest
            == entry.before + StringWritten(entry.key) + entry.between + [58] + (ItemWritten(entry.item) + tail)
  {
    hide StringWritten, ItemWritten;
    var entry, others := entries[0], entries[1..];
    var more := if others == [] then [] else [44] + EntriesWritten(others);
    assert EntriesWritten(entries) == EntryWritten(entry) + more;
    Regrouped(entry.before + StringWritten(entry.key) + entry.between + [58], ItemWritten(entry.item), more, rest);
  }

  lemma Regrouped(a: Text, b: Text, c: Text, d: Text)
    ensures a + b + c + d == a + (b + (c + d))
  {
  }

  lemma KeySkipsSpace(s: Text, t: Text)
    requires SkipSpace(s) == SkipSpace(t)
    ensures KeyAt(s) == KeyAt(t)
  {
    hide StringAt, SkipSpace;
  }

  // ---- What is read, the grammar writes ----

  lemma {:induction false} ValueFound(s: Text) returns (gap: Text, t: Tree)
    requires ValueAt(s).Some?
    ensures Blank(gap) && WfTree(t) && Meaning(t) == ValueAt(s).value.0
    ensures s == gap + Written(t) + ValueAt(s).value.1
    decreases |s|, 2
  {
    hide StringAt, NumberAt, ArrayAt, ObjectAt, ItemsWritten, EntriesWritten, UnitsWritten, DecimalText, Units,
      WfUnits, WfItem, WfEntry, Meanings, Merged, Decimal, SkipSpace, Blank;
    gap := GapOf(s);
    var u := SkipSpace(s);
    assert u == [u[0]] + u[1..];
    if u[0] == OPEN_BRACE {
      t := ObjectFound(u[1..]);
    } else if u[0] == OPEN_BRACKET {
      t := ArrayFound(u[1..]);
    } else if u[0] == QUOTE {
      var units := UnitsFound(u[1..]);
      t := StringTree(units);
    } else if u[0] == 0x74 {
      t := BoolTree(true);
      assert u == u[..4] + u[4..];
    } else if u[0] == 0x66 {
      t := BoolTree(false);
      assert u == u[..5] + u[5..];
    } else if u[0] == 0x6E {
      t := NullTree;
      assert u == u[..4] + u[4..];
    } else {
      t := NumberFound(u);
    }
  }

  lemma {:induction false} ArrayFound(s: Text) returns (t: Tree)
    requires ArrayAt(s).Some?
    ensures WfTree(t) && Meaning(t) == ArrayAt(s).value.0
    ensures [OPEN_BRACKET] + s == Written(t) + ArrayAt(s).value.1
    decreases |s|, 5
  {
    hide ElementsAt, ItemsWritten, WfItem, Meanings, SkipSpace, Blank;
    var u := SkipSpace(s);
    if Head(u) == CLOSE_BRACKET {
      var gap := GapOf(s);
      t := EmptyArray(gap);
      assert u == [CLOSE_BRACKET] + u[1..];
    } else {
      ElementsSkipSpace(s, []);
      var items := ElementsFound(s, []);
      t := ArrayTree(items);
      assert [] + Meanings(items) == Meanings(items);
    }
  }

  lemma ElementsSkipSpace(s: Text, items: seq<Json>)
    ensures ElementsAt(s, items) == ElementsAt(SkipSpace(s), items)
  {
    hide ValueAt;
    SkipTwice(s);
    ValueSkipsSpace(s, SkipSpace(s));
  }

  lemma MembersSkipSpace(s: Text, members: seq<Member>)
    ensures MembersAt(s, members) == MembersAt(SkipSpace(s), members)
  {
    hide ValueAt, KeyAt;
    SkipTwice(s);
    KeySkipsSpace(s, SkipSpace(s));
  }

  lemma {:induction false} SkipTwice(s: Text)
    ensures SkipSpace(SkipSpace(s)) == SkipSpace(s)
    decreases |s|
  {
    if s != [] && IsSpace(s[0]) {
      SkipTwice(s[1..]);
    }
  }

  lemma ItemsStep(item: Item, more: seq<Item>)
    requires more != []
    ensures ItemsWritten([item] + more) == ItemWritten(item) + ([44] + ItemsWritten(more))
    ensures Meanings([item] + more) == [Meaning(item.tree)] + Meanings(more)
  {
    assert ([item] + more)[1..] == more;
  }

  lemma ItemsOne(item: Item)
    ensures ItemsWritten([item]) == ItemWritten(item) && Meanings([item]) == [Meaning(item.tree)]
  {
  }

  /** A value with the white space on both sides. */
  lemma {:induction false} ItemFound(s: Text) returns (item: Item)
    requires ValueAt(s).Some?
    ensures WfItem(item) && Meaning(item.tree) == ValueAt(s).value.0
    ensures s == ItemWritten(item) + SkipSpace(ValueAt(s).value.1)
    decreases |s|, 3
  {
    hide ValueAt, WfTree, Written, Meaning, SkipSpace, Blank;
    var rest := ValueAt(s).value.1;
    var gap, tree := ValueFound(s);
    var after := GapOf(rest);
    item := Item(gap, tree, after);
  }

  lemma {:induction false} ElementsFound(s: Text, done: seq<Json>) returns (items: seq<Item>)
    requires ElementsAt(s, done).Some?
    ensures items != [] && forall i :: 0 <= i < |items| ==> WfItem(items[i])
    ensures ElementsAt(s, done).value.0 == Array(done + Meanings(items))
    ensures s == ItemsWritten(items) + [CLOSE_BRACKET] + ElementsAt(s, done).value.1
    decreases |s|, 4
  {
    hide ValueAt, Meaning, SkipSpace, ItemWritten, WfItem, ItemsWritten, Meanings;
    var u := SkipSpace(ValueAt(s).value.1);
    var item := ItemFound(s);
    assert u == [u[0]] + u[1..];
    if Head(u) == COMMA {
      var more := ElementsFound(u[1..], done + [Meaning(item.tree)]);
      items := [item] + more;
      ItemsStep(item, more);
      assert done + [Meaning(item.tree)] + Meanings(more) == done + Meanings(items);
    } else {
      items := [item];
      ItemsOne(item);
    }
  }

  lemma {:induction false} ObjectFound(s: Text) returns (t: Tree)
    requires ObjectAt(s).Some?
    ensures WfTree(t) && Meaning(t) == ObjectAt(s).value.0
    ensures [OPEN_BRACE] + s == Written(t) + ObjectAt(s).value.1
    decreases |s|, 5
  {
    hide MembersAt, EntriesWritten, WfEntry, Merged, SkipSpace, Blank;
    var u := SkipSpace(s);
    if Head(u) == CLOSE_BRACE {
      var gap := GapOf(s);
      t := EmptyObject(gap);
      assert u == [CLOSE_BRACE] + u[1..];
    } else {
      MembersSkipSpace(s, []);
      var entries := MembersFound(s, []);
      t := ObjectTree(entries);
    }
  }

  lemma KeyFound(s: Text) returns (before: Text, key: seq<UnitText>, between: Text)
    requires KeyAt(s).Some?
    ensures Blank(before) && WfUnits(key) && Blank(between) && Units(key) == KeyAt(s).value.0
    ensures s == before + StringWritten(key) + between + [58] + KeyAt(s).value.1
  {
    hide StringAt, UnitsWritten, Units, WfUnits, Blank, SkipSpace;
    var t := SkipSpace(s);
    before := GapOf(s);
    key := UnitsFound(t[1..]);
    var rest := StringAt(t[1..]).value.1;
    between := GapOf(rest);
    var u := SkipSpace(rest);
    assert u == [58] + u[1..] && t == [34] + t[1..];
  }

  lemma {:induction false} MembersFound(s: Text, members: seq<Member>) returns (entries: seq<Entry>)
    requires MembersAt(s, members).Some?
    ensures entries != [] && forall i :: 0 <= i < |entries| ==> WfEntry(entries[i])
    ensures MembersAt(s, members).value.0 == Object(Merged(members, entries))
    ensures s == EntriesWritten(entries) + [CLOSE_BRACE] + MembersAt(s, members).value.1
    decreases |s|, 4
  {
    hide KeyAt, ValueAt, WfItem, WfUnits, ItemWritten, StringWritten, Units, Meaning, SkipSpace, Blank, SetMember;
    var (name, afterKey) := KeyAt(s).value;
    var before, key, between := KeyFound(s);
    var u := SkipSpace(ValueAt(afterKey).value.1);
    var item := ItemFound(afterKey);
    var entry := Entry(before, key, between, item);
    assert s == EntryWritten(entry) + u;
    assert u == [u[0]] + u[1..];
    assert WfEntry(entry);
    if Head(u) == COMMA {
      var more := MembersFound(u[1..], SetMember(members, name, Meaning(item.tree)));
      entries := [entry] + more;
      assert entries[1..] == more;
    } else {
      entries := [entry];
      assert entries[1..] == [];
    }
  }

  // ---- The whole text ----

  /** The text is one value with white space around it, written as the grammar allows. */
  ghost predicate Denotes(text: Text, v: Json) {
    exists item :: WfItem(item) && text == ItemWritten(item) && v == Meaning(item.tree)
  }

  /** tryParse accepts exactly the texts of the grammar, each with the one value it denotes. */
  lemma AcceptsExactlyJson(text: Text, v: Json)
    ensures TryParse(text) == Some(v) <==> Denotes(text, v)
  {
    hide ValueAt, SkipSpace, WfTree, Written, Meaning, Blank, EndsNumber;
    if Denotes(text, v) {
      var item :| WfItem(item) && text == ItemWritten(item) && v == Meaning(item.tree);
      WholeRead(item);
    }
    if TryParse(text) == Some(v) {
      var item := ItemFound(text);
      assert ItemWritten(item) + [] == ItemWritten(item);
    }
  }

  lemma WholeRead(item: Item)
    requires WfItem(item)
    ensures TryParse(ItemWritten(item)) == Some(Meaning(item.tree))
  {
    hide ValueAt, WfTree, Written, Meaning, Blank;
    var core := Written(item.tree) + item.after;
    assert EndsNumber(item.after) by {
      BlankEndsNumber(item.after, []);
      assert item.after + [] == item.after;
    }
    TreeRead(item.tree, item.after);
    assert ItemWritten(item) == item.before + core;
    BlankSkipped(item.before, core);
    ValueSkipsSpace(item.before + core, core);
    BlankSkipped(item.after, []);
    assert item.after + [] == item.after;
  }

  // ---- What is printed ----

  /** A way to write the unit that leaves no control character bare. */
  predicate Writes(u: UnitText, c: unit) {
    WfUnit(u) && u.c == c && (u.Raw? ==> 32 <= c)
  }

  /** The printer writes each unit in the shortest way there is, and in lower case. */
  lemma EscapedShortest(c: unit, u: UnitText)
    ensures exists best :: Writes(best, c) && UnitWritten(best) == Escaped(c)
    ensures Writes(u, c) ==> |Escaped(c)| <= |UnitWritten(u)|
    ensures |Escaped(c)| == 6 ==> forall i :: 2 <= i < 6 ==> !(65 <= Escaped(c)[i] <= 70)
  {
    hide HexSpells;
    if Writes(u, c) {
      NothingShorter(c, u);
    }
    hide Writes, UnitWritten;
    var best := EscapedAs(c);
  }

  lemma NothingShorter(c: unit, u: UnitText)
    requires Writes(u, c)
    ensures |Escaped(c)| <= |UnitWritten(u)|
  {
    hide HexSpells, HexDigit;
  }

  lemma EscapedAs(c: unit) returns (best: UnitText)
    ensures Writes(best, c) && UnitWritten(best) == Escaped(c)
  {
    if |Escaped(c)| == 1 {
      best := Raw(c);
    } else if |Escaped(c)| == 2 {
      best := Short(Escaped(c)[1], c);
    } else {
      var digits := Escaped(c)[2..];
      HexSpelled(digits[0], 0);
      HexSpelled(digits[1], 0);
      HexSpelled(digits[2], c / 16);
      HexSpelled(digits[3], c % 16);
      best := Hex(digits, [0, 0, c / 16, c % 16], c);
    }
  }

  /** A whole number is printed in digits that say it, without leading zeros. */
  lemma {:induction false} NatTextCanonical(n: nat)
    ensures AllDigits(NatText(n)) && DigitsValue(NatText(n)) == n
    ensures NatText(n)[0] == 48 <==> n == 0
    ensures n == 0 ==> |NatText(n)| == 1
    decreases n
  {
    if n >= 10 {
      NatTextCanonical(n / 10);
      NatTextDigits(n, []);
    }
  }

  /** Whole numbers below 2^53 either way are printed as such, and every other number as the runtime does. */
  lemma PrintedNumbers(n: int, x: real, other: real -> Text)
    ensures Print(Number(n as real), other)
            == if -9007199254740992 < n < 9007199254740992 then IntText(n) else other(n as real)
    ensures x != x.Floor as real ==> Print(Number(x), other) == other(x)
  {
    assert (n as real).Floor == n;
  }

  /** Arrays and objects are printed in brackets and braces, with commas and colons and no white space. */
  lemma PrintedCompactly(a: Json, b: Json, m: Member, k: Member, other: real -> Text)
    ensures Print(Array([a, b]), other) == [91] + (Print(a, other) + [44] + Print(b, other)) + [93]
    ensures Print(Object([m, k]), other)
            == [123] + (Quoted(m.key) + [58] + Print(m.value, other) + [44] + Quoted(k.key) + [58] + Print(k.value, other)) + [125]
  {
    hide PrintItems, PrintMembers, Quoted;
    ItemsOf(a, b, other);
    MembersOf(m, k, other);
    var items, members := [a, b], [m, k];
    assert Print(Array(items), other) == [91] + PrintItems(items, other) + [93];
    assert Print(Object(members), other) == [123] + PrintMembers(members, other) + [125];
    hide Print;
  }

  lemma ItemsOf(a: Json, b: Json, other: real -> Text)
    ensures PrintItems([a, b], other) == Print(a, other) + [44] + Print(b, other)
  {
    hide Print;
    assert [a, b][1..] == [b];
    assert PrintItems([b], other) == Print(b, other);
  }

  lemma MembersOf(a: Member, b: Member, other: real -> Text)
    ensures PrintMembers([a, b], other)
            == Quoted(a.key) + [58] + Print(a.value, other) + [44] + Quoted(b.key) + [58] + Print(b.value, other)
  {
    hide Print, Quoted;
    assert [a, b][1..] == [b];
    assert PrintMembers([b], other) == Quoted(b.key) + [58] + Print(b.value, other);
  }
}
