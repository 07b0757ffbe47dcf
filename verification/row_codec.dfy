/**
 The binary row codec of src/storage/row_codec.cpp.

 A row is encoded in whatever order its unordered column map is enumerated, so the
 encoder takes the enumeration and the properties hold for every one of them.
 Floating-point payloads are opaque bit patterns: the source copies their bytes.
 */
module RowCodec {
  import opened Wrappers
  import opened Bytes

  type int32 = x: int | -0x8000_0000 <= x < 0x8000_0000
  type int64 = x: int | -0x8000_0000_0000_0000 <= x < 0x8000_0000_0000_0000
  type uint32 = x: int | 0 <= x < U32_SIZE
  type uint64 = x: int | 0 <= x < U64_SIZE

  datatype Value =
    | Null
    | Int32(i: int32)
    | Int64(l: int64)
    | Float(floatBits: uint32)
    | Double(doubleBits: uint64)
    | String(s: Blob)
    | Binary(b: Blob)
    | Bool(flag: bool)
    | Timestamp(nanos: int64)

  type Columns = map<Blob, Value>

  /** A row as the codec sees it: version and timestamp are not encoded. */
  datatype Row = Row(key: Blob, columns: Columns)

  const TAG_NULL: byte := 0
  const TAG_INT32: byte := 1
  const TAG_INT64: byte := 2
  const TAG_FLOAT: byte := 3
  const TAG_DOUBLE: byte := 4
  const TAG_STRING: byte := 5
  const TAG_BYTES: byte := 6
  const TAG_BOOL: byte := 7
  const TAG_TIMESTAMP: byte := 8

  // ---- Two's complement ----

  function Unsigned(x: int, size: nat): int {
    if x < 0 then x + size else x
  }

  function Signed(u: nat, size: nat): int {
    if 2 * u >= size then u - size else u
  }

  // ---- The format ----

  function Tag(v: Value): byte {
    match v
    case Null => TAG_NULL
    case Int32(_) => TAG_INT32
    case Int64(_) => TAG_INT64
    case Float(_) => TAG_FLOAT
    case Double(_) => TAG_DOUBLE
    case String(_) => TAG_STRING
    case Binary(_) => TAG_BYTES
    case Bool(_) => TAG_BOOL
    case Timestamp(_) => TAG_TIMESTAMP
  }

  function Payload(v: Value): Blob {
    match v
    case Null => []
    case Int32(i) => PutU32(Unsigned(i, U32_SIZE))
    case Int64(l) => PutU64(Unsigned(l, U64_SIZE))
    case Float(bits) => PutU32(bits)
    case Double(bits) => PutU64(bits)
    case String(s) => PutBlob(s)
    case Binary(b) => PutBlob(b)
    case Bool(flag) => [if flag then 1 else 0]
    case Timestamp(nanos) => PutU64(Unsigned(nanos, U64_SIZE))
  }

  function ValueBytes(v: Value): Blob {
    [Tag(v)] + Payload(v)
  }

  function GetInt32(s: Blob): Option<(int32, Blob)> {
    var (u, rest) :- GetU32(s);
    Some((Signed(u, U32_SIZE), rest))
  }

  function GetInt64(s: Blob): Option<(int64, Blob)> {
    var (u, rest) :- GetU64(s);
    Some((Signed(u, U64_SIZE), rest))
  }

  function GetPayload(tag: byte, rest: Blob): Option<(Value, Blob)> {
    if tag == TAG_NULL then Some((Null, rest))
    else if tag == TAG_INT32 then
      var (i, rest') :- GetInt32(rest); Some((Int32(i), rest'))
    else if tag == TAG_INT64 then
      var (l, rest') :- GetInt64(rest); Some((Int64(l), rest'))
    else if tag == TAG_FLOAT then
      var (bits, rest') :- GetU32(rest); Some((Float(bits), rest'))
    else if tag == TAG_DOUBLE then
      var (bits, rest') :- GetU64(rest); Some((Double(bits), rest'))
    else if tag == TAG_STRING then
      var (b, rest') :- GetBlob(rest); Some((String(b), rest'))
    else if tag == TAG_BYTES then
      var (b, rest') :- GetBlob(rest); Some((Binary(b), rest'))
    else if tag == TAG_BOOL then
      var (b, rest') :- GetU8(rest); Some((Bool(b != 0), rest'))
    else if tag == TAG_TIMESTAMP then
      var (nanos, rest') :- GetInt64(rest); Some((Timestamp(nanos), rest'))
    else None
  }

  function GetValue(s: Blob): Option<(Value, Blob)> {
    var (tag, rest) :- GetU8(s);
    GetPayload(tag, rest)
  }

  type Items = seq<(Blob, Value)>

  function ColumnBytes(items: Items): Blob {
    if items == [] then [] else PutBlob(items[0].0) + ValueBytes(items[0].1) + ColumnBytes(items[1..])
  }

  function RowBytes(key: Blob, items: Items): Blob {
    PutBlob(key) + PutU32(|items|) + ColumnBytes(items)
  }

  function GetColumn(s: Blob): Option<((Blob, Value), Blob)> {
    var (name, rest) :- GetBlob(s);
    var (v, rest') :- GetValue(rest);
    Some(((name, v), rest'))
  }

  /** Reads count columns into columns, a repeated name keeping its last value. */
  function GetColumns(s: Blob, count: nat, columns: Columns): Option<(Columns, Blob)>
    decreases count
  {
    if count == 0 then Some((columns, s))
    else
      var (column, rest) :- GetColumn(s);
      GetColumns(rest, count - 1, columns[column.0 := column.1])
  }

  function GetRow(s: Blob): Option<(Row, Blob)> {
    var (key, rest) :- GetBlob(s);
    var (count, rest') :- GetU32(rest);
    var (columns, rest'') :- GetColumns(rest', count, map[]);
    Some((Row(key, columns), rest''))
  }

  /** DecodeRow: bytes after the last column are ignored. */
  function RowOf(data: Blob): Option<Row> {
    var (row, _) :- GetRow(data);
    Some(row)
  }

  // ---- Enumerations of a column map ----

  /** items lists every column of the map exactly once. */
  ghost predicate Enumerates(items: Items, columns: Columns) {
    && |items| == |columns|
    && (forall i :: 0 <= i < |items| ==> items[i].0 in columns && columns[items[i].0] == items[i].1)
    && (forall i, j :: 0 <= i < j < |items| ==> items[i].0 != items[j].0)
  }

  function Store(columns: Columns, items: Items): Columns
    decreases |items|
  {
    if items == [] then columns
    else Store(columns[items[0].0 := items[0].1], items[1..])
  }

  predicate ValueFits(v: Value) {
    (v.String? ==> |v.s| < U32_SIZE) && (v.Binary? ==> |v.b| < U32_SIZE)
  }

  predicate ColumnsFit(columns: Columns) {
    forall name :: name in columns ==> |name| < U32_SIZE && ValueFits(columns[name])
  }

  /** Every length the format stores in 32 bits does fit in 32 bits. */
  predicate RowFits(row: Row) {
    && |row.key| < U32_SIZE
    && |row.columns| < U32_SIZE
    && ColumnsFit(row.columns)
  }

  lemma {:induction false} StoreAt(columns: Columns, items: Items, k: nat)
    requires forall i, j :: 0 <= i < j < |items| ==> items[i].0 != items[j].0
    requires k < |items|
    ensures items[k].0 in Store(columns, items) && Store(columns, items)[items[k].0] == items[k].1
    decreases |items|
  {
    if k == 0 {
      StoreOutside(columns[items[0].0 := items[0].1], items[1..], items[0].0);
    } else {
      StoreAt(columns[items[0].0 := items[0].1], items[1..], k - 1);
    }
  }

  lemma {:induction false} StoreOutside(columns: Columns, items: Items, name: Blob)
    requires forall i :: 0 <= i < |items| ==> items[i].0 != name
    ensures name in Store(columns, items) <==> name in columns
    ensures name in columns ==> Store(columns, items)[name] == columns[name]
    decreases |items|
  {
    if items != [] {
      StoreOutside(columns[items[0].0 := items[0].1], items[1..], name);
    }
  }

  lemma {:induction false} ItemNames(items: Items)
    requires forall i, j :: 0 <= i < j < |items| ==> items[i].0 != items[j].0
    ensures |set i | 0 <= i < |items| :: items[i].0| == |items|
  {
    var names := set i | 0 <= i < |items| :: items[i].0;
    if items == [] {
      assert names == {};
    } else {
      ItemNames(items[1..]);
      var others := set i | 0 <= i < |items[1..]| :: items[1..][i].0;
      assert names == {items[0].0} + others by {
        forall n | n in names ensures n in {items[0].0} + others {
          var i :| 0 <= i < |items| && items[i].0 == n;
          assert i > 0 ==> items[1..][i - 1].0 == n;
        }
        forall n | n in others ensures n in names {
          var i :| 0 <= i < |items[1..]| && items[1..][i].0 == n;
          assert items[i + 1].0 == n;
        }
      }
    }
  }

  lemma SubsetOfEqualSize(a: set<Blob>, b: set<Blob>)
    requires a <= b && |a| == |b|
    ensures a == b
  {
    assert |b - a| == |b| - |a|;
  }

  /** An enumeration stored into an empty map gives the map back. */
  lemma StoreEnumeration(items: Items, columns: Columns)
    requires Enumerates(items, columns)
    ensures Store(map[], items) == columns
  {
    var names := set i | 0 <= i < |items| :: items[i].0;
    ItemNames(items);
    SubsetOfEqualSize(names, columns.Keys);
    var stored := Store(map[], items);
    forall name | name in columns || name in stored
      ensures name in columns && name in stored && stored[name] == columns[name]
    {
      if name in names {
        var k :| 0 <= k < |items| && items[k].0 == name;
        StoreAt(map[], items, k);
      } else {
        StoreOutside(map[], items, name);
      }
    }
  }

  // ---- Round trip ----

  lemma Int32RoundTrip(i: int32, rest: Blob)
    ensures GetInt32(PutU32(Unsigned(i, U32_SIZE)) + rest) == Some((i, rest))
  {
    GetU32Put(Unsigned(i, U32_SIZE), rest);
  }

  lemma Int64RoundTrip(l: int64, rest: Blob)
    ensures GetInt64(PutU64(Unsigned(l, U64_SIZE)) + rest) == Some((l, rest))
  {
    GetU64Put(Unsigned(l, U64_SIZE), rest);
  }

  lemma PayloadRoundTrip(v: Value, rest: Blob)
    requires ValueFits(v)
    ensures GetPayload(Tag(v), Payload(v) + rest) == Some((v, rest))
  {
    hide PutU32, PutU64, GetU32, GetU64, GetBlob, PutBlob;
    match v
    case Null => assert Payload(v) + rest == rest;
    case Int32(i) => Int32RoundTrip(i, rest);
    case Int64(l) => Int64RoundTrip(l, rest);
    case Float(bits) => GetU32Put(bits, rest);
    case Double(bits) => GetU64Put(bits, rest);
    case String(b) => GetBlobPut(b, rest);
    case Binary(b) => GetBlobPut(b, rest);
    case Bool(flag) =>
    case Timestamp(nanos) => Int64RoundTrip(nanos, rest);
  }

  lemma ValueRoundTrip(v: Value, rest: Blob)
    requires ValueFits(v)
    ensures GetValue(ValueBytes(v) + rest) == Some((v, rest))
  {
    hide Payload, GetPayload;
    PayloadRoundTrip(v, rest);
    assert (ValueBytes(v) + rest)[1..] == Payload(v) + rest;
  }

  lemma ColumnRoundTrip(name: Blob, v: Value, rest: Blob)
    requires |name| < U32_SIZE && ValueFits(v)
    ensures GetColumn(PutBlob(name) + ValueBytes(v) + rest) == Some(((name, v), rest))
  {
    hide PutU32, GetU32, ValueBytes, GetValue;
    assert PutBlob(name) + ValueBytes(v) + rest == PutBlob(name) + (ValueBytes(v) + rest);
    GetBlobPut(name, ValueBytes(v) + rest);
    ValueRoundTrip(v, rest);
  }

  lemma {:induction false} ColumnsRoundTrip(items: Items, columns: Columns, rest: Blob)
    requires forall i :: 0 <= i < |items| ==> |items[i].0| < U32_SIZE && ValueFits(items[i].1)
    ensures GetColumns(ColumnBytes(items) + rest, |items|, columns) == Some((Store(columns, items), rest))
    decreases |items|
  {
    if items == [] {
      assert ColumnBytes(items) + rest == rest;
    } else {
      var (name, v) := items[0];
      var after := ColumnBytes(items[1..]) + rest;
      assert ColumnBytes(items) + rest == PutBlob(name) + ValueBytes(v) + after;
      ColumnRoundTrip(name, v, after);
      ColumnsRoundTrip(items[1..], columns[name := v], rest);
    }
  }

  lemma RowBytesRoundTrip(row: Row, items: Items, rest: Blob)
    requires Enumerates(items, row.columns) && RowFits(row)
    ensures GetRow(RowBytes(row.key, items) + rest) == Some((row, rest))
  {
    hide PutU32, GetU32;
    var after := ColumnBytes(items) + rest;
    assert RowBytes(row.key, items) + rest == PutBlob(row.key) + (PutU32(|items|) + after);
    GetBlobPut(row.key, PutU32(|items|) + after);
    GetU32Put(|items|, after);
    ColumnsRoundTrip(items, map[], rest);
    StoreEnumeration(items, row.columns);
  }

  // ---- What a decoded row looks like ----

  lemma GetPayloadFits(tag: byte, rest: Blob)
    ensures GetPayload(tag, rest).Some? ==> ValueFits(GetPayload(tag, rest).value.0)
  {
    GetBlobBound(rest);
  }

  lemma GetColumnFits(s: Blob)
    requires GetColumn(s).Some?
    ensures |GetColumn(s).value.0.0| < U32_SIZE && ValueFits(GetColumn(s).value.0.1)
  {
    GetBlobBound(s);
    var (_, rest) := GetBlob(s).value;
    GetPayloadFits(rest[0], rest[1..]);
  }

  lemma AddedColumnFits(columns: Columns, name: Blob, v: Value)
    requires ColumnsFit(columns) && |name| < U32_SIZE && ValueFits(v)
    ensures ColumnsFit(columns[name := v]) && |columns[name := v]| <= |columns| + 1
  {
    assert columns[name := v].Keys == columns.Keys + {name};
  }

  lemma {:induction false} GetColumnsFits(s: Blob, count: nat, columns: Columns)
    requires ColumnsFit(columns)
    requires GetColumns(s, count, columns).Some?
    ensures ColumnsFit(GetColumns(s, count, columns).value.0)
    ensures |GetColumns(s, count, columns).value.0| <= |columns| + count
    decreases count
  {
    hide GetColumn, ColumnsFit;
    if count > 0 {
      GetColumnFits(s);
      var (column, rest) := GetColumn(s).value;
      AddedColumnFits(columns, column.0, column.1);
      GetColumnsFits(rest, count - 1, columns[column.0 := column.1]);
    }
  }

  lemma DecodedRowFits(data: Blob)
    ensures RowOf(data).Some? ==> RowFits(RowOf(data).value)
  {
    GetBlobBound(data);
    if GetBlob(data).Some? {
      var (key, rest) := GetBlob(data).value;
      if GetU32(rest).Some? {
        var (count, rest') := GetU32(rest).value;
        if GetColumns(rest', count, map[]).Some? {
          GetColumnsFits(rest', count, map[]);
        }
      }
    }
  }

  /**
   Decoding an encoding gives back the same key and columns, with exact value types,
   whichever way the columns were enumerated, exactly when every length fits its field.
   */
  lemma RowRoundTrip(row: Row, items: Items)
    requires Enumerates(items, row.columns)
    ensures RowOf(RowBytes(row.key, items)) == Some(row) <==> RowFits(row)
  {
    if RowFits(row) {
      RowBytesRoundTrip(row, items, []);
      assert RowBytes(row.key, items) + [] == RowBytes(row.key, items);
    } else {
      DecodedRowFits(RowBytes(row.key, items));
    }
  }

  lemma {:induction false} ColumnSizes(items: Items)
    ensures |ColumnBytes(items)| >= |items|
    ensures forall i :: 0 <= i < |items| ==>
              |items[i].0| < |ColumnBytes(items)| && |Payload(items[i].1)| < |ColumnBytes(items)|
    decreases |items|
  {
    hide Payload, PutU32;
    if items != [] {
      ColumnSizes(items[1..]);
      forall i | 0 <= i < |items|
        ensures |items[i].0| < |ColumnBytes(items)| && |Payload(items[i].1)| < |ColumnBytes(items)|
      {
        if i > 0 {
          assert items[i] == items[1..][i - 1];
        }
      }
    }
  }

  /** A row whose encoding is under 4 GiB has no length that overflows its field. */
  lemma ShortRowFits(row: Row, items: Items)
    requires Enumerates(items, row.columns)
    requires |RowBytes(row.key, items)| < U32_SIZE
    ensures RowFits(row)
  {
    hide PutU32, ColumnBytes;
    ColumnSizes(items);
    StoreEnumeration(items, row.columns);
    forall name | name in row.columns ensures |name| < U32_SIZE && ValueFits(row.columns[name]) {
      if forall i :: 0 <= i < |items| ==> items[i].0 != name {
        StoreOutside(map[], items, name);
        assert false;
      }
      var i :| 0 <= i < |items| && items[i].0 == name;
      assert row.columns[name] == items[i].1;
    }
  }

  // ---- Truncation ----

  lemma GetPayloadExtend(tag: byte, rest: Blob, more: Blob)
    requires GetPayload(tag, rest).Some?
    ensures GetPayload(tag, rest + more)
            == Some((GetPayload(tag, rest).value.0, GetPayload(tag, rest).value.1 + more))
  {
    if tag == TAG_INT32 || tag == TAG_FLOAT {
      GetU32Extend(rest, more);
    } else if tag == TAG_INT64 || tag == TAG_DOUBLE || tag == TAG_TIMESTAMP {
      GetU64Extend(rest, more);
    } else if tag == TAG_STRING || tag == TAG_BYTES {
      GetBlobExtend(rest, more);
    } else if tag == TAG_BOOL {
      GetU8Extend(rest, more);
    }
  }

  lemma GetValueExtend(s: Blob, more: Blob)
    requires GetValue(s).Some?
    ensures GetValue(s + more) == Some((GetValue(s).value.0, GetValue(s).value.1 + more))
  {
    GetU8Extend(s, more);
    GetPayloadExtend(s[0], s[1..], more);
  }

  lemma GetColumnExtend(s: Blob, more: Blob)
    requires GetColumn(s).Some?
    ensures GetColumn(s + more) == Some((GetColumn(s).value.0, GetColumn(s).value.1 + more))
  {
    GetBlobExtend(s, more);
    var (_, rest) := GetBlob(s).value;
    GetValueExtend(rest, more);
  }

  lemma {:induction false} GetColumnsExtend(s: Blob, count: nat, columns: Columns, more: Blob)
    requires GetColumns(s, count, columns).Some?
    ensures GetColumns(s + more, count, columns)
            == Some((GetColumns(s, count, columns).value.0, GetColumns(s, count, columns).value.1 + more))
    decreases count
  {
    hide GetColumn;
    if count > 0 {
      GetColumnExtend(s, more);
      var (column, rest) := GetColumn(s).value;
      GetColumnsExtend(rest, count - 1, columns[column.0 := column.1], more);
    }
  }

  lemma GetRowExtend(s: Blob, more: Blob)
    requires GetRow(s).Some?
    ensures GetRow(s + more) == Some((GetRow(s).value.0, GetRow(s).value.1 + more))
  {
    GetBlobExtend(s, more);
    var (key, rest) := GetBlob(s).value;
    GetU32Extend(rest, more);
    var (count, rest') := GetU32(rest).value;
    GetColumnsExtend(rest', count, map[], more);
  }

  lemma PrefixOfWholeRejected(whole: Blob, row: Row, cut: nat)
    requires GetRow(whole) == Some((row, []))
    requires cut < |whole|
    ensures RowOf(whole[..cut]).None?
  {
    assert whole[..cut] + whole[cut..] == whole;
    if RowOf(whole[..cut]).Some? {
      GetRowExtend(whole[..cut], whole[cut..]);
      assert false;
    }
  }

  /** Every strict prefix of an encoding is rejected as truncated. */
  lemma TruncatedRowRejected(row: Row, items: Items, cut: nat)
    requires Enumerates(items, row.columns) && RowFits(row)
    requires cut < |RowBytes(row.key, items)|
    ensures RowOf(RowBytes(row.key, items)[..cut]).None?
  {
    RowBytesRoundTrip(row, items, []);
    assert RowBytes(row.key, items) + [] == RowBytes(row.key, items);
    PrefixOfWholeRejected(RowBytes(row.key, items), row, cut);
  }

  // ---- The code ----

  /** The bounded reader: a position that moves through a buffer. */
  class Reader {
    const data: Blob
    var pos: nat

    ghost predicate Valid()
      reads this
    {
      pos <= |data|
    }

    ghost function Left(): Blob
      reads this
      requires Valid()
    {
      data[pos..]
    }

    constructor (data: Blob)
      ensures Valid() && Left() == data
    {
      this.data := data;
      pos := 0;
    }

    method U8() returns (v: Option<byte>)
      requires Valid()
      modifies this
      ensures Valid()
      ensures v.None? <==> old(GetU8(Left())).None?
      ensures v.Some? ==> old(GetU8(Left())) == Some((v.value, Left()))
    {
      if |data| - pos < 1 {
        return None;
      }
      v := Some(data[pos]);
      pos := pos + 1;
    }

    method U32() returns (v: Option<nat>)
      requires Valid()
      modifies this
      ensures Valid()
      ensures v.None? <==> old(GetU32(Left())).None?
      ensures v.Some? ==> old(GetU32(Left())) == Some((v.value, Left())) && v.value < U32_SIZE
    {
      if |data| - pos < 4 {
        return None;
      }
      v := Some(Word(data[pos], data[pos + 1], data[pos + 2], data[pos + 3]));
      pos := pos + 4;
    }

    method U64() returns (v: Option<nat>)
      requires Valid()
      modifies this
      ensures Valid()
      ensures v.None? <==> old(GetU64(Left())).None?
      ensures v.Some? ==> old(GetU64(Left())) == Some((v.value, Left())) && v.value < U64_SIZE
    {
      if |data| - pos < 8 {
        return None;
      }
      v := Some(Word(data[pos], data[pos + 1], data[pos + 2], data[pos + 3])
                + U32_SIZE * Word(data[pos + 4], data[pos + 5], data[pos + 6], data[pos + 7]));
      pos := pos + 8;
    }

    method Str() returns (v: Option<Blob>)
      requires Valid()
      modifies this
      ensures Valid()
      ensures v.None? <==> old(GetBlob(Left())).None?
      ensures v.Some? ==> old(GetBlob(Left())) == Some((v.value, Left()))
    {
      var n := U32();
      if n.None? || |data| - pos < n.value {
        return None;
      }
      v := Some(data[pos..pos + n.value]);
      assert data[pos..][..n.value] == v.value && data[pos..][n.value..] == data[pos + n.value..];
      pos := pos + n.value;
    }
  }

  method EncodeValue(v: Value) returns (out: Blob)
    ensures out == ValueBytes(v)
  {
    match v
    case Null => out := [TAG_NULL];
    case Int32(i) => out := [TAG_INT32] + PutU32(Unsigned(i, U32_SIZE));
    case Int64(l) => out := [TAG_INT64] + PutU64(Unsigned(l, U64_SIZE));
    case Float(bits) => out := [TAG_FLOAT] + PutU32(bits);
    case Double(bits) => out := [TAG_DOUBLE] + PutU64(bits);
    case String(s) => out := [TAG_STRING] + PutBlob(s);
    case Binary(b) => out := [TAG_BYTES] + PutBlob(b);
    case Bool(flag) => out := [TAG_BOOL, if flag then 1 else 0];
    case Timestamp(nanos) => out := [TAG_TIMESTAMP] + PutU64(Unsigned(nanos, U64_SIZE));
  }

  /** Appends key, column count and columns; `enumeration` is the order the map yields them in. */
  method EncodeRow(row: Row, enumeration: Items) returns (out: Blob)
    requires Enumerates(enumeration, row.columns)
    ensures out == RowBytes(row.key, enumeration)
  {
    hide PutU32, ValueBytes;
    out := PutBlob(row.key) + PutU32(|row.columns|);
    var i := 0;
    while i < |enumeration|
      invariant 0 <= i <= |enumeration|
      invariant out + ColumnBytes(enumeration[i..]) == RowBytes(row.key, enumeration)
    {
      var (name, value) := enumeration[i];
      var encoded := EncodeValue(value);
      assert enumeration[i..][1..] == enumeration[i + 1..];
      out := out + PutBlob(name) + encoded;
      i := i + 1;
    }
  }

  method DecodeValue(r: Reader) returns (v: Option<Value>)
    requires r.Valid()
    modifies r
    ensures r.Valid()
    ensures v.None? <==> old(GetValue(r.Left())).None?
    ensures v.Some? ==> old(GetValue(r.Left())) == Some((v.value, r.Left()))
  {
    var tag := r.U8();
    if tag.None? {
      return None;
    }
    if tag.value == TAG_NULL {
      return Some(Null);
    } else if tag.value == TAG_INT32 {
      var u := r.U32();
      return if u.None? then None else Some(Int32(Signed(u.value, U32_SIZE)));
    } else if tag.value == TAG_INT64 {
      var u := r.U64();
      return if u.None? then None else Some(Int64(Signed(u.value, U64_SIZE)));
    } else if tag.value == TAG_FLOAT {
      var u := r.U32();
      return if u.None? then None else Some(Float(u.value));
    } else if tag.value == TAG_DOUBLE {
      var u := r.U64();
      return if u.None? then None else Some(Double(u.value));
    } else if tag.value == TAG_STRING {
      var b := r.Str();
      return if b.None? then None else Some(String(b.value));
    } else if tag.value == TAG_BYTES {
      var b := r.Str();
      return if b.None? then None else Some(Binary(b.value));
    } else if tag.value == TAG_BOOL {
      var b := r.U8();
      return if b.None? then None else Some(Bool(b.value != 0));
    } else if tag.value == TAG_TIMESTAMP {
      var u := r.U64();
      return if u.None? then None else Some(Timestamp(Signed(u.value, U64_SIZE)));
    }
    return None;
  }

  method DecodeColumn(r: Reader) returns (column: Option<(Blob, Value)>)
    requires r.Valid()
    modifies r
    ensures r.Valid()
    ensures column.None? <==> old(GetColumn(r.Left())).None?
    ensures column.Some? ==> old(GetColumn(r.Left())) == Some((column.value, r.Left()))
  {
    var name := r.Str();
    if name.None? {
      return None;
    }
    var value := DecodeValue(r);
    return if value.None? then None else Some((name.value, value.value));
  }

  method DecodeColumns(r: Reader, count: nat) returns (columns: Option<Columns>)
    requires r.Valid()
    modifies r
    ensures r.Valid()
    ensures columns.None? <==> old(GetColumns(r.Left(), count, map[])).None?
    ensures columns.Some? ==> old(GetColumns(r.Left(), count, map[])) == Some((columns.value, r.Left()))
  {
    hide GetColumn;
    var read: Columns := map[];
    var i := 0;
    while i < count
      invariant 0 <= i <= count && r.Valid()
      invariant old(GetColumns(r.Left(), count, map[])) == GetColumns(r.Left(), count - i, read)
    {
      var column := DecodeColumn(r);
      if column.None? {
        return None;
      }
      read := read[column.value.0 := column.value.1];
      i := i + 1;
    }
    return Some(read);
  }

  method DecodeRow(data: Blob) returns (row: Option<Row>)
    ensures row == RowOf(data)
  {
    var r := new Reader(data);
    var key := r.Str();
    if key.None? {
      return None;
    }
    var count := r.U32();
    if count.None? {
      return None;
    }
    var columns := DecodeColumns(r, count.value);
    return if columns.None? then None else Some(Row(key.value, columns.value));
  }

  // ---- The layout, by example ----

  /** One value of each type behind its tag. */
  lemma TaggedNumbers()
    ensures ValueBytes(Null) == [0]
    ensures ValueBytes(Int32(-2)) == [1, 0xFE, 0xFF, 0xFF, 0xFF]
    ensures ValueBytes(Float(0x3F80_0000)) == [3, 0, 0, 0x80, 0x3F]
    ensures ValueBytes(Bool(true)) == [7, 1] && ValueBytes(Bool(false)) == [7, 0]
  {
  }

  lemma TaggedWideNumbers(l: int64, bits: uint64)
    ensures ValueBytes(Int64(l)) == [2] + PutU64(if l < 0 then l + 0x1_0000_0000_0000_0000 else l)
    ensures ValueBytes(Timestamp(l)) == [8] + PutU64(if l < 0 then l + 0x1_0000_0000_0000_0000 else l)
    ensures ValueBytes(Double(bits)) == [4] + PutU64(bits)
  {
    hide PutU64;
  }

  lemma TaggedBlobs(b: Blob)
    ensures ValueBytes(String(b)) == [5] + PutBlob(b) && ValueBytes(Binary(b)) == [6] + PutBlob(b)
  {
  }

  /** A row of key "k" with one column "n". */
  lemma KnownRow()
    ensures RowBytes([0x6B], [([0x6E], Bool(true))]) == [1, 0, 0, 0, 0x6B, 1, 0, 0, 0, 1, 0, 0, 0, 0x6E, 7, 1]
  {
    var item: (Blob, Value) := ([0x6E], Bool(true));
    assert [item][1..] == [];
  }
}
