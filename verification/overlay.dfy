/**
 The reducer's view of the tables: staged writes over committed rows, and the commit of what was
 staged (src/wasm/host_functions.cpp).
 */
module Overlays {
  import opened Wrappers
  import opened Bytes
  import opened Ordering
  import opened RowCodec
  import opened MemTables
  import Base64

  const ERR_PERMISSION: int := -2
  const ERR_INVALID_ARG: int := -3
  const DEFAULT_SCAN_LIMIT: int := 1000

  // ---- JSON objects and rows ----

  /** A JSON number without fraction: the parser keeps values up to 2^64 - 1. */
  type JsonInteger = n: int | -0x8000_0000_0000_0000 <= n < 0x1_0000_0000_0000_0000

  /**
   A member of a guest's JSON object. Tagged is an object with a string member "$bytes", `alone` if it
   has no other member; Nested is any other object or array, as its text.
   */
  datatype Field =
    | NullField
    | BoolField(b: bool)
    | IntegerField(n: JsonInteger)
    | FloatField(bits: uint64)
    | StringField(s: Blob)
    | TaggedField(encoded: Blob, alone: bool)
    | NestedField(text: Blob)

  type Fields = map<Blob, Field>

  /** Conversion of an unsigned 64-bit integer to a signed one. */
  function ToInt64(n: JsonInteger): int64 {
    if n < 0x8000_0000_0000_0000 then n else n - 0x1_0000_0000_0000_0000
  }

  function ValueOf(f: Field): Value {
    match f
    case NullField => Null
    case BoolField(b) => Bool(b)
    case IntegerField(n) => Int64(ToInt64(n))
    case FloatField(bits) => Double(bits)
    case StringField(s) => String(s)
    case TaggedField(encoded, _) =>
      (match Base64.Decode(encoded) case Some(bytes) => Binary(bytes) case None => Null)
    case NestedField(text) => String(text)
  }

  /** `widen` is the conversion of a float to a double. */
  function FieldOf(v: Value, widen: uint32 -> uint64): Field {
    match v
    case Null => NullField
    case Int32(i) => IntegerField(i)
    case Int64(l) => IntegerField(l)
    case Float(bits) => FloatField(widen(bits))
    case Double(bits) => FloatField(bits)
    case String(s) => StringField(s)
    case Binary(b) => TaggedField(Base64.Encode(b), true)
    case Bool(flag) => BoolField(flag)
    case Timestamp(nanos) => IntegerField(Milliseconds(nanos))
  }

  /** Division that truncates toward zero. */
  function Milliseconds(nanos: int64): int64 {
    if nanos >= 0 then nanos / 1_000_000 else -((-(nanos as int)) / 1_000_000)
  }

  /** JsonToRow. */
  function ColumnsOf(fields: Fields): Columns {
    map name | name in fields :: ValueOf(fields[name])
  }

  /** RowToJson. */
  function ObjectOf(columns: Columns, widen: uint32 -> uint64): Fields {
    map name | name in columns :: FieldOf(columns[name], widen)
  }

  /** Kept by a trip through a row: not nested, not beyond a signed integer, and bytes in canonical Base64. */
  predicate Flat(f: Field) {
    match f
    case IntegerField(n) => n < 0x8000_0000_0000_0000
    case TaggedField(encoded, alone) => alone && Base64.Canonical(encoded)
    case NestedField(_) => false
    case _ => true
  }

  predicate AllFlat(fields: Fields) {
    forall name :: name in fields ==> Flat(fields[name])
  }

  /** A field survives storage exactly when it is flat. */
  lemma FlatRoundTrip(f: Field, widen: uint32 -> uint64)
    ensures FieldOf(ValueOf(f), widen) == f <==> Flat(f)
  {
    if f.TaggedField? {
      Base64.CanonicalIff(f.encoded);
    }
  }

  /**
   What comes back of any field that was stored: flat ones as they were, an integer as the signed one it is
   congruent to, anything nested as its text, and tagged text as the bytes it decodes to, or null.
   */
  lemma StoredField(f: Field, widen: uint32 -> uint64)
    ensures var back := FieldOf(ValueOf(f), widen);
            match f
            case IntegerField(n) =>
              back.IntegerField? && (back.n - n) % 0x1_0000_0000_0000_0000 == 0
              && -0x8000_0000_0000_0000 <= back.n < 0x8000_0000_0000_0000
            case NestedField(text) => back == StringField(text)
            case TaggedField(encoded, _) =>
              if Base64.Decode(encoded).None? then back == NullField
              else back.TaggedField? && back.alone && Base64.Decode(back.encoded) == Base64.Decode(encoded)
            case _ => back == f
  {
    if f.TaggedField? && Base64.Decode(f.encoded).Some? {
      Base64.RoundTrip(Base64.Decode(f.encoded).value);
    }
  }

  /** How the values no JSON field stores are shown: 32-bit integers as themselves, times as truncated milliseconds. */
  lemma ShownValue(v: Value, widen: uint32 -> uint64)
    ensures v.Int32? ==> FieldOf(v, widen) == IntegerField(v.i)
    ensures v.Float? ==> FieldOf(v, widen) == FloatField(widen(v.floatBits))
    ensures v.Timestamp? ==> FieldOf(v, widen).IntegerField?
                             && var ms := FieldOf(v, widen).n;
                                if v.nanos >= 0 then ms * 1_000_000 <= v.nanos < (ms + 1) * 1_000_000
                                else (ms - 1) * 1_000_000 < v.nanos <= ms * 1_000_000
  {
  }

  lemma ObjectRoundTrip(fields: Fields, widen: uint32 -> uint64)
    ensures ObjectOf(ColumnsOf(fields), widen) == fields <==> AllFlat(fields)
  {
    hide Flat, FieldOf, ValueOf;
    forall name | name in fields
      ensures ObjectOf(ColumnsOf(fields), widen)[name] == fields[name] <==> Flat(fields[name])
    {
      FlatRoundTrip(fields[name], widen);
    }
    if AllFlat(fields) {
      assert ObjectOf(ColumnsOf(fields), widen) == fields;
    }
  }

  // ---- What a reducer sees ----

  /** Staged writes of one table: an object, or a tombstone. */
  type Staged = map<Blob, Option<Fields>>

  /** The objects visible to the call: staged ones override committed rows, tombstones hide them. */
  function Visible(rows: map<Blob, Columns>, staged: Staged, widen: uint32 -> uint64): map<Blob, Fields> {
    map k | k in rows.Keys + staged.Keys && (k in staged ==> staged[k].Some?) ::
      if k in staged then staged[k].value else ObjectOf(rows[k], widen)
  }

  function VisibleText(
      rows: map<Blob, Columns>, staged: Staged, widen: uint32 -> uint64, dump: Fields -> Text): map<Blob, Text>
  {
    var visible := Visible(rows, staged, widen);
    map k | k in visible :: dump(visible[k])
  }

  function Serializer(widen: uint32 -> uint64, dump: Fields -> Text): StoredRow -> Text {
    (row: StoredRow) => dump(ObjectOf(row.columns, widen))
  }

  /** The first n rows with the prefix, in key order. */
  function FirstRows(rows: map<Blob, Text>, prefix: Blob, n: nat): seq<(Blob, Text)> {
    Pairs(First(Ordered(set k | k in rows && HasPrefix(k, prefix)), n), rows)
  }

  function First(keys: seq<Blob>, n: nat): (r: seq<Blob>)
    ensures forall k :: k in r ==> k in keys
  {
    if |keys| <= n then keys else keys[..n]
  }

  /**
   The result holds, in key order, the n lowest rows with the prefix, or all of them if there are fewer: every
   row left out comes after every row returned.
   */
  ghost predicate LowestRows(result: seq<(Blob, Text)>, rows: map<Blob, Text>, prefix: Blob, n: int) {
    var matching := set k | k in rows && HasPrefix(k, prefix);
    && |result| == (if n <= |matching| then n else |matching|)
    && (forall i :: 0 <= i < |result| ==> result[i].0 in matching && result[i].1 == rows[result[i].0])
    && (forall i, j :: 0 <= i < j < |result| ==> Less(result[i].0, result[j].0))
    && forall i, k :: 0 <= i < |result| && k in matching && !Returned(result, k) ==> Less(result[i].0, k)
  }

  predicate Returned(result: seq<(Blob, Text)>, k: Blob) {
    exists i :: 0 <= i < |result| && result[i].0 == k
  }

  lemma FirstRowsLowest(rows: map<Blob, Text>, prefix: Blob, n: nat)
    ensures LowestRows(FirstRows(rows, prefix, n), rows, prefix, n)
  {
    hide HasPrefix, Ordered, Less;
    var matching := set k | k in rows && HasPrefix(k, prefix);
    var keys := Ordered(matching);
    var result := FirstRows(rows, prefix, n);
    OrderedAscends(matching);
    assert forall i :: 0 <= i < |result| ==> result[i].0 == keys[i] && keys[i] in keys;
    forall j | 0 <= j < |result| ensures Returned(result, keys[j]) {
      assert result[j].0 == keys[j];
    }
    forall i, k | 0 <= i < |result| && k in matching && !Returned(result, k) ensures Less(result[i].0, k) {
      assert k in keys;
      var j :| 0 <= j < |keys| && keys[j] == k;
    }
  }

  function ScanLimit(limit: int): (n: nat)
    ensures n > 0
  {
    if limit <= 0 then DEFAULT_SCAN_LIMIT else limit
  }

  ghost function Committed(table: MemTable?): map<Blob, Columns>
    reads table
  {
    if table == null then map[] else table.Contents()
  }

  /** The rows a scan has collected from a list of visits: those with the prefix. */
  function Collected(visits: seq<(Blob, Text)>, prefix: Blob): map<Blob, Text>
    decreases |visits|
  {
    if visits == [] then map[]
    else
      var last := visits[|visits| - 1];
      var before := Collected(visits[..|visits| - 1], prefix);
      if HasPrefix(last.0, prefix) then before[last.0 := last.1] else before
  }

  /** The range up to the carried bound holds every key with the prefix, so nothing is lost. */
  lemma {:induction false} CollectedAll(keys: seq<Blob>, rows: map<Blob, Text>, prefix: Blob)
    requires Ascending(keys) && forall k :: k in keys ==> k in rows
    ensures Collected(Pairs(keys, rows), prefix) == map k | k in keys && HasPrefix(k, prefix) :: rows[k]
    decreases |keys|
  {
    if keys != [] {
      var before, last := keys[..|keys| - 1], keys[|keys| - 1];
      assert keys == before + [last];
      assert Pairs(keys, rows)[..|keys| - 1] == Pairs(before, rows);
      CollectedAll(before, rows, prefix);
    }
  }

  lemma RangeCollectsPrefix(rows: map<Blob, Text>, prefix: Blob)
    ensures Collected(Pairs(RangeKeys(rows.Keys, prefix, PrefixEnd(prefix)), rows), prefix)
            == WithPrefix(rows, prefix)
  {
    hide Ordered, Collected;
    var keys := RangeKeys(rows.Keys, prefix, PrefixEnd(prefix));
    RangeKeysAscend(rows.Keys, prefix, PrefixEnd(prefix));
    CollectedAll(keys, rows, prefix);
    forall k | k in rows && HasPrefix(k, prefix) ensures k in keys {
      PrefixInRange(k, prefix);
      if PrefixEnd(prefix) != [] {
        LessTotal(k, PrefixEnd(prefix));
      }
    }
  }

  /** A scan callback that never asks to stop. */
  function KeepGoing<T>(): seq<T> -> bool {
    (v: seq<T>) => true
  }

  lemma {:induction false} NeverStopped<T>(visits: seq<T>, n: nat)
    requires n <= |visits|
    ensures UntilStop(visits, KeepGoing(), n) == visits
    decreases |visits| - n
  {
    if n < |visits| {
      NeverStopped(visits, n + 1);
    }
  }

  /** PrefixEnd, as the loop computes it. */
  method PrefixBound(prefix: Blob) returns (end: Blob)
    ensures end == PrefixEnd(prefix)
  {
    end := prefix;
    while end != []
      invariant PrefixEnd(end) == PrefixEnd(prefix)
      decreases |end|
    {
      var last := end[|end| - 1];
      if last < 0xFF {
        end := end[..|end| - 1] + [last + 1];
        return;
      }
      end := end[..|end| - 1];
    }
  }

  datatype StagedEvent = StagedEvent(topic: Blob, key: Blob, payload: Blob)

  class HostCallContext {
    const allowedTables: seq<Blob>
    const readOnly: bool
    var overlay: map<Blob, Staged>
    var events: seq<StagedEvent>

    constructor (allowedTables: seq<Blob>, readOnly: bool)
      ensures overlay == map[] && events == []
      ensures this.allowedTables == allowedTables && this.readOnly == readOnly
    {
      this.allowedTables, this.readOnly, overlay, events := allowedTables, readOnly, map[], [];
    }

    predicate TableAllowed(table: Blob) {
      allowedTables == [] || table in allowedTables
    }

    function StagedIn(table: Blob): Staged
      reads this`overlay
    {
      if table in overlay then overlay[table] else map[]
    }

    /** 1 and the text on a hit, 0 on a miss. */
    method TableRead(tbl: MemTable?, table: Blob, key: Blob, widen: uint32 -> uint64, dump: Fields -> Text)
      returns (status: int, text: Text)
      requires tbl != null ==> tbl.Valid(Serializer(widen, dump))
      modifies if tbl == null then {} else {tbl}
      ensures tbl != null ==> tbl.Valid(Serializer(widen, dump)) && tbl.rows == old(tbl.rows)
      ensures !TableAllowed(table) ==> status == ERR_PERMISSION && text == []
      ensures TableAllowed(table) ==>
                var visible := old(VisibleText(Committed(tbl), StagedIn(table), widen, dump));
                if key in visible then status == 1 && text == visible[key] else status == 0 && text == []
    {
      hide ObjectOf;
      if !TableAllowed(table) {
        return ERR_PERMISSION, [];
      }
      var staged := StagedIn(table);
      if key in staged {
        if staged[key].None? {
          return 0, [];
        }
        return 1, dump(staged[key].value);
      }
      if tbl == null {
        return 0, [];
      }
      var cached := tbl.GetJsonCached(key, Serializer(widen, dump));
      if cached.None? {
        return 0, [];
      }
      return 1, cached.value;
    }

    /** `value` is None when the bytes are not a JSON object. */
    method TableWrite(table: Blob, key: Blob, value: Option<Fields>) returns (status: int)
      modifies this`overlay
      ensures status == if readOnly || !TableAllowed(table) then ERR_PERMISSION
                        else if value.None? then ERR_INVALID_ARG else 0
      ensures overlay == if status == 0 then old(overlay)[table := old(StagedIn(table))[key := value]] else old(overlay)
    {
      if readOnly || !TableAllowed(table) {
        return ERR_PERMISSION;
      }
      if value.None? {
        return ERR_INVALID_ARG;
      }
      overlay := overlay[table := StagedIn(table)[key := value]];
      return 0;
    }

    method TableDelete(table: Blob, key: Blob) returns (status: int)
      modifies this`overlay
      ensures status == if readOnly || !TableAllowed(table) then ERR_PERMISSION else 0
      ensures overlay == if status == 0 then old(overlay)[table := old(StagedIn(table))[key := None]] else old(overlay)
    {
      if readOnly || !TableAllowed(table) {
        return ERR_PERMISSION;
      }
      overlay := overlay[table := StagedIn(table)[key := None]];
      return 0;
    }

    /** The first `limit` visible rows with the prefix, in key order. */
    method TableScan(
        tbl: MemTable?, table: Blob, prefix: Blob, limit: int, widen: uint32 -> uint64, dump: Fields -> Text)
      returns (status: int, result: seq<(Blob, Text)>)
      requires tbl != null ==> tbl.Valid(Serializer(widen, dump))
      modifies if tbl == null then {} else {tbl}
      ensures tbl != null ==> tbl.Valid(Serializer(widen, dump)) && tbl.rows == old(tbl.rows)
      ensures !TableAllowed(table) ==> status == ERR_PERMISSION && result == []
      ensures TableAllowed(table) ==>
                && status == |result|
                && result == FirstRows(old(VisibleText(Committed(tbl), StagedIn(table), widen, dump)), prefix,
                                       ScanLimit(limit))
                && LowestRows(result, old(VisibleText(Committed(tbl), StagedIn(table), widen, dump)), prefix,
                              if limit > 0 then limit else 1000)
    {
      hide LowestRows, ObjectOf, Ordered, FirstRows, PrefixEnd, OverlayOn, VisibleText, Texts, HasPrefix;
      if !TableAllowed(table) {
        return ERR_PERMISSION, [];
      }
      var end := PrefixBound(prefix);
      var rows: map<Blob, Text> := map[];
      if tbl != null {
        rows := CommittedWithPrefix(tbl, prefix, end, widen, dump);
      }
      ghost var committed := old(Committed(tbl));
      assert rows == WithPrefix(Texts(committed, widen, dump), prefix) by {
        if tbl == null { NoTexts(widen, dump); }
      }
      rows := OverlayRows(rows, StagedIn(table), prefix, dump);
      PrefixRows(committed, StagedIn(table), widen, dump, prefix);
      result := TakeRows(rows, prefix, ScanLimit(limit));
      FirstRowsLowest(VisibleText(committed, StagedIn(table), widen, dump), prefix, ScanLimit(limit));
      SameFirstRows(rows, VisibleText(committed, StagedIn(table), widen, dump), prefix, ScanLimit(limit));
      status := |result|;
    }
  }

  function WithPrefix(rows: map<Blob, Text>, prefix: Blob): map<Blob, Text> {
    map k | k in rows && HasPrefix(k, prefix) :: rows[k]
  }

  /** The committed rows with the prefix, collected from the cached scan. */
  method CommittedWithPrefix(
      tbl: MemTable, prefix: Blob, end: Blob, widen: uint32 -> uint64, dump: Fields -> Text)
    returns (rows: map<Blob, Text>)
    requires tbl.Valid(Serializer(widen, dump)) && end == PrefixEnd(prefix)
    modifies tbl`jsonCache
    ensures tbl.Valid(Serializer(widen, dump))
    ensures rows == WithPrefix(Texts(tbl.Contents(), widen, dump), prefix)
  {
    hide RangeKeys, UntilStop, PrefixEnd, HasPrefix, KeepGoing;
    ghost var texts := Rendered(tbl.rows, Serializer(widen, dump));
    assert texts.Keys == tbl.rows.Keys;
    var visits := tbl.ScanJsonCached(prefix, end, Serializer(widen, dump), KeepGoing());
    RangeKeysAscend(texts.Keys, prefix, end);
    NeverStopped(Pairs(RangeKeys(texts.Keys, prefix, end), texts), 0);
    rows := Collect(visits, prefix);
    RangeCollectsPrefix(texts, prefix);
    assert texts == Texts(tbl.Contents(), widen, dump) by { hide ObjectOf; }
  }

  /** The scan callback: keeps the visited rows that have the prefix. */
  method Collect(visits: seq<(Blob, Text)>, prefix: Blob) returns (rows: map<Blob, Text>)
    ensures rows == Collected(visits, prefix)
  {
    hide HasPrefix;
    rows := map[];
    for i := 0 to |visits|
      invariant rows == Collected(visits[..i], prefix)
    {
      assert visits[..i + 1][..i] == visits[..i];
      if HasPrefix(visits[i].0, prefix) {
        rows := rows[visits[i].0 := visits[i].1];
      }
    }
    assert visits[..|visits|] == visits;
  }

  function KeySet(keys: seq<Blob>): set<Blob> {
    set k | k in keys
  }

  /** Applies the staged writes with the prefix to the collected rows. */
  method OverlayRows(rows: map<Blob, Text>, staged: Staged, prefix: Blob, dump: Fields -> Text)
    returns (merged: map<Blob, Text>)
    ensures merged == OverlayOn(rows, staged, staged.Keys, prefix, dump)
  {
    hide HasPrefix, OverlayOn, Ordered;
    merged := rows;
    OverlayNone(rows, staged, prefix, dump);
    assert KeySet([]) == {};
    var keys := Ordered(staged.Keys);
    OrderedAscends(staged.Keys);
    var i := 0;
    while i < |keys|
      invariant 0 <= i <= |keys|
      invariant (i == 0 ==> keys[..i] == []) && KeySet(keys[..i]) <= staged.Keys
      invariant merged == OverlayOn(rows, staged, KeySet(keys[..i]), prefix, dump)
    {
      assert keys[..i + 1] == keys[..i] + [keys[i]];
      assert KeySet(keys[..i + 1]) == KeySet(keys[..i]) + {keys[i]};
      assert keys[i] in keys && keys[i] !in keys[..i] by {
        LessTotal(keys[i], keys[i]);
      }
      OverlayOne(rows, staged, KeySet(keys[..i]), keys[i], prefix, dump);
      if HasPrefix(keys[i], prefix) {
        if staged[keys[i]].Some? {
          merged := merged[keys[i] := dump(staged[keys[i]].value)];
        } else {
          merged := merged - {keys[i]};
        }
      }
      i := i + 1;
    }
    assert keys[..i] == keys;
    assert KeySet(keys) == staged.Keys;
  }

  /** The rows after the staged writes of `done` that have the prefix. */
  function OverlayOn(
      rows: map<Blob, Text>, staged: Staged, done: set<Blob>, prefix: Blob, dump: Fields -> Text): map<Blob, Text>
    requires done <= staged.Keys
  {
    map k | k in rows.Keys + done && (k in done && HasPrefix(k, prefix) ==> staged[k].Some?)
            && (k in rows || HasPrefix(k, prefix)) ::
      if k in done && HasPrefix(k, prefix) then dump(staged[k].value) else rows[k]
  }

  lemma OverlayNone(rows: map<Blob, Text>, staged: Staged, prefix: Blob, dump: Fields -> Text)
    ensures OverlayOn(rows, staged, {}, prefix, dump) == rows
  {
    hide HasPrefix;
  }

  lemma OverlayOne(
      rows: map<Blob, Text>, staged: Staged, done: set<Blob>, k: Blob, prefix: Blob, dump: Fields -> Text)
    requires done <= staged.Keys && k in staged && k !in done
    ensures var before := OverlayOn(rows, staged, done, prefix, dump);
            OverlayOn(rows, staged, done + {k}, prefix, dump)
            == if !HasPrefix(k, prefix) then before
               else if staged[k].Some? then before[k := dump(staged[k].value)] else before - {k}
  {
    hide HasPrefix;
  }

  function Texts(committed: map<Blob, Columns>, widen: uint32 -> uint64, dump: Fields -> Text): map<Blob, Text> {
    map k | k in committed :: dump(ObjectOf(committed[k], widen))
  }

  lemma NoTexts(widen: uint32 -> uint64, dump: Fields -> Text)
    ensures Texts(map[], widen, dump) == map[]
  {
  }

  /** Overlaying the committed rows of a prefix gives the visible rows of the prefix. */
  lemma PrefixRows(
      committed: map<Blob, Columns>, staged: Staged, widen: uint32 -> uint64, dump: Fields -> Text, prefix: Blob)
    ensures
      OverlayOn(WithPrefix(Texts(committed, widen, dump), prefix), staged, staged.Keys, prefix, dump)
      == WithPrefix(VisibleText(committed, staged, widen, dump), prefix)
  {
    hide HasPrefix, ObjectOf;
  }

  /** Takes rows in key order up to the limit. */
  method TakeRows(rows: map<Blob, Text>, prefix: Blob, limit: nat) returns (result: seq<(Blob, Text)>)
    requires forall k :: k in rows ==> HasPrefix(k, prefix)
    ensures result == FirstRows(rows, prefix, limit)
  {
    hide HasPrefix, Ordered;
    assert (set k | k in rows && HasPrefix(k, prefix)) == rows.Keys;
    var keys := Ordered(rows.Keys);
    ghost var all := Pairs(keys, rows);
    result := [];
    var count := 0;
    while count < |keys| && count < limit
      invariant 0 <= count <= |keys| && count <= limit
      invariant result == all[..count]
    {
      result := result + [(keys[count], rows[keys[count]])];
      count := count + 1;
    }
    assert result == FirstRows(rows, prefix, limit);
  }

  lemma SameFirstRows(rows: map<Blob, Text>, visible: map<Blob, Text>, prefix: Blob, n: nat)
    requires rows == WithPrefix(visible, prefix)
    ensures FirstRows(rows, prefix, n) == FirstRows(visible, prefix, n)
  {
    hide HasPrefix, Ordered;
    assert (set k | k in rows && HasPrefix(k, prefix)) == (set k | k in visible && HasPrefix(k, prefix));
  }
}
