/** The in-memory table with its ordered rows and its JSON cache (src/storage/mem_table.cpp). */
module MemTables {
  import opened Wrappers
  import opened Bytes
  import opened Ordering
  import RowCodec

  type Text = Blob

  datatype StoredRow = StoredRow(key: Blob, columns: RowCodec.Columns, version: nat, timestamp: nat)

  /** The keys a scan visits if it is never stopped. */
  function RangeKeys(keys: set<Blob>, start: Blob, end: Blob): seq<Blob> {
    Ordered(set k | k in keys && InRange(k, start, end))
  }

  /** The rendering of every row, none of it taken from a cache. */
  function Rendered(rows: map<Blob, StoredRow>, ser: StoredRow -> Text): map<Blob, Text> {
    map k | k in rows :: ser(rows[k])
  }

  /** What a callback is handed, in order. */
  function Pairs<T>(keys: seq<Blob>, values: map<Blob, T>): (r: seq<(Blob, T)>)
    requires forall k :: k in keys ==> k in values
    ensures |r| == |keys|
  {
    seq(|keys|, i requires 0 <= i < |keys| => (keys[i], values[keys[i]]))
  }

  /** The visits up to and including the first one after which the callback asks to stop. */
  function UntilStop<T>(visits: seq<T>, more: seq<T> -> bool, n: nat): (r: seq<T>)
    requires n <= |visits|
    decreases |visits| - n
  {
    if n == |visits| then visits
    else if more(visits[..n + 1]) then UntilStop(visits, more, n + 1)
    else visits[..n + 1]
  }

  /** Every cached entry belongs to a live row and is its rendering. */
  ghost predicate Coherent(rows: map<Blob, StoredRow>, cache: map<Blob, Text>, ser: StoredRow -> Text) {
    forall k :: k in cache ==> k in rows && cache[k] == ser(rows[k])
  }

  class MemTable {
    var rows: map<Blob, StoredRow>
    var jsonCache: map<Blob, Text>

    ghost predicate Valid(ser: StoredRow -> Text)
      reads this
    {
      Coherent(rows, jsonCache, ser)
    }

    /** The table as the commit and recovery semantics see it. */
    ghost function Contents(): map<Blob, RowCodec.Columns>
      reads this
    {
      map k | k in rows :: rows[k].columns
    }

    constructor ()
      ensures rows == map[] && jsonCache == map[]
    {
      rows, jsonCache := map[], map[];
    }

    method Insert(row: StoredRow, ghost ser: StoredRow -> Text) returns (ok: bool)
      requires Valid(ser)
      modifies this
      ensures Valid(ser)
      ensures ok <==> row.key !in old(rows)
      ensures rows == if ok then old(rows)[row.key := row] else old(rows)
      ensures Contents() == if ok then old(Contents())[row.key := row.columns] else old(Contents())
      ensures jsonCache == if ok then old(jsonCache) - {row.key} else old(jsonCache)
    {
      if row.key in rows {
        return false;
      }
      rows := rows[row.key := row];
      jsonCache := jsonCache - {row.key};
      return true;
    }

    /** The row is stored under `key`, whatever key it carries. */
    method Update(key: Blob, row: StoredRow, now: nat, ghost ser: StoredRow -> Text) returns (ok: bool)
      requires Valid(ser)
      modifies this
      ensures Valid(ser)
      ensures ok <==> key in old(rows)
      ensures rows == if ok then old(rows)[key := row.(version := old(rows[key]).version + 1, timestamp := now)]
                      else old(rows)
      ensures Contents() == if ok then old(Contents())[key := row.columns] else old(Contents())
      ensures jsonCache == if ok then old(jsonCache) - {key} else old(jsonCache)
    {
      if key !in rows {
        return false;
      }
      var updated := row.(version := rows[key].version + 1, timestamp := now);
      rows := rows[key := updated];
      jsonCache := jsonCache - {key};
      return true;
    }

    method Delete(key: Blob, ghost ser: StoredRow -> Text) returns (ok: bool)
      requires Valid(ser)
      modifies this
      ensures Valid(ser)
      ensures ok <==> key in old(rows)
      ensures rows == old(rows) - {key}
      ensures Contents() == old(Contents()) - {key}
      ensures jsonCache == if ok then old(jsonCache) - {key} else old(jsonCache)
    {
      if key !in rows {
        return false;
      }
      rows := rows - {key};
      jsonCache := jsonCache - {key};
      return true;
    }

    method Get(key: Blob) returns (row: Option<StoredRow>)
      ensures row == if key in rows then Some(rows[key]) else None
    {
      row := if key in rows then Some(rows[key]) else None;
    }

    /** CachedJson: the cached text, computed and stored on a miss. */
    method CachedJson(key: Blob, ser: StoredRow -> Text) returns (text: Text)
      requires Valid(ser) && key in rows
      modifies this`jsonCache
      ensures Valid(ser)
      ensures text == ser(rows[key])
      ensures jsonCache == old(jsonCache)[key := text]
    {
      if key in jsonCache {
        text := jsonCache[key];
        assert jsonCache == jsonCache[key := text];
      } else {
        text := ser(rows[key]);
        jsonCache := jsonCache[key := text];
      }
    }

    /** Cached reads answer what rendering the row afresh would. */
    method GetJsonCached(key: Blob, ser: StoredRow -> Text) returns (text: Option<Text>)
      requires Valid(ser)
      modifies this`jsonCache
      ensures Valid(ser)
      ensures text == if key in rows then Some(Rendered(rows, ser)[key]) else None
    {
      if key !in rows {
        return None;
      }
      var t := CachedJson(key, ser);
      return Some(t);
    }

    /** Visits the rows of the range in key order until the callback has seen enough. */
    method Scan(start: Blob, end: Blob, more: seq<(Blob, StoredRow)> -> bool) returns (visited: seq<(Blob, StoredRow)>)
      ensures visited == UntilStop(Pairs(RangeKeys(rows.Keys, start, end), rows), more, 0)
    {
      var keys := RangeKeys(rows.Keys, start, end);
      ghost var visits := Pairs(keys, rows);
      visited := [];
      var i := 0;
      while i < |keys|
        invariant 0 <= i <= |keys|
        invariant visited == visits[..i]
        invariant UntilStop(visits, more, 0) == UntilStop(visits, more, i)
      {
        visited := visited + [(keys[i], rows[keys[i]])];
        assert visited == visits[..i + 1];
        if !more(visited) {
          return;
        }
        i := i + 1;
      }
    }

    /** The cached scan hands its callback what an uncached one would, and stops where it would. */
    method ScanJsonCached(start: Blob, end: Blob, ser: StoredRow -> Text, more: seq<(Blob, Text)> -> bool)
      returns (visited: seq<(Blob, Text)>)
      requires Valid(ser)
      modifies this`jsonCache
      ensures Valid(ser)
      ensures visited == UntilStop(Pairs(RangeKeys(rows.Keys, start, end), Rendered(rows, ser)), more, 0)
    {
      hide Coherent, Ordered, InRange;
      var keys := RangeKeys(rows.Keys, start, end);
      RangeKeysAscend(rows.Keys, start, end);
      forall j | 0 <= j < |keys| ensures keys[j] in rows {
        assert keys[j] in keys;
      }
      ghost var visits := Pairs(keys, Rendered(rows, ser));
      visited := [];
      var i := 0;
      while i < |keys|
        invariant 0 <= i <= |keys| && Valid(ser) && rows == old(rows)
        invariant visited == visits[..i]
        invariant UntilStop(visits, more, 0) == UntilStop(visits, more, i)
      {
        var text := CachedJson(keys[i], ser);
        visited := visited + [(keys[i], text)];
        assert visited == visits[..i + 1];
        if !more(visited) {
          return;
        }
        i := i + 1;
      }
    }
  }

  /** Range keys ascend, and are exactly the keys within the bounds. */
  lemma RangeKeysAscend(keys: set<Blob>, start: Blob, end: Blob)
    ensures Ascending(RangeKeys(keys, start, end))
    ensures forall k :: k in RangeKeys(keys, start, end) <==> k in keys && InRange(k, start, end)
  {
    hide Ordered, InRange;
    OrderedAscends(set k | k in keys && InRange(k, start, end));
  }

  /** Both bounds belong to the range; an empty end is none. */
  lemma RangeIsInclusive(keys: set<Blob>, start: Blob, end: Blob, k: Blob)
    ensures k in RangeKeys(keys, start, end) <==> k in keys && !Less(k, start) && (end == [] || !Less(end, k))
    ensures start in keys && (end == [] || !Less(end, start)) ==> start in RangeKeys(keys, start, end)
    ensures end in keys && end != [] && !Less(end, start) ==> end in RangeKeys(keys, start, end)
  {
    RangeKeysAscend(keys, start, end);
    LessTotal(start, start);
    LessTotal(end, end);
  }

  /** A scan stops right after the first visit at which its callback says so, and otherwise at the end. */
  lemma {:induction false} StopsExactly<T>(visits: seq<T>, more: seq<T> -> bool, n: nat)
    requires n <= |visits|
    ensures var r := UntilStop(visits, more, n);
            && n <= |r| <= |visits| && r == visits[..|r|]
            && (n < |visits| ==> n < |r|)
            && (forall m :: n < m < |r| ==> more(visits[..m]))
            && (|r| < |visits| ==> !more(r))
    decreases |visits| - n
  {
    if n < |visits| && more(visits[..n + 1]) {
      StopsExactly(visits, more, n + 1);
    }
  }

  /** The cached and the plain scan visit corresponding rows, whatever the cache holds. */
  lemma {:induction false} ScansCorrespond(
      rows: map<Blob, StoredRow>, keys: seq<Blob>, ser: StoredRow -> Text,
      more: seq<(Blob, StoredRow)> -> bool, moreText: seq<(Blob, Text)> -> bool, n: nat)
    requires n <= |keys| && forall k :: k in keys ==> k in rows
    requires forall m: nat :: m <= |keys| ==>
               more(Pairs(keys, rows)[..m]) == moreText(Pairs(keys, Rendered(rows, ser))[..m])
    ensures var plain := UntilStop(Pairs(keys, rows), more, n);
            var cached := UntilStop(Pairs(keys, Rendered(rows, ser)), moreText, n);
            |plain| == |cached|
            && forall i :: 0 <= i < |plain| ==> cached[i] == (plain[i].0, ser(plain[i].1))
    decreases |keys| - n
  {
    if n < |keys| && more(Pairs(keys, rows)[..n + 1]) {
      ScansCorrespond(rows, keys, ser, more, moreText, n + 1);
    }
  }
}
