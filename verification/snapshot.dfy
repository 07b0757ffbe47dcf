/** What a JSON snapshot keeps of each value (src/storage/storage_engine.cpp, SerializeRow and DeserializeRow). */
module Snapshots {
  import opened Wrappers
  import opened Bytes
  import opened RowCodec
  import opened Tables

  /** The exponent bits of an IEEE double are not all ones. */
  predicate Finite(bits: uint64) {
    bits / 0x10_0000_0000_0000 % 0x800 != 0x7FF
  }

  /**
   `r` is what a value may be after a snapshot is written and loaded; None if its column is lost.
   Integers come back as int64, floating-point numbers as double, non-finite ones and timestamps
   as null, and a binary column as an object no branch of the loader accepts.
   */
  ghost predicate Reloads(v: Value, r: Option<Value>) {
    match v
    case Null => r == Some(Null)
    case Bool(_) => r == Some(v)
    case Int32(i) => r == Some(Int64(i))
    case Int64(_) => r == Some(v)
    case Float(_) => r.Some? && (r.value.Double? || r.value.Null?)
    case Double(bits) => r == Some(if Finite(bits) then v else Null)
    case String(_) => r == Some(v)
    case Binary(_) => r == None
    case Timestamp(_) => r == Some(Null)
  }

  predicate Stable(v: Value) {
    v.Null? || v.Bool? || v.Int64? || v.String? || (v.Double? && Finite(v.doubleBits))
  }

  /** A value survives a snapshot exactly when it is stable. */
  lemma SurvivesIffStable(v: Value, r: Option<Value>)
    requires Reloads(v, r)
    ensures r == Some(v) <==> Stable(v)
  {
  }

  /** What is lost and how: only binary columns disappear, and only values JSON has no form for become null. */
  lemma Losses(v: Value, r: Option<Value>)
    requires Reloads(v, r)
    ensures r == None <==> v.Binary?
    ensures !v.Float? ==> (r == Some(Null) <==> v.Null? || v.Timestamp? || (v.Double? && !Finite(v.doubleBits)))
    ensures r.Some? && r.value.Int64? ==> (v.Int64? && r.value == v) || (v.Int32? && r.value.l == v.i)
    ensures r.Some? && (r.value.String? || r.value.Bool?) ==> r.value == v
    ensures r.Some? && r.value.Double? && v.Double? ==> r.value == v
    ensures v.Int32? || v.Int64? ==> r.Some? && r.value.Int64?
  {
  }

  /** A second snapshot loses nothing more, but for what a float has become. */
  lemma ReloadedIsStable(v: Value, r: Option<Value>)
    requires Reloads(v, r) && r.Some? && !v.Float?
    ensures Stable(r.value)
  {
  }

  /** Not finite are exactly the two infinities and the values that are not a number. */
  lemma FiniteMeans(bits: uint64)
    ensures Finite(bits) <==> bits % 0x8000_0000_0000_0000 < 0x7FF0_0000_0000_0000
  {
    var exponent := bits / 0x10_0000_0000_0000;
    var fraction := bits % 0x10_0000_0000_0000;
    var sign := exponent / 0x800;
    assert bits == (sign * 0x800 + exponent % 0x800) * 0x10_0000_0000_0000 + fraction;
    assert bits % 0x8000_0000_0000_0000 == exponent % 0x800 * 0x10_0000_0000_0000 + fraction;
  }

  ghost predicate ColumnsReload(columns: Columns, image: Columns) {
    && image.Keys <= columns.Keys
    && forall name :: name in columns ==> Reloads(columns[name], if name in image then Some(image[name]) else None)
  }

  ghost predicate Image(db: Db, image: Db) {
    && image.Keys == db.Keys
    && (forall t :: t in db ==> image[t].Keys == db[t].Keys)
    && forall t, k :: t in db && k in db[t] ==> ColumnsReload(db[t][k], image[t][k])
  }

  predicate ColumnsStable(columns: Columns) {
    forall name :: name in columns ==> Stable(columns[name])
  }

  predicate DbStable(db: Db) {
    forall t, k :: t in db && k in db[t] ==> ColumnsStable(db[t][k])
  }

  lemma ColumnsSurvive(columns: Columns, image: Columns)
    requires ColumnsReload(columns, image)
    ensures image == columns <==> ColumnsStable(columns)
  {
    forall name | name in columns
      ensures name in image && image[name] == columns[name] <==> Stable(columns[name])
    {
      SurvivesIffStable(columns[name], if name in image then Some(image[name]) else None);
    }
    if ColumnsStable(columns) {
      assert image.Keys == columns.Keys;
    }
  }

  /** A snapshot loads back as the tables it was taken from exactly when every value is stable. */
  lemma SnapshotFaithful(db: Db, image: Db)
    requires Image(db, image)
    ensures image == db <==> DbStable(db)
  {
    forall t, k | t in db && k in db[t]
      ensures image[t][k] == db[t][k] <==> ColumnsStable(db[t][k])
    {
      ColumnsSurvive(db[t][k], image[t][k]);
    }
    if DbStable(db) {
      forall t | t in db ensures image[t] == db[t] {
      }
    }
  }

  /** A 32-bit integer comes back as a 64-bit one. */
  lemma IntegerLosesWidth()
    ensures exists db, image :: Image(db, image) && image != db
  {
    var t: Blob, k: Blob, name: Blob := [1], [2], [3];
    var before: Columns, after: Columns := map[name := Int32(7)], map[name := Int64(7)];
    var db: Db, image: Db := map[t := map[k := before]], map[t := map[k := after]];
    assert ColumnsReload(before, after);
    assert Image(db, image);
    assert db[t][k][name] != image[t][k][name];
  }
}
