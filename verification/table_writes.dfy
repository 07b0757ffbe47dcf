/**
 One write of a commit on the table object itself (src/storage/storage_engine.cpp, the loop of Commit):
 it does what the logical write does, and keeps the JSON cache coherent.
 */
module TableWrites {
  import opened Wrappers
  import opened Bytes
  import opened Tables
  import opened MemTables
  import RowCodec
  import Engine

  /** A database with this one table. */
  ghost function Alone(table: Blob, rows: map<Blob, RowCodec.Columns>): Db {
    map[table := rows]
  }

  /** `before` is the row the changefeed event will carry as the old one. */
  method ApplyToTable(tbl: MemTable, w: Write, now: nat, ghost ser: StoredRow -> Text)
    returns (ok: bool, before: Option<RowCodec.Columns>)
    requires tbl.Valid(ser)
    modifies tbl
    ensures tbl.Valid(ser)
    ensures ok <==> ApplyWrite(Alone(w.table, old(tbl.Contents())), w).Some?
    ensures ok ==> ApplyWrite(Alone(w.table, old(tbl.Contents())), w) == Some(Alone(w.table, tbl.Contents()))
    ensures ok ==> before == Engine.EventFor(Alone(w.table, old(tbl.Contents())), w).oldColumns
    ensures !ok ==> tbl.rows == old(tbl.rows)
  {
    hide ApplyWrite;
    AloneApplied(w, tbl.Contents());
    var row := StoredRow(w.row.key, w.row.columns, 0, 0);
    before := None;
    if w.op.UPDATE_OP? || w.op.DELETE_OP? {
      before := ColumnsAt(tbl, w.row.key);
    }
    match w.op
    case INSERT_OP =>
      ok := tbl.Insert(row, ser);
      if !ok {
        var found := ColumnsAt(tbl, w.row.key);
        if found.Some? {
          before := found;
          ok := tbl.Update(w.row.key, row, now, ser);
        }
      }
    case UPDATE_OP => ok := tbl.Update(w.row.key, row, now, ser);
    case DELETE_OP => ok := tbl.Delete(w.row.key, ser);
  }

  method ColumnsAt(tbl: MemTable, key: Blob) returns (columns: Option<RowCodec.Columns>)
    ensures columns == if key in tbl.rows then Some(tbl.Contents()[key]) else None
  {
    var row := tbl.Get(key);
    columns := if row.Some? then Some(row.value.columns) else None;
  }

  lemma AloneApplied(w: Write, rows: map<Blob, RowCodec.Columns>)
    ensures ApplyWrite(Alone(w.table, rows), w)
            == if !w.op.INSERT_OP? && w.row.key !in rows then None
               else Some(Alone(w.table, if w.op.DELETE_OP? then rows - {w.row.key}
                                        else rows[w.row.key := w.row.columns]))
  {
    var db := Alone(w.table, rows);
    if ApplyWrite(db, w).Some? {
      var after := if w.op.DELETE_OP? then rows - {w.row.key} else rows[w.row.key := w.row.columns];
      assert ApplyWrite(db, w).value == Alone(w.table, after);
    }
  }

  /** Committing to one table of a database is committing to it alone. */
  lemma OneTableOfMany(db: Db, w: Write)
    requires w.table in db
    ensures ApplyWrite(db, w).Some? <==> ApplyWrite(Alone(w.table, db[w.table]), w).Some?
    ensures ApplyWrite(db, w).Some? ==>
              ApplyWrite(db, w).value
              == db[w.table := ApplyWrite(Alone(w.table, db[w.table]), w).value[w.table]]
    ensures Engine.EventFor(db, w) == Engine.EventFor(Alone(w.table, db[w.table]), w)
  {
  }
}
