/** The storage engine object: Commit, table definitions and recovery (src/storage/storage_engine.cpp). */
module Engine {
  import opened Wrappers
  import opened Bytes
  import opened RowCodec
  import opened Wal
  import opened Tables
  import opened Transactions

  /** A changefeed event; the row payloads are the column objects subscribers evaluate. */
  datatype Event = Event(
    op: WriteOp, table: Blob, key: Blob, newColumns: Option<Columns>, oldColumns: Option<Columns>)

  /** The event of a write about to be applied: the old row is the one it finds, whatever the operation. */
  function EventFor(db: Db, w: Write): Event {
    Event(w.op, w.table, w.row.key,
          if w.op.DELETE_OP? then None else Some(w.row.columns),
          RowAt(db, w.table, w.row.key))
  }

  /** The events of a write set, up to the write that fails. */
  function EventsOf(db: Db, ws: seq<Write>): seq<Event>
    decreases |ws|
  {
    if ws == [] || ApplyWrite(db, ws[0]).None? then []
    else [EventFor(db, ws[0])] + EventsOf(ApplyWrite(db, ws[0]).value, ws[1..])
  }

  lemma {:induction false} EventsAppend(db: Db, ws: seq<Write>, w: Write)
    requires CommitWrites(db, ws).1
    requires ApplyWrite(CommitWrites(db, ws).0, w).Some?
    ensures EventsOf(db, ws + [w]) == EventsOf(db, ws) + [EventFor(CommitWrites(db, ws).0, w)]
    decreases |ws|
  {
    hide ApplyWrite, EventFor;
    if ws == [] {
      assert [] + [w] == [w] && [w][1..] == [];
    } else {
      assert (ws + [w])[1..] == ws[1..] + [w];
      EventsAppend(ApplyWrite(db, ws[0]).value, ws[1..], w);
    }
  }

  lemma CommitAppend(db: Db, ws: seq<Write>, w: Write)
    requires CommitWrites(db, ws).1
    ensures CommitWrites(db, ws + [w]) == match ApplyWrite(CommitWrites(db, ws).0, w)
                                          case None => (CommitWrites(db, ws).0, false)
                                          case Some(db') => (db', true)
  {
    hide ApplyWrite;
    CommitConcat(db, ws, [w]);
    assert [w][1..] == [];
  }

  lemma {:induction false} FailureStays(db: Db, ws: seq<Write>, i: nat)
    requires i <= |ws| && !CommitWrites(db, ws[..i]).1
    ensures CommitWrites(db, ws) == CommitWrites(db, ws[..i])
  {
    assert ws == ws[..i] + ws[i..];
    CommitConcat(db, ws[..i], ws[i..]);
  }

  lemma {:induction false} OpsOfConcat(a: seq<Entry>, b: seq<Entry>)
    ensures OpsOf(a + b) == OpsOf(a) + OpsOf(b)
    decreases |a|
  {
    hide OpOf;
    if a == [] {
      assert a + b == b;
    } else {
      assert (a + b)[1..] == a[1..] + b;
      OpsOfConcat(a[1..], b);
    }
  }

  /** Lists a column map in some order, as iterating an unordered map does. */
  method Enumerate(columns: Columns) returns (items: Items)
    ensures Enumerates(items, columns)
  {
    items := [];
    var left := columns.Keys;
    while left != {}
      invariant left <= columns.Keys
      invariant |items| + |left| == |columns.Keys|
      invariant forall i :: 0 <= i < |items| ==> items[i].0 in columns && items[i].0 !in left
                                                 && columns[items[i].0] == items[i].1
      invariant forall i, j :: 0 <= i < j < |items| ==> items[i].0 != items[j].0
      decreases |left|
    {
      var name :| name in left;
      items := items + [(name, columns[name])];
      left := left - {name};
    }
  }

  function KindOf(op: WriteOp): byte {
    match op case INSERT_OP => INSERT case UPDATE_OP => UPDATE case DELETE_OP => DELETE
  }

  class StorageEngine {
    var tables: Db
    const wal: WriteAheadLog
    var published: seq<Event>

    constructor (wal: WriteAheadLog, snapshot: Option<Db>)
      ensures this.wal == wal && published == []
      ensures tables == if snapshot.Some? then snapshot.value else map[]
    {
      this.wal, this.published := wal, [];
      this.tables := if snapshot.Some? then snapshot.value else map[];
    }

    /** Commit's loop body: apply one write in place, or report that it cannot be applied. */
    method Apply(w: Write) returns (ok: bool)
      modifies this`tables
      ensures ok <==> old(ApplyWrite(tables, w)).Some?
      ensures tables == if ok then old(ApplyWrite(tables, w)).value else old(tables)
    {
      if w.table !in tables {
        return false;
      }
      var table := tables[w.table];
      match w.op
      case INSERT_OP =>
        if w.row.key !in table {
          tables := tables[w.table := table[w.row.key := w.row.columns]];
        } else {
          // The key was committed after this write was staged; resolve as UPDATE.
          tables := tables[w.table := table[w.row.key := w.row.columns]];
        }
        ok := true;
      case UPDATE_OP =>
        ok := w.row.key in table;
        if ok {
          tables := tables[w.table := table[w.row.key := w.row.columns]];
        }
      case DELETE_OP =>
        ok := w.row.key in table;
        if ok {
          tables := tables[w.table := table - {w.row.key}];
        }
    }

    method EntryFor(w: Write, transaction: uint64) returns (e: Entry)
      ensures Records(e, LoggedOp(w))
    {
      var items := Enumerate(w.row.columns);
      var data := EncodeRow(w.row, items);
      e := Entry(KindOf(w.op), 0, transaction, 0, w.table, w.row.key, data);
      assert RowData(data, w.row) by { hide RowBytes; }
    }

    /** The part of Commit under the tables lock: apply every write, then enqueue one batch. */
    method CommitLocked(writes: seq<Write>, transaction: uint64, now: uint64)
      returns (ok: bool, done: nat, events: seq<Event>, entries: seq<Entry>)
      requires wal.Valid()
      modifies this`tables, wal
      ensures wal.Valid()
      ensures (tables, ok) == old(CommitWrites(tables, writes))
      ensures !ok ==> unchanged(wal)
      ensures ok ==> events == old(EventsOf(tables, writes)) && RecordsAll(entries, LoggedOps(writes))
      ensures ok ==> done == old(wal.nextPromise) && wal.fatal == old(wal.fatal)
                     && wal.file == old(wal.file) && wal.synced == old(wal.synced)
      ensures ok && !wal.fatal ==>
                && wal.queue == old(wal.queue) + [PendingBatch(LogBytes(entries), done)]
                && (forall i :: 0 <= i < |entries| ==> entries[i].sequence == old(wal.nextSequence) + i)
                && wal.nextSequence == old(wal.nextSequence) + |entries|
                && wal.promises == old(wal.promises)
      ensures ok && wal.fatal ==>
                && wal.promises == old(wal.promises)[done := false]
                && wal.queue == old(wal.queue) && wal.nextSequence == old(wal.nextSequence)
      ensures ok ==> wal.nextPromise == done + 1
    {
      hide ApplyWrite, EventFor, Records, LogBytes;
      done, events, entries := 0, [], [];
      var i := 0;
      while i < |writes|
        invariant 0 <= i <= |writes|
        invariant old(CommitWrites(tables, writes[..i])) == (tables, true)
        invariant events == old(EventsOf(tables, writes[..i]))
        invariant |entries| == i && forall j :: 0 <= j < i ==> Records(entries[j], LoggedOp(writes[j]))
        invariant wal.Valid() && unchanged(wal)
      {
        var write := writes[i];
        assert writes[..i + 1] == writes[..i] + [write];
        CommitAppend(old(tables), writes[..i], write);
        var event := EventFor(tables, write);
        var applied := Apply(write);
        if !applied {
          FailureStays(old(tables), writes, i + 1);
          return false, 0, [], [];
        }
        EventsAppend(old(tables), writes[..i], write);
        var entry := EntryFor(write, transaction);
        entries := entries + [entry];
        events := events + [event];
        i := i + 1;
      }
      assert writes[..i] == writes;
      ghost var built := entries;
      entries, done := wal.AppendBatchAsync(entries, now);
      forall j | 0 <= j < |entries| ensures Records(entries[j], LoggedOps(writes)[j]) {
        StampKeepsRecord(built[j], entries[j], LoggedOp(writes[j]));
      }
      return true, done, events, entries;
    }

    /** Commit: events are published, and true returned, only if the batch was written and synced. */
    method Commit(txn: Transaction, now: uint64) returns (ok: bool)
      requires wal.Valid()
      modifies this, wal, txn`state
      ensures wal.Valid()
      ensures old(txn.state) != ACTIVE ==> !ok && tables == old(tables) && unchanged(wal)
      ensures old(txn.state) == ACTIVE ==> tables == old(CommitWrites(tables, txn.writeSet)).0
      ensures old(txn.state) == ACTIVE && txn.writeSet == [] ==> ok && unchanged(wal)
      ensures ok ==> old(CommitWrites(tables, txn.writeSet)).1
      ensures ok && txn.writeSet != [] ==>
                && published == old(published) + old(EventsOf(tables, txn.writeSet))
                && (wal.fsync ==> wal.synced == |wal.file|)
                && exists entries :: RecordsAll(entries, LoggedOps(txn.writeSet))
                     && wal.file == old(wal.file) + (BatchBytes(old(wal.queue)) + LogBytes(entries))
      ensures !ok ==> published == old(published)
      ensures txn.state == if ok then COMMITTED else old(txn.state)
    {
      hide ApplyWrite, EventFor, Records, LogBytes;
      if txn.state != ACTIVE {
        return false;
      }
      var writes := txn.writeSet;
      if writes != [] {
        var applied, done, events, entries := CommitLocked(writes, txn.timestamp, now);
        if !applied {
          return false;
        }
        if wal.fatal {
          return false;
        }
        ghost var queue := wal.queue;
        // Wait for the writer thread to take the queue.
        var durable := wal.WriterPass();
        if !durable {
          return false;
        }
        BatchBytesConcat(old(wal.queue), [PendingBatch(LogBytes(entries), done)]);
        assert BatchBytes([PendingBatch(LogBytes(entries), done)]) == LogBytes(entries) + BatchBytes([]);
        assert RecordsAll(entries, LoggedOps(txn.writeSet))
            && wal.file == old(wal.file) + (BatchBytes(old(wal.queue)) + LogBytes(entries));
        var i := 0;
        while i < |events|
          invariant 0 <= i <= |events|
          invariant published == old(published) + events[..i]
          modifies this`published
        {
          assert events[..i + 1] == events[..i] + [events[i]];
          published := published + [events[i]];
          i := i + 1;
        }
        assert events[..i] == events;
      }
      txn.state := COMMITTED;
      return true;
    }

    /** Append: one metadata record, written and synced together with whatever was queued before it. */
    method Append(e: Entry, now: uint64) returns (ok: bool, stamped: Entry)
      requires wal.Valid()
      modifies wal
      ensures wal.Valid() && (!ok ==> wal.fatal) && (old(wal.fatal) ==> wal.fatal)
      ensures ok ==> stamped == e.(sequence := old(wal.nextSequence), timestamp := now)
      ensures ok ==> wal.file == old(wal.file) + BatchBytes(old(wal.queue)) + Frame(stamped) && wal.queue == []
    {
      hide Frame;
      var entries, done := wal.AppendBatchAsync([e], now);
      if wal.fatal {
        return false, e;
      }
      stamped := entries[0];
      assert entries == [stamped];
      LogBytesAppend([], stamped);
      assert [] + [stamped] == [stamped];
      ghost var batch := PendingBatch(LogBytes(entries), done);
      BatchBytesConcat(old(wal.queue), [batch]);
      assert BatchBytes([batch]) == batch.bytes + BatchBytes([]);
      ok := wal.WriterPass();
    }

    /** Unless the log is broken, the record of op has been appended to the file. */
    twostate predicate Appended(op: Op)
      reads wal
    {
      wal.fatal || (wal.queue == [] && Extends(old(wal.file) + BatchBytes(old(wal.queue)), wal.file, [op]))
    }

    method CreateTable(name: Blob, schema: Blob, now: uint64) returns (ok: bool)
      requires wal.Valid() && schema != []
      modifies this`tables, wal
      ensures wal.Valid()
      ensures ok <==> old(Succeeds(tables, CreateOp(name, schema)))
      ensures tables == old(ReplayOp(tables, CreateOp(name, schema)))
      ensures if ok then Appended(CreateOp(name, schema)) else unchanged(wal)
    {
      hide Frame;
      if name in tables {
        return false;
      }
      tables := tables[name := map[]];
      var appended, e := Append(Entry(CREATE_TABLE, 0, 0, 0, name, [], schema), now);
      if appended {
        ExtendsOne(old(wal.file) + BatchBytes(old(wal.queue)), e, CreateOp(name, schema));
      }
      return true;
    }

    method DropTable(name: Blob, now: uint64) returns (ok: bool)
      requires wal.Valid()
      modifies this`tables, wal
      ensures wal.Valid() && (old(wal.fatal) ==> wal.fatal)
      ensures ok <==> old(Succeeds(tables, DropOp(name)))
      ensures tables == old(ReplayOp(tables, DropOp(name)))
      ensures if ok then Appended(DropOp(name)) else unchanged(wal)
    {
      hide Frame;
      if name !in tables {
        return false;
      }
      tables := tables - {name};
      var appended, e := Append(Entry(DROP_TABLE, 0, 0, 0, name, [], []), now);
      if appended {
        ExtendsOne(old(wal.file) + BatchBytes(old(wal.queue)), e, DropOp(name));
      }
      return true;
    }

    /**
     One record of RecoverFromWAL. A record that cannot be decoded is skipped; a DROP_TABLE that finds
     its table goes through DropTable and so logs itself again.
     */
    method RecoverEntry(e: Entry, now: uint64)
      requires wal.Valid()
      modifies this`tables, wal
      ensures wal.Valid() && (old(wal.fatal) ==> wal.fatal)
      ensures tables == old(Replay(tables, OpsOf([e])))
      ensures if e.kind == DROP_TABLE && e.table in old(tables) then Appended(DropOp(e.table)) else unchanged(wal)
    {
      hide RowOf, Frame;
      assert [e][1..] == [];
      if e.kind == CREATE_TABLE {
        if e.data != [] && e.table !in tables {
          tables := tables[e.table := map[]];
        }
      } else if e.kind == DROP_TABLE {
        var dropped := DropTable(e.table, now);
      } else if e.kind == INSERT {
        if e.table in tables {
          var row := DecodeRow(e.data);
          if row.Some? && row.value.key !in tables[e.table] {
            tables := tables[e.table := tables[e.table][row.value.key := row.value.columns]];
          }
        }
      } else if e.kind == UPDATE {
        if e.table in tables {
          var row := DecodeRow(e.data);
          if row.Some? && e.key in tables[e.table] {
            tables := tables[e.table := tables[e.table][e.key := row.value.columns]];
          }
        }
      } else if e.kind == DELETE {
        if e.table in tables {
          tables := tables[e.table := tables[e.table] - {e.key}];
        }
      }
    }

    /** What recovery has appended so far: one DROP_TABLE record for each table it dropped on the way. */
    ghost predicate Relogged(file: Blob, drops: seq<Op>)
      reads wal
    {
      wal.fatal || (wal.queue == [] && Extends(file, wal.file, drops))
    }

    method RecoverFromWAL(now: uint64)
      requires wal.Valid() && wal.queue == []
      modifies this`tables, wal
      ensures wal.Valid()
      ensures tables == old(Replay(tables, OpsOf(ReadLog(wal.file))))
      ensures Relogged(old(wal.file), old(Redropped(tables, OpsOf(ReadLog(wal.file)))))
      ensures old(Redropped(tables, OpsOf(ReadLog(wal.file)))) == [] ==> unchanged(wal)
    {
      hide ReadLog, Replay, OpsOf, Redropped, Extends;
      var entries := wal.ReadAll();
      var i := 0;
      NoOps(tables);
      assert entries[..0] == [];
      ExtendsNothing(wal.file);
      while i < |entries|
        invariant 0 <= i <= |entries| && wal.Valid()
        invariant tables == old(Replay(tables, OpsOf(entries[..i])))
        invariant Relogged(old(wal.file), old(Redropped(tables, OpsOf(entries[..i]))))
        invariant old(Redropped(tables, OpsOf(entries[..i]))) == [] ==> unchanged(wal)
      {
        ghost var before := tables;
        ghost var drops := Redropped(old(tables), OpsOf(entries[..i]));
        assert entries[..i + 1] == entries[..i] + [entries[i]];
        OpsOfConcat(entries[..i], [entries[i]]);
        ReplayConcat(old(tables), OpsOf(entries[..i]), OpsOf([entries[i]]));
        RedroppedConcat(old(tables), OpsOf(entries[..i]), OpsOf([entries[i]]));
        RedroppedOne(before, entries[i]);
        ghost var file, fatal := wal.file, wal.fatal;
        assert file + BatchBytes([]) == file;
        RecoverEntry(entries[i], now);
        if !wal.fatal && entries[i].kind == DROP_TABLE && entries[i].table in before {
          ExtendsTwice(old(wal.file), file, wal.file, drops, [DropOp(entries[i].table)]);
        }
        assert drops + [] == drops;
        i := i + 1;
      }
      assert entries[..i] == entries;
    }
  }

  /** The file has grown by the frames of records of these operations. */
  ghost predicate Extends(before: Blob, after: Blob, ops: seq<Op>) {
    exists es :: RecordsAll(es, ops) && after == before + LogBytes(es)
  }

  lemma ExtendsOne(before: Blob, e: Entry, op: Op)
    requires Records(e, op)
    ensures Extends(before, before + Frame(e), [op])
  {
    hide Frame, Records;
    LogBytesAppend([], e);
    assert [] + [e] == [e];
    assert RecordsAll([e], [op]) && before + Frame(e) == before + LogBytes([e]);
  }

  lemma ExtendsNothing(file: Blob)
    ensures Extends(file, file, [])
  {
    assert RecordsAll([], []) && file == file + LogBytes([]);
  }

  lemma ExtendsTwice(first: Blob, second: Blob, third: Blob, a: seq<Op>, b: seq<Op>)
    requires Extends(first, second, a) && Extends(second, third, b)
    ensures Extends(first, third, a + b)
  {
    hide Records, LogBytes;
    var es :| RecordsAll(es, a) && second == first + LogBytes(es);
    var fs :| RecordsAll(fs, b) && third == second + LogBytes(fs);
    LogBytesConcat(es, fs);
    assert RecordsAll(es + fs, a + b) && third == first + LogBytes(es + fs);
  }

  lemma RedroppedOne(db: Db, e: Entry)
    ensures Redropped(db, OpsOf([e])) == if e.kind == DROP_TABLE && e.table in db then [DropOp(e.table)] else []
  {
    assert [e][1..] == [];
    assert OpsOf([e]) == match OpOf(e) case Some(op) => [op] case None => [];
    if OpOf(e).Some? {
      assert [OpOf(e).value][1..] == [];
    }
  }

  lemma NoOps(db: Db)
    ensures Replay(db, OpsOf([])) == db && Redropped(db, OpsOf([])) == []
  {
  }

  lemma StampKeepsRecord(e: Entry, stamped: Entry, op: Op)
    requires Records(e, op)
    requires stamped == e.(sequence := stamped.sequence, timestamp := stamped.timestamp)
    ensures Records(stamped, op)
  {
  }

  // ---- What the events of a commit say ----

  /** The event of an applied write names it, and carries the row before it and the row after it. */
  lemma EventCarriesRows(db: Db, w: Write)
    requires ApplyWrite(db, w).Some?
    ensures var e := EventFor(db, w);
            && e.op == w.op && e.table == w.table && e.key == w.row.key
            && e.oldColumns == RowAt(db, w.table, w.row.key)
            && e.newColumns == RowAt(ApplyWrite(db, w).value, w.table, w.row.key)
  {
  }

  /** A consumer that stores each new row, or removes the key when there is none. */
  function ApplyEvent(db: Db, e: Event): Db {
    if e.table !in db then db
    else if e.newColumns.Some? then PutRow(db, e.table, e.key, e.newColumns.value)
    else RemoveRow(db, e.table, e.key)
  }

  function ApplyEvents(db: Db, events: seq<Event>): Db
    decreases |events|
  {
    if events == [] then db else ApplyEvents(ApplyEvent(db, events[0]), events[1..])
  }

  /** The events the commit loop builds, applied to the tables it started from, rebuild the tables it leaves. */
  lemma {:induction false} EventsRebuildTables(db: Db, ws: seq<Write>)
    ensures ApplyEvents(db, EventsOf(db, ws)) == CommitWrites(db, ws).0
    decreases |ws|
  {
    if ws != [] && ApplyWrite(db, ws[0]).Some? {
      var db' := ApplyWrite(db, ws[0]).value;
      assert ApplyEvent(db, EventFor(db, ws[0])) == db';
      assert EventsOf(db, ws)[1..] == EventsOf(db', ws[1..]);
      EventsRebuildTables(db', ws[1..]);
    }
  }
}
