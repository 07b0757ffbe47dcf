/**
 What the tables hold, what a committed write does to them, and what replaying the
 log does to them (src/storage/storage_engine.cpp, Commit and RecoverFromWAL).

 Rows are compared on key and columns: version and timestamp are not encoded.
 */
module Tables {
  import opened Wrappers
  import opened Bytes
  import opened RowCodec
  import opened Wal

  type Table = map<Blob, Columns>
  type Db = map<Blob, Table>

  /** A logical log record. The schema document is carried as opaque bytes. */
  datatype Op =
    | CreateOp(table: Blob, schema: Blob)
    | DropOp(table: Blob)
    | InsertOp(table: Blob, row: Row)
    | UpdateOp(table: Blob, key: Blob, row: Row)
    | DeleteOp(table: Blob, key: Blob)

  function RowAt(db: Db, table: Blob, key: Blob): Option<Columns> {
    if table in db && key in db[table] then Some(db[table][key]) else None
  }

  function PutRow(db: Db, table: Blob, key: Blob, columns: Columns): Db
    requires table in db
  {
    db[table := db[table][key := columns]]
  }

  function RemoveRow(db: Db, table: Blob, key: Blob): Db
    requires table in db
  {
    db[table := db[table] - {key}]
  }

  // ---- Replay ----

  /** One record of RecoverFromWAL: operations that do not apply are skipped. */
  function ReplayOp(db: Db, op: Op): Db {
    match op
    case CreateOp(t, _) => if t in db then db else db[t := map[]]
    case DropOp(t) => db - {t}
    case InsertOp(t, row) => if t in db && row.key !in db[t] then PutRow(db, t, row.key, row.columns) else db
    case UpdateOp(t, k, row) => if t in db && k in db[t] then PutRow(db, t, k, row.columns) else db
    case DeleteOp(t, k) => if t in db then RemoveRow(db, t, k) else db
  }

  function Replay(db: Db, ops: seq<Op>): Db
    decreases |ops|
  {
    if ops == [] then db else Replay(ReplayOp(db, ops[0]), ops[1..])
  }

  /** The operation finds what it expects: it would not be skipped. */
  predicate Succeeds(db: Db, op: Op) {
    match op
    case CreateOp(t, _) => t !in db
    case DropOp(t) => t in db
    case InsertOp(t, row) => t in db && row.key !in db[t]
    case UpdateOp(t, k, _) => t in db && k in db[t]
    case DeleteOp(t, k) => t in db && k in db[t]
  }

  predicate AllSucceed(db: Db, ops: seq<Op>)
    decreases |ops|
  {
    ops == [] || (Succeeds(db, ops[0]) && AllSucceed(ReplayOp(db, ops[0]), ops[1..]))
  }

  /**
   The operation leaves what it says, whether or not it found what it expects: it succeeds, or it concerns
   a whole table or a deletion, or it inserts a row that is there already.
   */
  predicate Settles(db: Db, op: Op) {
    || Succeeds(db, op)
    || op.CreateOp? || op.DropOp? || op.DeleteOp?
    || (op.InsertOp? && RowAt(db, op.table, op.row.key) == Some(op.row.columns))
  }

  predicate AllSettle(db: Db, ops: seq<Op>)
    decreases |ops|
  {
    ops == [] || (Settles(db, ops[0]) && AllSettle(ReplayOp(db, ops[0]), ops[1..]))
  }

  lemma {:induction false} SucceedSettle(db: Db, ops: seq<Op>)
    requires AllSucceed(db, ops)
    ensures AllSettle(db, ops)
    decreases |ops|
  {
    if ops != [] {
      SucceedSettle(ReplayOp(db, ops[0]), ops[1..]);
    }
  }

  lemma {:induction false} ReplayConcat(db: Db, a: seq<Op>, b: seq<Op>)
    ensures Replay(db, a + b) == Replay(Replay(db, a), b)
    ensures AllSucceed(db, a + b) <==> AllSucceed(db, a) && AllSucceed(Replay(db, a), b)
    ensures AllSettle(db, a + b) <==> AllSettle(db, a) && AllSettle(Replay(db, a), b)
    decreases |a|
  {
    hide ReplayOp, Succeeds, Settles;
    if a == [] {
      assert a + b == b;
    } else {
      assert (a + b)[1..] == a[1..] + b;
      ReplayConcat(ReplayOp(db, a[0]), a[1..], b);
    }
  }

  // ---- Replay is idempotent ----

  lemma SameTables(a: Db, b: Db)
    requires forall t: Blob :: t in a <==> t in b
    requires forall t: Blob, k: Blob :: RowAt(a, t, k) == RowAt(b, t, k)
    ensures a == b
  {
    forall t | t in a ensures a[t] == b[t] {
      forall k ensures k in a[t] <==> k in b[t]
        ensures k in a[t] ==> a[t][k] == b[t][k]
      {
        assert RowAt(a, t, k) == RowAt(b, t, k);
      }
    }
  }

  /** In every table and cell, x agrees with d or with f. */
  ghost predicate Between(x: Db, d: Db, f: Db) {
    && (forall t: Blob :: (t in x <==> t in d) || (t in x <==> t in f))
    && (forall t: Blob, k: Blob :: RowAt(x, t, k) == RowAt(d, t, k) || RowAt(x, t, k) == RowAt(f, t, k))
  }

  lemma BetweenStep(x: Db, d: Db, f: Db, op: Op)
    requires Between(x, d, f) && Settles(d, op)
    ensures Between(ReplayOp(x, op), ReplayOp(d, op), f)
  {
    hide ReplayOp, Settles, RowAt;
    forall t: Blob ensures (t in ReplayOp(x, op) <==> t in ReplayOp(d, op)) || (t in ReplayOp(x, op) <==> t in f) {
      TableBetween(x, d, f, op, t);
    }
    forall t: Blob, k: Blob
      ensures var row := RowAt(ReplayOp(x, op), t, k); row == RowAt(ReplayOp(d, op), t, k) || row == RowAt(f, t, k)
    {
      RowBetween(x, d, f, op, t, k);
    }
  }

  lemma TableBetween(x: Db, d: Db, f: Db, op: Op, t: Blob)
    requires (t in x <==> t in d) || (t in x <==> t in f)
    ensures (t in ReplayOp(x, op) <==> t in ReplayOp(d, op)) || (t in ReplayOp(x, op) <==> t in f)
  {
  }

  /** What one replayed operation does to one row. */
  lemma ReplayedRow(db: Db, op: Op, t: Blob, k: Blob)
    ensures RowAt(ReplayOp(db, op), t, k) ==
            match op
            case CreateOp(_, _) => RowAt(db, t, k)
            case DropOp(u) => if t == u then None else RowAt(db, t, k)
            case InsertOp(u, row) =>
              if t == u && k == row.key && t in db && RowAt(db, t, k).None? then Some(row.columns) else RowAt(db, t, k)
            case UpdateOp(u, key, row) =>
              if t == u && k == key && RowAt(db, t, k).Some? then Some(row.columns) else RowAt(db, t, k)
            case DeleteOp(u, key) => if t == u && k == key then None else RowAt(db, t, k)
  {
  }

  lemma RowBetween(x: Db, d: Db, f: Db, op: Op, t: Blob, k: Blob)
    requires Between(x, d, f) && Settles(d, op)
    ensures RowAt(ReplayOp(x, op), t, k) == RowAt(ReplayOp(d, op), t, k)
            || RowAt(ReplayOp(x, op), t, k) == RowAt(f, t, k)
  {
    hide ReplayOp;
    ReplayedRow(x, op, t, k);
    ReplayedRow(d, op, t, k);
    assert RowAt(x, t, k) == RowAt(d, t, k) || RowAt(x, t, k) == RowAt(f, t, k);
    assert (t in x <==> t in d) || (t in x <==> t in f);
  }

  lemma {:induction false} BetweenReplay(x: Db, d: Db, f: Db, ops: seq<Op>)
    requires Between(x, d, f) && AllSettle(d, ops)
    ensures Between(Replay(x, ops), Replay(d, ops), f)
    decreases |ops|
  {
    hide Between, ReplayOp, Settles;
    if ops != [] {
      BetweenStep(x, d, f, ops[0]);
      BetweenReplay(ReplayOp(x, ops[0]), ReplayOp(d, ops[0]), f, ops[1..]);
    }
  }

  /** Replaying a log whose operations all settled over the tables it produced changes nothing. */
  lemma ReplayIdempotent(db: Db, ops: seq<Op>)
    requires AllSettle(db, ops)
    ensures Replay(Replay(db, ops), ops) == Replay(db, ops)
  {
    var f := Replay(db, ops);
    assert Between(f, db, f);
    BetweenReplay(f, db, f, ops);
    SameTables(Replay(f, ops), f);
  }

  // ---- Live commits ----

  datatype WriteOp = INSERT_OP | UPDATE_OP | DELETE_OP

  /** One element of a transaction's write set. */
  datatype Write = Write(op: WriteOp, table: Blob, row: Row)

  /** The engine finds an INSERT's key already committed and resolves it as an UPDATE. */
  predicate IsUpsert(db: Db, w: Write) {
    w.op.INSERT_OP? && RowAt(db, w.table, w.row.key).Some?
  }

  /** One write of Commit, or None where it fails the commit. */
  function ApplyWrite(db: Db, w: Write): Option<Db> {
    if w.table !in db then None
    else
      match w.op
      case INSERT_OP => Some(PutRow(db, w.table, w.row.key, w.row.columns))
      case UPDATE_OP =>
        if w.row.key in db[w.table] then Some(PutRow(db, w.table, w.row.key, w.row.columns)) else None
      case DELETE_OP =>
        if w.row.key in db[w.table] then Some(RemoveRow(db, w.table, w.row.key)) else None
  }

  /** The tables after Commit's loop, and whether every write applied. Earlier writes stay applied on failure. */
  function CommitWrites(db: Db, ws: seq<Write>): (Db, bool)
    decreases |ws|
  {
    if ws == [] then (db, true)
    else
      match ApplyWrite(db, ws[0])
      case None => (db, false)
      case Some(db') => CommitWrites(db', ws[1..])
  }

  /** The record Commit logs: the staged operation, even for a resolved INSERT. */
  function LoggedOp(w: Write): Op {
    match w.op
    case INSERT_OP => InsertOp(w.table, w.row)
    case UPDATE_OP => UpdateOp(w.table, w.row.key, w.row)
    case DELETE_OP => DeleteOp(w.table, w.row.key)
  }

  function LoggedOps(ws: seq<Write>): (ops: seq<Op>)
    ensures |ops| == |ws|
    ensures forall i :: 0 <= i < |ws| ==> ops[i] == LoggedOp(ws[i])
  {
    if ws == [] then [] else [LoggedOp(ws[0])] + LoggedOps(ws[1..])
  }

  /**
   Replaying the record of one applied write reproduces the live tables, except for an
   INSERT resolved as an UPDATE that really changed the row.
   */
  lemma LoggedWriteReplays(db: Db, w: Write)
    requires ApplyWrite(db, w).Some?
    ensures ReplayOp(db, LoggedOp(w)) == ApplyWrite(db, w).value
            <==> !(IsUpsert(db, w) && RowAt(db, w.table, w.row.key) != Some(w.row.columns))
  {
    if IsUpsert(db, w) {
      var live := ApplyWrite(db, w).value;
      assert RowAt(live, w.table, w.row.key) == Some(w.row.columns);
      if RowAt(db, w.table, w.row.key) == Some(w.row.columns) {
        assert db[w.table][w.row.key := w.row.columns] == db[w.table];
        assert live == db;
      }
    }
  }

  /** An INSERT of a committed key with other columns: the live row is the new one, the replayed row the old. */
  lemma ChangedUpsertReplaysWrong()
    ensures exists db, w :: ApplyWrite(db, w).Some? && ReplayOp(db, LoggedOp(w)) != ApplyWrite(db, w).value
  {
    var t: Blob, k: Blob, name: Blob := [1], [2], [3];
    var db: Db := map[t := map[k := map[]]];
    var w := Write(INSERT_OP, t, Row(k, map[name := Null]));
    assert name in w.row.columns;
    assert RowAt(db, t, k) == Some(map[]) && IsUpsert(db, w);
    LoggedWriteReplays(db, w);
  }

  /** No write of the set fails, and none is an INSERT over an existing key. */
  predicate Genuine(db: Db, ws: seq<Write>)
    decreases |ws|
  {
    ws == [] || (ApplyWrite(db, ws[0]).Some? && !IsUpsert(db, ws[0]) && Genuine(ApplyWrite(db, ws[0]).value, ws[1..]))
  }

  /** A write set is genuine exactly when its records all succeed, and then replay reproduces the commit. */
  lemma {:induction false} GenuineCommitReplays(db: Db, ws: seq<Write>)
    ensures Genuine(db, ws) <==> AllSucceed(db, LoggedOps(ws))
    ensures Genuine(db, ws) ==> CommitWrites(db, ws) == (Replay(db, LoggedOps(ws)), true)
    decreases |ws|
  {
    if ws != [] {
      assert LoggedOps(ws)[1..] == LoggedOps(ws[1..]);
      if ApplyWrite(db, ws[0]).Some? && !IsUpsert(db, ws[0]) {
        LoggedWriteReplays(db, ws[0]);
        GenuineCommitReplays(ApplyWrite(db, ws[0]).value, ws[1..]);
      }
    }
  }

  /** Every write of the set applies, and an INSERT over an existing key changes nothing. */
  predicate Replayable(db: Db, ws: seq<Write>)
    decreases |ws|
  {
    ws == []
    || (&& ApplyWrite(db, ws[0]).Some?
        && !(IsUpsert(db, ws[0]) && RowAt(db, ws[0].table, ws[0].row.key) != Some(ws[0].row.columns))
        && Replayable(ApplyWrite(db, ws[0]).value, ws[1..]))
  }

  /** The tables after every number of writes are the replay of that many records. */
  predicate ReplaysThroughout(db: Db, ws: seq<Write>)
    decreases |ws|
  {
    ws == []
    || (&& ApplyWrite(db, ws[0]) == Some(ReplayOp(db, LoggedOp(ws[0])))
        && ReplaysThroughout(ReplayOp(db, LoggedOp(ws[0])), ws[1..]))
  }

  /** Replay follows the live tables through a commit exactly when it is replayable, and then its records all settle. */
  lemma {:induction false} ReplayableCommitReplays(db: Db, ws: seq<Write>)
    ensures ReplaysThroughout(db, ws) <==> Replayable(db, ws)
    ensures Replayable(db, ws) ==>
              CommitWrites(db, ws) == (Replay(db, LoggedOps(ws)), true) && AllSettle(db, LoggedOps(ws))
    decreases |ws|
  {
    hide ReplayOp, ApplyWrite, IsUpsert, RowAt;
    if ws != [] {
      assert LoggedOps(ws)[1..] == LoggedOps(ws[1..]);
      if ApplyWrite(db, ws[0]).Some? {
        LoggedWriteReplays(db, ws[0]);
        if !(IsUpsert(db, ws[0]) && RowAt(db, ws[0].table, ws[0].row.key) != Some(ws[0].row.columns)) {
          LoggedWriteSettles(db, ws[0]);
        }
        ReplayableCommitReplays(ApplyWrite(db, ws[0]).value, ws[1..]);
      }
    }
  }

  lemma LoggedWriteSettles(db: Db, w: Write)
    requires ApplyWrite(db, w).Some?
    requires !(IsUpsert(db, w) && RowAt(db, w.table, w.row.key) != Some(w.row.columns))
    ensures Settles(db, LoggedOp(w))
  {
  }

  lemma {:induction false} CommitConcat(db: Db, a: seq<Write>, b: seq<Write>)
    ensures CommitWrites(db, a).1 ==> CommitWrites(db, a + b) == CommitWrites(CommitWrites(db, a).0, b)
    ensures !CommitWrites(db, a).1 ==> CommitWrites(db, a + b) == CommitWrites(db, a)
    decreases |a|
  {
    hide ApplyWrite;
    if a == [] {
      assert a + b == b;
    } else {
      assert (a + b)[1..] == a[1..] + b;
      if ApplyWrite(db, a[0]).Some? {
        CommitConcat(ApplyWrite(db, a[0]).value, a[1..], b);
      }
    }
  }

  /** The write is to this row. */
  predicate Touches(w: Write, table: Blob, key: Blob) {
    w.table == table && w.row.key == key
  }

  /** The row an applied write leaves: none for a delete. */
  function Effect(w: Write): Option<Columns> {
    if w.op.DELETE_OP? then None else Some(w.row.columns)
  }

  lemma ApplyLeavesOthers(db: Db, w: Write, t: Blob, k: Blob)
    requires ApplyWrite(db, w).Some?
    ensures ApplyWrite(db, w).value.Keys == db.Keys
    ensures RowAt(ApplyWrite(db, w).value, t, k) == if Touches(w, t, k) then Effect(w) else RowAt(db, t, k)
  {
  }

  /** How many writes Commit's loop applies: those before the first that fails. */
  function Applied(db: Db, ws: seq<Write>): (n: nat)
    ensures n <= |ws|
    decreases |ws|
  {
    if ws == [] || ApplyWrite(db, ws[0]).None? then 0 else 1 + Applied(ApplyWrite(db, ws[0]).value, ws[1..])
  }

  /** What a row becomes under the writes that touch it. */
  function RowAfter(start: Option<Columns>, ws: seq<Write>, t: Blob, k: Blob): Option<Columns>
    decreases |ws|
  {
    if ws == [] then start
    else RowAfter(if Touches(ws[0], t, k) then Effect(ws[0]) else start, ws[1..], t, k)
  }

  /** A commit, failed or not, changes each row by the applied writes that touch it and nothing else. */
  lemma {:induction false} CommittedRow(db: Db, ws: seq<Write>, t: Blob, k: Blob)
    ensures RowAt(CommitWrites(db, ws).0, t, k) == RowAfter(RowAt(db, t, k), ws[..Applied(db, ws)], t, k)
    ensures CommitWrites(db, ws).0.Keys == db.Keys
    ensures CommitWrites(db, ws).1 <==> Applied(db, ws) == |ws|
    decreases |ws|
  {
    hide ApplyWrite, RowAt, Touches, Effect;
    if ws != [] && ApplyWrite(db, ws[0]).Some? {
      var db' := ApplyWrite(db, ws[0]).value;
      ApplyLeavesOthers(db, ws[0], t, k);
      CommittedRow(db', ws[1..], t, k);
      assert ws[..Applied(db, ws)][1..] == ws[1..][..Applied(db', ws[1..])];
    }
  }

  lemma {:induction false} UntouchedRow(start: Option<Columns>, ws: seq<Write>, t: Blob, k: Blob)
    requires forall i :: 0 <= i < |ws| ==> !Touches(ws[i], t, k)
    ensures RowAfter(start, ws, t, k) == start
    decreases |ws|
  {
    if ws != [] {
      UntouchedRow(start, ws[1..], t, k);
    }
  }

  /** Every row an applied write touches ends as it was. */
  predicate Restores(db: Db, ws: seq<Write>) {
    var done := ws[..Applied(db, ws)];
    forall i :: 0 <= i < |done| ==>
      RowAfter(RowAt(db, done[i].table, done[i].row.key), done, done[i].table, done[i].row.key)
      == RowAt(db, done[i].table, done[i].row.key)
  }

  /**
   A commit leaves the tables as they were exactly when the writes before the first failing one, taken
   together, put back every row they touch. For a failed commit nothing else undoes them.
   */
  lemma CommitLeavesTables(db: Db, ws: seq<Write>)
    ensures CommitWrites(db, ws).0 == db <==> Restores(db, ws)
  {
    hide ApplyWrite, RowAfter, Touches, Effect, CommitWrites;
    var after, done := CommitWrites(db, ws).0, ws[..Applied(db, ws)];
    if after == db {
      forall i | 0 <= i < |done|
        ensures RowAfter(RowAt(db, done[i].table, done[i].row.key), done, done[i].table, done[i].row.key)
                == RowAt(db, done[i].table, done[i].row.key)
      {
        CommittedRow(db, ws, done[i].table, done[i].row.key);
      }
    }
    if Restores(db, ws) {
      CommittedRow(db, ws, [], []);
      forall t: Blob, k: Blob ensures RowAt(after, t, k) == RowAt(db, t, k) {
        CommittedRow(db, ws, t, k);
        RestoredRow(db, ws, t, k);
      }
      SameTables(after, db);
    }
  }

  lemma RestoredRow(db: Db, ws: seq<Write>, t: Blob, k: Blob)
    requires Restores(db, ws)
    ensures RowAfter(RowAt(db, t, k), ws[..Applied(db, ws)], t, k) == RowAt(db, t, k)
  {
    hide ApplyWrite, RowAt, RowAfter, Effect;
    var done := ws[..Applied(db, ws)];
    if i :| 0 <= i < |done| && Touches(done[i], t, k) {
      assert done[i].table == t && done[i].row.key == k;
    } else {
      UntouchedRow(RowAt(db, t, k), done, t, k);
    }
  }

  /** A failed commit can leave the tables ahead of the log: this one applied a row and logged nothing. */
  lemma FailedCommitLeavesWrites()
    ensures exists db, ws :: !CommitWrites(db, ws).1 && CommitWrites(db, ws).0 != db
  {
    var t: Blob, k: Blob := [1], [2];
    var db: Db := map[t := map[]];
    var ws := [Write(INSERT_OP, t, Row(k, map[])), Write(DELETE_OP, t, Row([3], map[]))];
    var db' := PutRow(db, t, k, map[]);
    assert ApplyWrite(db, ws[0]) == Some(db');
    assert ApplyWrite(db', ws[1]).None?;
    assert ws[1..][0] == ws[1];
    assert CommitWrites(db', ws[1..]) == (db', false);
    assert CommitWrites(db, ws) == (db', false);
    assert RowAt(db', t, k) != RowAt(db, t, k);
  }

  // ---- Recovery of DROP_TABLE ----

  /** The tables whose replayed DROP_TABLE finds them, each of which appends a fresh DROP_TABLE record. */
  function Redropped(db: Db, ops: seq<Op>): seq<Op>
    decreases |ops|
  {
    if ops == [] then []
    else
      (if ops[0].DropOp? && ops[0].table in db then [ops[0]] else []) + Redropped(ReplayOp(db, ops[0]), ops[1..])
  }

  lemma {:induction false} RedroppedConcat(db: Db, a: seq<Op>, b: seq<Op>)
    ensures Redropped(db, a + b) == Redropped(db, a) + Redropped(Replay(db, a), b)
    decreases |a|
  {
    hide ReplayOp;
    if a == [] {
      assert a + b == b;
    } else {
      assert (a + b)[1..] == a[1..] + b;
      RedroppedConcat(ReplayOp(db, a[0]), a[1..], b);
    }
  }

  predicate OnlyDrops(ops: seq<Op>) {
    forall i :: 0 <= i < |ops| ==> ops[i].DropOp?
  }

  lemma {:induction false} RedroppedAreDrops(db: Db, ops: seq<Op>)
    ensures OnlyDrops(Redropped(db, ops))
    ensures (forall i :: 0 <= i < |ops| ==> !ops[i].DropOp?) ==> Redropped(db, ops) == []
    decreases |ops|
  {
    if ops != [] {
      RedroppedAreDrops(ReplayOp(db, ops[0]), ops[1..]);
    }
  }

  lemma {:induction false} ReplayDrops(db: Db, drops: seq<Op>)
    requires OnlyDrops(drops)
    ensures Replay(db, drops) == db - set i | 0 <= i < |drops| :: drops[i].table
    decreases |drops|
  {
    var gone := set i | 0 <= i < |drops| :: drops[i].table;
    if drops != [] {
      var rest := drops[1..];
      var others := set i | 0 <= i < |rest| :: rest[i].table;
      ReplayDrops(db - {drops[0].table}, rest);
      assert gone == {drops[0].table} + others by {
        forall t | t in gone ensures t in {drops[0].table} + others {
          var i :| 0 <= i < |drops| && drops[i].table == t;
          assert i > 0 ==> rest[i - 1].table == t;
        }
        forall t | t in others ensures t in gone {
          var i :| 0 <= i < |rest| && rest[i].table == t;
          assert drops[i + 1].table == t;
        }
      }
      assert db - {drops[0].table} - others == db - gone;
    }
  }

  /**
   A second recovery, which replays the appended DROP_TABLE records too, gives the same tables
   exactly when no table it dropped on the way was created again.
   */
  lemma SecondRecoveryAgrees(db: Db, ops: seq<Op>)
    ensures Replay(db, ops + Redropped(db, ops)) == Replay(db, ops)
            <==> forall i :: 0 <= i < |Redropped(db, ops)| ==> Redropped(db, ops)[i].table !in Replay(db, ops)
  {
    hide ReplayOp;
    var drops := Redropped(db, ops);
    var once := Replay(db, ops);
    ReplayConcat(db, ops, drops);
    RedroppedAreDrops(db, ops);
    ReplayDrops(once, drops);
    var gone := set i | 0 <= i < |drops| :: drops[i].table;
    if forall i :: 0 <= i < |drops| ==> drops[i].table !in once {
      assert once - gone == once;
    } else {
      var i :| 0 <= i < |drops| && drops[i].table in once;
      assert drops[i].table in gone;
      assert drops[i].table !in once - gone;
    }
  }

  /** A table created, dropped and created again is lost by a second recovery. */
  lemma RecreatedTableLost()
    ensures exists db, ops :: AllSucceed(db, ops) && Replay(db, ops + Redropped(db, ops)) != Replay(db, ops)
  {
    var t: Blob := [1];
    var create, drop := CreateOp(t, [0]), DropOp(t);
    var ops := [create, drop, create];
    var none: Db, one: Db := map[], map[t := map[]];
    assert ops[1..] == [drop, create] && [drop, create][1..] == [create] && [create][1..] == [];
    assert ReplayOp(none, create) == one && ReplayOp(one, drop) == none;
    assert Replay(one, []) == one && Replay(none, [create]) == one && Replay(one, [drop, create]) == one;
    assert Replay(none, ops) == one;
    assert Redropped(one, []) == [] && Redropped(none, [create]) == [];
    assert Redropped(one, [drop, create]) == [drop] && Redropped(none, ops) == [drop];
    assert AllSucceed(one, []) && AllSucceed(none, [create]) && AllSucceed(one, [drop, create]);
    assert AllSucceed(none, ops);
    assert Redropped(none, ops)[0].table in Replay(none, ops);
    SecondRecoveryAgrees(none, ops);
  }

  /** Dropping again tables that are not there changes nothing. */
  lemma DropsOfAbsent(db: Db, drops: seq<Op>)
    requires OnlyDrops(drops) && forall i :: 0 <= i < |drops| ==> drops[i].table !in db
    ensures Replay(db, drops) == db && AllSettle(db, drops)
  {
    ReplayDrops(db, drops);
    var gone := set i | 0 <= i < |drops| :: drops[i].table;
    assert db - gone == db;
    DropsSettle(db, drops);
  }

  lemma {:induction false} DropsSettle(db: Db, drops: seq<Op>)
    requires OnlyDrops(drops)
    ensures AllSettle(db, drops)
    decreases |drops|
  {
    if drops != [] {
      DropsSettle(ReplayOp(db, drops[0]), drops[1..]);
    }
  }

  // ---- Log entries ----

  /** The entry is what the engine writes for the operation, for some enumeration of the row's columns. */
  ghost predicate Records(e: Entry, op: Op) {
    && e.table == op.table
    && match op
       case CreateOp(_, schema) => e.kind == CREATE_TABLE && e.data == schema && schema != []
       case DropOp(_) => e.kind == DROP_TABLE
       case InsertOp(_, row) => e.kind == INSERT && e.key == row.key && RowData(e.data, row)
       case UpdateOp(_, k, row) => e.kind == UPDATE && e.key == k && row.key == k && RowData(e.data, row)
       case DeleteOp(_, k) => e.kind == DELETE && e.key == k
  }

  ghost predicate RowData(data: Blob, row: Row) {
    exists items :: Enumerates(items, row.columns) && data == RowBytes(row.key, items)
  }

  /** What RecoverFromWAL makes of an entry; None where it catches an exception or ignores the type. */
  function OpOf(e: Entry): Option<Op> {
    if e.kind == CREATE_TABLE then if e.data == [] then None else Some(CreateOp(e.table, e.data))
    else if e.kind == DROP_TABLE then Some(DropOp(e.table))
    else if e.kind == INSERT then
      var row :- RowOf(e.data); Some(InsertOp(e.table, row))
    else if e.kind == UPDATE then
      var row :- RowOf(e.data); Some(UpdateOp(e.table, e.key, row))
    else if e.kind == DELETE then Some(DeleteOp(e.table, e.key))
    else None
  }

  function OpsOf(es: seq<Entry>): seq<Op>
    decreases |es|
  {
    if es == [] then []
    else (match OpOf(es[0]) case Some(op) => [op] case None => []) + OpsOf(es[1..])
  }

  lemma RecordedOpReadBack(e: Entry, op: Op)
    requires Records(e, op) && Loggable(e)
    ensures OpOf(e) == Some(op)
  {
    hide RowBytes, RowOf, RowFits, Enumerates, RecordBytes;
    RecordSize(e);
    LoggableSize(e);
    if op.InsertOp? || op.UpdateOp? {
      var items :| Enumerates(items, op.row.columns) && e.data == RowBytes(op.row.key, items);
      ShortRowFits(op.row, items);
      RowRoundTrip(op.row, items);
    }
  }

  ghost predicate RecordsAll(es: seq<Entry>, ops: seq<Op>) {
    |es| == |ops| && forall i :: 0 <= i < |es| ==> Records(es[i], ops[i])
  }

  lemma {:induction false} RecordedOpsReadBack(es: seq<Entry>, ops: seq<Op>)
    requires RecordsAll(es, ops) && AllLoggable(es)
    ensures OpsOf(es) == ops
    decreases |es|
  {
    hide Records, Loggable, OpOf;
    if es != [] {
      RecordedOpReadBack(es[0], ops[0]);
      RecordedOpsReadBack(es[1..], ops[1..]);
    }
  }

  /** The tables after Initialize: the snapshot if there is one, then the readable log on top. */
  function Recover(snapshot: Option<Db>, file: Blob): Db {
    Replay(if snapshot.Some? then snapshot.value else map[], OpsOf(ReadLog(file)))
  }
}
