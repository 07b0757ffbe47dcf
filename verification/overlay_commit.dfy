/** Committing what a reducer staged, and why later reads agree with the call's own (src/wasm/host_functions.cpp). */
module OverlayCommits {
  import opened Wrappers
  import opened Bytes
  import opened Ordering
  import opened RowCodec
  import opened Tables
  import opened MemTables
  import opened Overlays
  import Transactions
  import Engine

  // ---- What is staged ----

  predicate HasWrite(staged: Staged) {
    exists k :: k in staged && staged[k].Some?
  }

  /** The tables once the missing ones that are written to have been created. */
  function AutoCreated(db: Db, overlay: map<Blob, Staged>): Db {
    map t | t in db.Keys + overlay.Keys && (t in db || HasWrite(overlay[t])) :: if t in db then db[t] else map[]
  }

  /** The write staged for one overlay entry: an object for a key that exists now is an UPDATE. */
  function WriteFor(db: Db, t: Blob, k: Blob, value: Option<Fields>): Write {
    match value
    case None => Write(DELETE_OP, t, Row(k, map[]))
    case Some(fields) =>
      Write(if RowAt(db, t, k).Some? then UPDATE_OP else INSERT_OP, t, Row(k, ColumnsOf(fields)))
  }

  function StagedFor(db: Db, t: Blob, keys: seq<Blob>, staged: Staged): (ws: seq<Write>)
    requires forall k :: k in keys ==> k in staged
    ensures |ws| == |keys|
  {
    seq(|keys|, i requires 0 <= i < |keys| => WriteFor(db, t, keys[i], staged[keys[i]]))
  }

  function StagedAll(db: Db, tables: seq<Blob>, overlay: map<Blob, Staged>): seq<Write>
    requires forall t :: t in tables ==> t in overlay
    decreases |tables|
  {
    if tables == [] then []
    else
      var t := tables[|tables| - 1];
      StagedAll(db, tables[..|tables| - 1], overlay) + StagedFor(db, t, Ordered(overlay[t].Keys), overlay[t])
  }

  /** What CommitHostCall stages, in table and key order. */
  function StagedWrites(db: Db, overlay: map<Blob, Staged>): seq<Write> {
    StagedAll(db, Ordered(overlay.Keys), overlay)
  }

  predicate DistinctTargets(ws: seq<Write>) {
    forall i, j :: 0 <= i < j < |ws| ==> ws[i].table != ws[j].table || ws[i].row.key != ws[j].row.key
  }

  /** The write is the one an overlay entry of one of the tables stages. */
  predicate FromOverlay(db: Db, w: Write, tables: seq<Blob>, overlay: map<Blob, Staged>) {
    && w.table in tables && w.table in overlay && w.row.key in overlay[w.table]
    && w == WriteFor(db, w.table, w.row.key, overlay[w.table][w.row.key])
  }

  predicate Targets(ws: seq<Write>, t: Blob, k: Blob) {
    exists i :: 0 <= i < |ws| && Touches(ws[i], t, k)
  }

  lemma StagedForEntries(db: Db, t: Blob, overlay: map<Blob, Staged>)
    requires t in overlay
    ensures var ws := StagedFor(db, t, Ordered(overlay[t].Keys), overlay[t]);
            && DistinctTargets(ws)
            && (forall i :: 0 <= i < |ws| ==> FromOverlay(db, ws[i], [t], overlay))
            && forall k :: k in overlay[t] ==> Targets(ws, t, k)
  {
    hide WriteFor, Ordered;
    var keys := Ordered(overlay[t].Keys);
    var ws := StagedFor(db, t, keys, overlay[t]);
    OrderedAscends(overlay[t].Keys);
    forall i | 0 <= i < |ws| ensures ws[i].table == t && ws[i].row.key == keys[i] {
      WriteTarget(db, t, keys[i], overlay[t][keys[i]]);
      assert keys[i] in keys;
    }
    forall i, j | 0 <= i < j < |ws| ensures ws[i].row.key != ws[j].row.key {
      LessTotal(keys[i], keys[j]);
    }
    forall k | k in overlay[t] ensures Targets(ws, t, k) {
      assert k in keys;
      var i :| 0 <= i < |keys| && keys[i] == k;
      assert Touches(ws[i], t, k);
    }
  }

  lemma WriteTarget(db: Db, t: Blob, k: Blob, value: Option<Fields>)
    ensures WriteFor(db, t, k, value).table == t && WriteFor(db, t, k, value).row.key == k
  {
  }

  /** The staged writes are the overlay's entries, one write each. */
  lemma {:induction false} StagedAllEntries(db: Db, tables: seq<Blob>, overlay: map<Blob, Staged>)
    requires Ascending(tables) && forall t :: t in tables ==> t in overlay
    ensures DistinctTargets(StagedAll(db, tables, overlay))
    ensures var ws := StagedAll(db, tables, overlay);
            forall i :: 0 <= i < |ws| ==> FromOverlay(db, ws[i], tables, overlay)
    ensures forall t, k :: t in tables && k in overlay[t] ==> Targets(StagedAll(db, tables, overlay), t, k)
    decreases |tables|
  {
    hide StagedFor, Ordered, WriteFor;
    if tables != [] {
      var before, t := tables[..|tables| - 1], tables[|tables| - 1];
      assert tables == before + [t];
      var first := StagedAll(db, before, overlay);
      var last := StagedFor(db, t, Ordered(overlay[t].Keys), overlay[t]);
      StagedAllEntries(db, before, overlay);
      StagedForEntries(db, t, overlay);
      forall u | u in before ensures u != t {
        LessTotal(u, t);
      }
      EntriesJoin(db, first, last, before, t, overlay);
    }
  }

  lemma EntriesJoin(
      db: Db, first: seq<Write>, last: seq<Write>, before: seq<Blob>, t: Blob, overlay: map<Blob, Staged>)
    requires t !in before && t in overlay && forall u :: u in before ==> u in overlay
    requires DistinctTargets(first) && DistinctTargets(last)
    requires forall i :: 0 <= i < |first| ==> FromOverlay(db, first[i], before, overlay)
    requires forall i :: 0 <= i < |last| ==> FromOverlay(db, last[i], [t], overlay)
    requires forall u, k :: u in before && k in overlay[u] ==> Targets(first, u, k)
    requires forall k :: k in overlay[t] ==> Targets(last, t, k)
    ensures DistinctTargets(first + last)
    ensures forall i :: 0 <= i < |first + last| ==> FromOverlay(db, (first + last)[i], before + [t], overlay)
    ensures forall u, k :: u in before + [t] && k in overlay[u] ==> Targets(first + last, u, k)
  {
    hide WriteFor;
    var all := first + last;
    forall i | 0 <= i < |all|
      ensures FromOverlay(db, all[i], before + [t], overlay)
      ensures i < |first| ==> all[i].table in before
      ensures i >= |first| ==> all[i].table == t
    {
      if i < |first| {
        assert FromOverlay(db, first[i], before, overlay);
      } else {
        assert FromOverlay(db, last[i - |first|], [t], overlay);
      }
    }
    forall u, k | u in before + [t] && k in overlay[u] ensures Targets(all, u, k) {
      if u in before {
        var i :| 0 <= i < |first| && Touches(first[i], u, k);
        assert Touches(all[i], u, k);
      } else {
        var i :| 0 <= i < |last| && Touches(last[i], u, k);
        assert Touches(all[|first| + i], u, k);
      }
    }
  }

  lemma ApplicableOnOwnRow(db: Db, w: Write)
    ensures ApplyWrite(db, w).Some? <==>
            w.table in db && (w.op.INSERT_OP? || RowAt(db, w.table, w.row.key).Some?)
  {
  }

  /** Writes of distinct keys commit together exactly when each could be applied alone, and none disturbs another. */
  lemma {:induction false} CommitDistinct(db: Db, ws: seq<Write>, t: Blob, k: Blob)
    requires DistinctTargets(ws)
    ensures CommitWrites(db, ws).1 <==> forall i :: 0 <= i < |ws| ==> ApplyWrite(db, ws[i]).Some?
    ensures CommitWrites(db, ws).1 ==>
              && CommitWrites(db, ws).0.Keys == db.Keys
              && (forall i :: 0 <= i < |ws| && Touches(ws[i], t, k) ==>
                    RowAt(CommitWrites(db, ws).0, t, k) == Effect(ws[i]))
              && (!Targets(ws, t, k) ==> RowAt(CommitWrites(db, ws).0, t, k) == RowAt(db, t, k))
    decreases |ws|
  {
    hide ApplyWrite, RowAt;
    if ws != [] && ApplyWrite(db, ws[0]).Some? {
      var db', rest := ApplyWrite(db, ws[0]).value, ws[1..];
      assert forall i :: 0 <= i < |rest| ==> rest[i] == ws[i + 1];
      CommitDistinct(db', rest, t, k);
      ApplyLeavesOthers(db, ws[0], t, k);
      forall i | 0 < i < |ws| ensures ApplyWrite(db', ws[i]).Some? <==> ApplyWrite(db, ws[i]).Some? {
        ApplyLeavesOthers(db, ws[0], ws[i].table, ws[i].row.key);
        ApplicableOnOwnRow(db, ws[i]);
        ApplicableOnOwnRow(db', ws[i]);
      }
      if Targets(rest, t, k) {
        var i :| 0 <= i < |rest| && Touches(rest[i], t, k);
        assert Touches(ws[i + 1], t, k);
      } else if CommitWrites(db, ws).1 {
        forall i | 0 < i < |ws| ensures !Touches(ws[i], t, k) {
          assert ws[i] == rest[i - 1];
        }
        assert !Touches(ws[0], t, k) ==> !Targets(ws, t, k);
      }
    }
  }

  /** Every staged delete is of a key that exists. */
  predicate DeletesExist(db: Db, overlay: map<Blob, Staged>) {
    forall t, k :: t in overlay && k in overlay[t] && overlay[t][k].None? ==> RowAt(db, t, k).Some?
  }

  /** The rows after the call, entry by entry. */
  function Outcome(db: Db, overlay: map<Blob, Staged>, t: Blob, k: Blob): Option<Columns> {
    if t in overlay && k in overlay[t] then
      match overlay[t][k]
      case None => None
      case Some(fields) => Some(ColumnsOf(fields))
    else RowAt(db, t, k)
  }

  lemma EntryApplies(db: Db, overlay: map<Blob, Staged>, t: Blob, k: Blob)
    requires t in overlay && k in overlay[t]
    ensures var w := WriteFor(AutoCreated(db, overlay), t, k, overlay[t][k]);
            && (ApplyWrite(AutoCreated(db, overlay), w).Some? <==>
                  (overlay[t][k].None? ==> RowAt(db, t, k).Some?))
            && Effect(w) == Outcome(db, overlay, t, k)
  {
    hide ColumnsOf;
    CreatedRow(db, overlay, t, k);
    var w := WriteFor(AutoCreated(db, overlay), t, k, overlay[t][k]);
    ApplicableOnOwnRow(AutoCreated(db, overlay), w);
    assert overlay[t][k].Some? ==> HasWrite(overlay[t]);
  }

  lemma CreatedRow(db: Db, overlay: map<Blob, Staged>, t: Blob, k: Blob)
    ensures RowAt(AutoCreated(db, overlay), t, k) == RowAt(db, t, k)
  {
  }

  lemma StagedEntries(db: Db, overlay: map<Blob, Staged>)
    ensures var ws := StagedWrites(db, overlay);
            && DistinctTargets(ws)
            && (forall i :: 0 <= i < |ws| ==> FromOverlay(db, ws[i], Ordered(overlay.Keys), overlay))
            && forall t, k :: t in overlay && k in overlay[t] ==> Targets(ws, t, k)
  {
    hide Ordered, StagedAll, FromOverlay, Targets;
    OrderedAscends(overlay.Keys);
    StagedAllEntries(db, Ordered(overlay.Keys), overlay);
  }

  lemma StagedApplies(db: Db, overlay: map<Blob, Staged>, w: Write, tables: seq<Blob>)
    requires FromOverlay(AutoCreated(db, overlay), w, tables, overlay)
    ensures ApplyWrite(AutoCreated(db, overlay), w).Some? <==>
              (overlay[w.table][w.row.key].None? ==> RowAt(db, w.table, w.row.key).Some?)
  {
    hide AutoCreated, ApplyWrite, WriteFor, RowAt;
    EntryApplies(db, overlay, w.table, w.row.key);
  }

  lemma AllDeletesExist(db: Db, overlay: map<Blob, Staged>)
    requires DeletesExist(db, overlay)
    ensures var db' := AutoCreated(db, overlay);
            CommitWrites(db', StagedWrites(db', overlay)).1
  {
    hide Ordered, StagedWrites, AutoCreated, ApplyWrite, WriteFor, RowAt, DistinctTargets, CommitWrites, Targets;
    var db' := AutoCreated(db, overlay);
    var ws := StagedWrites(db', overlay);
    StagedEntries(db', overlay);
    CommitDistinct(db', ws, [], []);
    forall i | 0 <= i < |ws| ensures ApplyWrite(db', ws[i]).Some? {
      StagedApplies(db, overlay, ws[i], Ordered(overlay.Keys));
    }
  }

  lemma DeleteMissing(db: Db, overlay: map<Blob, Staged>, t: Blob, k: Blob)
    requires t in overlay && k in overlay[t] && overlay[t][k].None? && RowAt(db, t, k).None?
    ensures var db' := AutoCreated(db, overlay);
            !CommitWrites(db', StagedWrites(db', overlay)).1
  {
    hide Ordered, StagedWrites, AutoCreated, ApplyWrite, RowAt, DistinctTargets, CommitWrites, WriteFor;
    var db' := AutoCreated(db, overlay);
    var ws := StagedWrites(db', overlay);
    StagedEntries(db', overlay);
    CommitDistinct(db', ws, [], []);
    assert Targets(ws, t, k);
    var i :| 0 <= i < |ws| && Touches(ws[i], t, k);
    StagedApplies(db, overlay, ws[i], Ordered(overlay.Keys));
  }

  /** With no concurrent commit, the call commits exactly when every staged delete finds its key. */
  lemma CommitSucceeds(db: Db, overlay: map<Blob, Staged>)
    ensures var db' := AutoCreated(db, overlay);
            CommitWrites(db', StagedWrites(db', overlay)).1 <==> DeletesExist(db, overlay)
  {
    hide StagedWrites, AutoCreated, RowAt, CommitWrites;
    if DeletesExist(db, overlay) {
      AllDeletesExist(db, overlay);
    } else {
      var t, k :| t in overlay && k in overlay[t] && overlay[t][k].None? && RowAt(db, t, k).None?;
      DeleteMissing(db, overlay, t, k);
    }
  }

  lemma {:induction false} GenuineDistinct(db: Db, ws: seq<Write>)
    requires DistinctTargets(ws)
    requires forall i :: 0 <= i < |ws| ==> ApplyWrite(db, ws[i]).Some? && !IsUpsert(db, ws[i])
    ensures Genuine(db, ws)
    decreases |ws|
  {
    hide ApplyWrite, RowAt;
    if ws != [] {
      var db', rest := ApplyWrite(db, ws[0]).value, ws[1..];
      forall i | 0 <= i < |rest| ensures ApplyWrite(db', rest[i]).Some? && !IsUpsert(db', rest[i]) {
        assert rest[i] == ws[i + 1];
        ApplyLeavesOthers(db, ws[0], rest[i].table, rest[i].row.key);
        ApplicableOnOwnRow(db, rest[i]);
        ApplicableOnOwnRow(db', rest[i]);
      }
      GenuineDistinct(db', rest);
    }
  }

  /** A call that commits never inserts over a key, so its commit is replayed and published as what it does. */
  lemma StagedGenuine(db: Db, overlay: map<Blob, Staged>)
    requires DeletesExist(db, overlay)
    ensures var db' := AutoCreated(db, overlay);
            Genuine(db', StagedWrites(db', overlay))
  {
    hide Ordered, StagedWrites, AutoCreated, ApplyWrite, RowAt, DistinctTargets, Targets;
    var db' := AutoCreated(db, overlay);
    var ws := StagedWrites(db', overlay);
    StagedEntries(db', overlay);
    forall i | 0 <= i < |ws| ensures ApplyWrite(db', ws[i]).Some? && !IsUpsert(db', ws[i]) {
      StagedApplies(db, overlay, ws[i], Ordered(overlay.Keys));
    }
    GenuineDistinct(db', ws);
  }

  lemma CommittedRow(db: Db, overlay: map<Blob, Staged>, t: Blob, k: Blob)
    requires DeletesExist(db, overlay)
    ensures var db' := AutoCreated(db, overlay);
            RowAt(CommitWrites(db', StagedWrites(db', overlay)).0, t, k) == Outcome(db, overlay, t, k)
  {
    hide Ordered, StagedWrites, AutoCreated, ApplyWrite, WriteFor, RowAt, Effect, DeletesExist, ColumnsOf;
    var db' := AutoCreated(db, overlay);
    var ws := StagedWrites(db', overlay);
    CommitSucceeds(db, overlay);
    StagedEntries(db', overlay);
    CommitDistinct(db', ws, t, k);
    if Targets(ws, t, k) {
      var i :| 0 <= i < |ws| && Touches(ws[i], t, k);
      assert FromOverlay(db', ws[i], Ordered(overlay.Keys), overlay);
      EntryApplies(db, overlay, t, k);
    } else {
      CreatedRow(db, overlay, t, k);
    }
  }

  function RowsOf(db: Db, t: Blob): map<Blob, Columns> {
    if t in db then db[t] else map[]
  }

  function StagedOf(overlay: map<Blob, Staged>, t: Blob): Staged {
    if t in overlay then overlay[t] else map[]
  }

  predicate FlatWrites(staged: Staged) {
    forall k :: k in staged && staged[k].Some? ==> AllFlat(staged[k].value)
  }

  /**
   After a successful commit the table shows exactly what the call saw of it just before committing,
   if and only if every object the call staged in the table is flat.
   */
  lemma OverlayAgreement(db: Db, overlay: map<Blob, Staged>, t: Blob, widen: uint32 -> uint64)
    requires DeletesExist(db, overlay)
    ensures var db' := AutoCreated(db, overlay);
            var after := CommitWrites(db', StagedWrites(db', overlay)).0;
            Visible(RowsOf(after, t), map[], widen) == Visible(RowsOf(db, t), StagedOf(overlay, t), widen)
            <==> FlatWrites(StagedOf(overlay, t))
  {
    hide Ordered, StagedWrites, AutoCreated, CommitWrites, ObjectOf, AllFlat, ColumnsOf, DeletesExist;
    var db' := AutoCreated(db, overlay);
    var after := CommitWrites(db', StagedWrites(db', overlay)).0;
    var staged := StagedOf(overlay, t);
    var now := Visible(RowsOf(after, t), map[], widen);
    var inside := Visible(RowsOf(db, t), staged, widen);
    forall k ensures k in now <==> k in inside
      ensures k in now && !(k in staged && !AllFlat(staged[k].value)) ==> now[k] == inside[k]
      ensures k in staged && staged[k].Some? ==>
                k in now && (now[k] == inside[k] <==> AllFlat(staged[k].value))
    {
      CommittedRow(db, overlay, t, k);
      if k in staged && staged[k].Some? {
        ObjectRoundTrip(staged[k].value, widen);
      }
    }
    if FlatWrites(staged) {
      assert now == inside;
    }
  }

  /** So cached reads and scans after the commit answer what they answered inside the call. */
  lemma ReadsAndScansAgree(
      db: Db, overlay: map<Blob, Staged>, t: Blob, widen: uint32 -> uint64, dump: Fields -> Text,
      prefix: Blob, limit: int)
    requires DeletesExist(db, overlay) && FlatWrites(StagedOf(overlay, t))
    ensures var db' := AutoCreated(db, overlay);
            var after := CommitWrites(db', StagedWrites(db', overlay)).0;
            var now := VisibleText(RowsOf(after, t), map[], widen, dump);
            var inside := VisibleText(RowsOf(db, t), StagedOf(overlay, t), widen, dump);
            now == inside && FirstRows(now, prefix, ScanLimit(limit)) == FirstRows(inside, prefix, ScanLimit(limit))
  {
    hide StagedWrites, AutoCreated, CommitWrites, FirstRows, Visible, DeletesExist, FlatWrites;
    OverlayAgreement(db, overlay, t, widen);
  }

  // ---- The commit, step by step ----

  /** The serialised schema of a new table. */
  type SchemaText = s: Blob | s != [] witness [0]

  /** AutoCreated, with only some of the overlay's tables looked at. */
  function CreatedFor(db: Db, overlay: map<Blob, Staged>, tables: seq<Blob>): Db
    requires forall t :: t in tables ==> t in overlay
  {
    map t | t in db.Keys + KeySet(tables) && (t in db || HasWrite(overlay[t])) :: if t in db then db[t] else map[]
  }

  lemma CreatedOne(db: Db, overlay: map<Blob, Staged>, tables: seq<Blob>, t: Blob)
    requires t in overlay && forall u :: u in tables ==> u in overlay
    ensures var before := CreatedFor(db, overlay, tables);
            CreatedFor(db, overlay, tables + [t])
            == if t !in before && HasWrite(overlay[t]) then before[t := map[]] else before
  {
    hide HasWrite;
  }

  lemma CreatedBounds(db: Db, overlay: map<Blob, Staged>)
    ensures CreatedFor(db, overlay, []) == db
    ensures CreatedFor(db, overlay, Ordered(overlay.Keys)) == AutoCreated(db, overlay)
  {
    hide HasWrite, Ordered;
    assert KeySet(Ordered(overlay.Keys)) == overlay.Keys && KeySet([]) == {};
    CreatedNone(db, overlay);
  }

  lemma CreatedNone(db: Db, overlay: map<Blob, Staged>)
    ensures CreatedFor(db, overlay, []) == db
  {
    hide HasWrite;
  }

  /** The first staged object of a table in key order, which gives a new table its schema. */
  method FirstWrite(staged: Staged) returns (value: Option<Fields>)
    ensures value.Some? <==> HasWrite(staged)
  {
    var keys := Ordered(staged.Keys);
    for i := 0 to |keys|
      invariant forall j :: 0 <= j < i ==> staged[keys[j]].None?
    {
      assert keys[i] in keys;
      if staged[keys[i]].Some? {
        return staged[keys[i]];
      }
    }
    assert forall k :: k in staged ==> k in keys;
    return None;
  }

  method CreateMissing(
      storage: Engine.StorageEngine, overlay: map<Blob, Staged>, schemaOf: (Blob, Fields) -> SchemaText, now: uint64)
    requires storage.wal.Valid()
    modifies storage`tables, storage.wal
    ensures storage.wal.Valid()
    ensures storage.tables == AutoCreated(old(storage.tables), overlay)
  {
    hide Ordered, CreatedFor, HasWrite, AutoCreated;
    var tables := Ordered(overlay.Keys);
    ghost var db := storage.tables;
    CreatedBounds(db, overlay);
    for i := 0 to |tables|
      invariant storage.wal.Valid() && (i == 0 ==> tables[..i] == [])
      invariant forall t :: t in tables[..i] ==> t in overlay
      invariant storage.tables == CreatedFor(db, overlay, tables[..i])
    {
      var t := tables[i];
      assert t in tables && tables[..i + 1] == tables[..i] + [t];
      CreatedOne(db, overlay, tables[..i], t);
      if t !in storage.tables {
        var value := FirstWrite(overlay[t]);
        if value.Some? {
          var created := storage.CreateTable(t, schemaOf(t, value.value), now);
        }
      }
    }
    assert tables[..|tables|] == tables;
  }

  /** Stages the entries of one table. */
  method StageTable(storage: Engine.StorageEngine, txn: Transactions.Transaction, t: Blob, staged: Staged)
    requires txn.state == Transactions.ACTIVE
    modifies txn`writeSet
    ensures txn.writeSet == old(txn.writeSet) + StagedFor(storage.tables, t, Ordered(staged.Keys), staged)
  {
    hide Ordered, ColumnsOf;
    var keys := Ordered(staged.Keys);
    ghost var all := StagedFor(storage.tables, t, keys, staged);
    for i := 0 to |keys|
      invariant txn.writeSet == old(txn.writeSet) + all[..i]
    {
      var k := keys[i];
      assert k in keys;
      var ok;
      if staged[k].None? {
        ok := txn.Delete(t, k);
      } else {
        var row := Row(k, ColumnsOf(staged[k].value));
        if RowAt(storage.tables, t, k).Some? {
          ok := txn.Update(t, k, row);
        } else {
          ok := txn.Insert(t, row);
        }
      }
      assert all[..i + 1] == all[..i] + [all[i]];
    }
    assert all[..|keys|] == all;
  }

  /**
   CommitHostCall: creates the missing tables, stages every overlay entry, commits, and publishes the
   call's own events only if the commit succeeded.
   */
  method CommitHostCall(
      storage: Engine.StorageEngine, call: HostCallContext, schemaOf: (Blob, Fields) -> SchemaText,
      timestamp: uint64, now: uint64)
    returns (ok: bool, published: seq<StagedEvent>)
    requires storage.wal.Valid()
    modifies storage, storage.wal
    ensures storage.wal.Valid()
    ensures var db' := AutoCreated(old(storage.tables), call.overlay);
            var result := CommitWrites(db', StagedWrites(db', call.overlay));
            storage.tables == result.0 && (ok ==> result.1)
    ensures published == if ok then call.events else []
  {
    hide Ordered, AutoCreated, CommitWrites, StagedFor;
    if call.overlay != map[] {
      CreateMissing(storage, call.overlay, schemaOf, now);
      ghost var db' := storage.tables;
      var txn := new Transactions.Transaction(timestamp);
      var tables := Ordered(call.overlay.Keys);
      for i := 0 to |tables|
        invariant txn.state == Transactions.ACTIVE && storage.tables == db' && storage.wal.Valid()
        invariant forall t :: t in tables[..i] ==> t in call.overlay
        invariant txn.writeSet == StagedAll(db', tables[..i], call.overlay)
      {
        var t := tables[i];
        assert t in tables;
        assert tables[..i + 1][..i] == tables[..i];
        StageTable(storage, txn, t, call.overlay[t]);
      }
      assert tables[..|tables|] == tables;
      ok := storage.Commit(txn, now);
      if !ok {
        return false, [];
      }
    } else {
      NothingStaged(storage.tables);
    }
    return true, call.events;
  }

  lemma NothingStaged(db: Db)
    ensures AutoCreated(db, map[]) == db && CommitWrites(db, StagedWrites(db, map[])) == (db, true)
  {
  }
}
