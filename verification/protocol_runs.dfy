/** Concrete runs of the protocol that show why the guards of the durability theorem are there. */
module ProtocolRuns {
  import opened Wrappers
  import opened Bytes
  import opened RowCodec
  import opened Wal
  import opened Tables
  import opened Protocol
  import Snapshots

  // ---- Building runs ----

  lemma {:induction false} RunMore(s: State, actions: seq<Action>, a: Action)
    requires CleanRun(s, actions) && Enabled(RunFrom(s, actions), a) && Clean(RunFrom(s, actions), a)
    ensures CleanRun(s, actions + [a]) && RunFrom(s, actions + [a]) == Step(RunFrom(s, actions), a)
    decreases |actions|
  {
    hide Enabled, Clean, Step;
    if actions == [] {
      assert [a][1..] == [];
    } else {
      assert (actions + [a])[1..] == actions[1..] + [a];
      RunMore(Step(s, actions[0]), actions[1..], a);
    }
  }

  lemma NoRun(s: State)
    ensures CleanRun(s, []) && RunFrom(s, []) == s
  {
  }

  /** The state after the writer has drained, written, synced and acknowledged the whole queue. */
  ghost function AfterFlush(s: State): State {
    var file := s.file + LogBytes(Entries(s.queue));
    s.(queue := [], drained := [], unwritten := [], file := file, durable := |file|, acked := s.acked + Tickets(s.queue))
  }

  /** One turn of the writer, which never errs, extends a run. */
  lemma FlushRun(s: State, actions: seq<Action>) returns (more: seq<Action>)
    requires CleanRun(s, actions)
    requires RunFrom(s, actions).drained == [] && LogBytes(Entries(RunFrom(s, actions).queue)) != []
    ensures CleanRun(s, more) && RunFrom(s, more) == AfterFlush(RunFrom(s, actions))
  {
    hide CleanRun, RunFrom, Entries, LogBytes, Tickets;
    var s0 := RunFrom(s, actions);
    assert s0.queue != [] by { EmptyQueue(); }
    RunMore(s, actions, Drain);
    var s1 := Step(s0, Drain);
    var write := WriteChunk(|s1.unwritten|);
    RunMore(s, actions + [Drain], write);
    var s2 := Step(s1, write);
    assert s1.unwritten[..|s1.unwritten|] == s1.unwritten && s1.unwritten[|s1.unwritten|..] == [];
    RunMore(s, actions + [Drain] + [write], Sync);
    var s3 := Step(s2, Sync);
    more := actions + [Drain] + [write] + [Sync];
    RunMore(s, more, Ack);
    more := more + [Ack];
  }

  lemma EmptyQueue()
    ensures LogBytes(Entries([])) == []
  {
  }

  // ---- The operations of the runs ----

  const T: Blob := [1]
  const X: Blob := [2]
  const Y: Blob := [3]

  function NewRow(key: Blob): Row {
    Row(key, map[])
  }

  function CreateEntry(sequence: nat): Entry {
    Entry(CREATE_TABLE, sequence, 0, 0, T, [], [0])
  }

  function InsertEntry(sequence: nat, key: Blob): Entry {
    Entry(INSERT, sequence, 0, 0, T, key, RowBytes(key, []))
  }

  function DeleteEntry(sequence: nat, key: Blob): Entry {
    Entry(DELETE, sequence, 0, 0, T, key, [])
  }

  lemma EntriesRecord(n: nat, key: Blob)
    requires 0 < n < 100 && |key| == 1
    ensures Records(CreateEntry(n), CreateOp(T, [0])) && Loggable(CreateEntry(n))
    ensures Records(InsertEntry(n, key), InsertOp(T, NewRow(key))) && Loggable(InsertEntry(n, key))
    ensures Records(DeleteEntry(n, key), DeleteOp(T, key)) && Loggable(DeleteEntry(n, key))
  {
    hide RecordBytes, RowBytes;
    RecordSize(CreateEntry(n));
    RecordSize(InsertEntry(n, key));
    RecordSize(DeleteEntry(n, key));
    EmptyRowSize(key);
    assert Enumerates([], NewRow(key).columns);
    assert RowData(RowBytes(key, []), NewRow(key));
  }

  lemma EmptyRowSize(key: Blob)
    ensures |RowBytes(key, [])| <= |key| + 8
  {
  }

  /** A one-write commit by someone who logs it as `e`. */
  lemma CommitOne(s: State, actions: seq<Action>, w: Write, e: Entry)
    requires CleanRun(s, actions)
    requires RunFrom(s, actions).phase.Serving? && !RunFrom(s, actions).fatal
    requires ApplyWrite(RunFrom(s, actions).tables, w).Some? && !IsUpsert(RunFrom(s, actions).tables, w)
    requires Records(e, LoggedOp(w)) && Loggable(e) && e.sequence == RunFrom(s, actions).nextSequence
    ensures CleanRun(s, actions + [Commit([w], [e])])
    ensures RunFrom(s, actions + [Commit([w], [e])])
            == Enqueue(RunFrom(s, actions), ApplyWrite(RunFrom(s, actions).tables, w).value, [LoggedOp(w)], [e])
  {
    hide CleanRun, RunFrom, Records, Loggable, ApplyWrite, IsUpsert, Enqueue;
    var s0 := RunFrom(s, actions);
    OneWrite(s0.tables, w);
    RunMore(s, actions, Commit([w], [e]));
  }

  lemma OneWrite(db: Db, w: Write)
    requires ApplyWrite(db, w).Some? && !IsUpsert(db, w)
    ensures CommitWrites(db, [w]) == (ApplyWrite(db, w).value, true)
    ensures Replayable(db, [w]) && LoggedOps([w]) == [LoggedOp(w)]
  {
    hide ApplyWrite, IsUpsert;
    assert [w][1..] == [];
  }

  /** What recovery reads from a file that holds these entries. */
  lemma RecoversOps(snapshot: Option<Db>, es: seq<Entry>, ops: seq<Op>)
    requires RecordsAll(es, ops) && AllLoggable(es)
    ensures Recover(snapshot, MAGIC + LogBytes(es)) == Replay(if snapshot.Some? then snapshot.value else map[], ops)
  {
    hide LogBytes, ReadFrames, Records, Loggable, OpsOf, Replay;
    assert (MAGIC + LogBytes(es))[|MAGIC|..] == LogBytes(es);
    ReadBackAll(es);
    RecordedOpsReadBack(es, ops);
  }

  /** A run that has created table T and synced its record. */
  lemma TableCreated() returns (actions: seq<Action>)
    ensures CleanRun(Start(), actions)
    ensures var s := RunFrom(Start(), actions);
            && s.tables == map[T := map[]] && s.history == [CreateOp(T, [0])] && s.nextSequence == 2
            && s.log == [CreateEntry(1)]
            && s.file == MAGIC + LogBytes([CreateEntry(1)]) && s.durable == |s.file|
            && s.queue == [] && s.drained == [] && s.unwritten == [] && !s.fatal && s.phase.Serving?
            && s.snapshot == None && s.nextTicket == 1 && s.acked == {0} && s.published == {}
  {
    hide CleanRun, RunFrom, LogBytes, Entries, Records, Loggable, Tickets;
    NoRun(Start());
    EntriesRecord(1, X);
    var define := Define(CreateOp(T, [0]), CreateEntry(1));
    RunMore(Start(), [], define);
    assert [] + [define] == [define];
    var s := RunFrom(Start(), [define]);
    OneBatch(s.queue[0], s.queue);
    OneTicket(s.queue[0]);
    FrameNotEmpty(CreateEntry(1));
    actions := FlushRun(Start(), [define]);
  }

  lemma OneTicket(b: Batch)
    ensures Tickets([b]) == {b.ticket}
  {
    assert [b][0].ticket == b.ticket;
  }

  lemma OneBatch(b: Batch, batches: seq<Batch>)
    requires batches == [b]
    ensures Entries(batches) == b.entries
  {
    assert Entries([]) == [];
  }

  lemma TwoBatches(b: Batch, c: Batch, batches: seq<Batch>)
    requires batches == [b, c]
    ensures Entries(batches) == b.entries + c.entries
  {
    assert batches[1..] == [c];
    OneBatch(c, [c]);
  }

  lemma FrameNotEmpty(e: Entry)
    ensures LogBytes([e]) == Frame(e) && LogBytes([e]) != []
  {
    hide Frame;
    LogBytesAppend([], e);
    NoLogBytes();
    assert [] + [e] == [e] && [] + Frame(e) == Frame(e);
  }

  // ---- A checkpoint that races the writer ----

  lemma ReplayOne(db: Db, ops: seq<Op>, op: Op)
    ensures Replay(db, ops + [op]) == ReplayOp(Replay(db, ops), op)
    ensures AllSucceed(db, ops + [op]) <==> AllSucceed(db, ops) && Succeeds(Replay(db, ops), op)
  {
    hide ReplayOp, Succeeds;
    ReplayConcat(db, ops, [op]);
    ReplayNothing(ReplayOp(Replay(db, ops), op));
    assert [op][1..] == [];
  }

  lemma ReplayThree(db: Db, a: Op, b: Op, c: Op)
    ensures Replay(db, [a]) == ReplayOp(db, a)
    ensures Replay(db, [a, b]) == ReplayOp(Replay(db, [a]), b)
    ensures Replay(db, [a, b, c]) == ReplayOp(Replay(db, [a, b]), c)
  {
    hide ReplayOp, Replay;
    ReplayNothing(db);
    assert [] + [a] == [a] && [a] + [b] == [a, b] && [a, b] + [c] == [a, b, c];
    ReplayOne(db, [], a);
    ReplayOne(db, [a], b);
    ReplayOne(db, [a, b], c);
  }

  /** What is recovered is the tables at no point of the history. */
  ghost predicate OnNoPrefix(s: State, cut: nat)
    requires cut <= |s.file|
  {
    forall j: nat :: j <= |s.history| ==> Recover(s.snapshot, s.file[..cut]) != Replay(map[], s.history[..j])
  }

  function RacedHistory(): seq<Op> {
    [CreateOp(T, [0]), InsertOp(T, NewRow(X)), DeleteOp(T, X), InsertOp(T, NewRow(Y))]
  }

  /** The first two operations over a snapshot of all four give both rows, which were never there together. */
  lemma RacedTables(image: Db)
    requires image == map[T := map[Y := map[]]]
    ensures forall j: nat :: j <= 4 ==> Replay(image, RacedHistory()[..2]) != Replay(map[], RacedHistory()[..j])
  {
    var history := RacedHistory();
    var a, b, c, d := history[0], history[1], history[2], history[3];
    hide Replay;
    ReplayThree(map[], a, b, c);
    ReplayOne(map[], [a, b, c], d);
    assert [a, b, c] + [d] == history;
    ReplayThree(image, a, b, c);
    assert history[..2] == [a, b];
    var recovered := Replay(image, [a, b]);
    assert RowAt(recovered, T, X).Some? && RowAt(recovered, T, Y).Some?;
    forall j: nat | j <= 4 ensures recovered != Replay(map[], history[..j]) {
      assert history[..0] == [] && history[..1] == [a] && history[..3] == [a, b, c] && history[..4] == history;
      ReplayNothing(map[]);
      var prefix := Replay(map[], history[..j]);
      assert RowAt(prefix, T, X).None? || RowAt(prefix, T, Y).None?;
    }
  }

  /** A run that ends with row X committed and its record queued. */
  lemma RowQueued() returns (actions: seq<Action>)
    ensures CleanRun(Start(), actions)
    ensures var s := RunFrom(Start(), actions);
            && s.tables == map[T := map[X := map[]]] && s.nextSequence == 3
            && s.history == [CreateOp(T, [0]), InsertOp(T, NewRow(X))]
            && s.log == [CreateEntry(1), InsertEntry(2, X)] && s.queue == [Batch([InsertEntry(2, X)], 1)]
            && s.file == MAGIC + LogBytes([CreateEntry(1)]) && s.snapshot == None && s.published == {}
            && s.unwritten == [] && s.drained == [] && !s.fatal && s.phase.Serving?
  {
    hide CleanRun, RunFrom, LogBytes, Entries, Records, Loggable, RowBytes, Tickets;
    var created := TableCreated();
    EntriesRecord(2, X);
    var w, e := Write(INSERT_OP, T, NewRow(X)), InsertEntry(2, X);
    CommitOne(Start(), created, w, e);
    actions := created + [Commit([w], [e])];
    assert RunFrom(Start(), actions).tables == map[T := map[X := map[]]];
  }

  /** A run that ends with row X committed and synced. */
  lemma RowSynced() returns (actions: seq<Action>)
    ensures CleanRun(Start(), actions)
    ensures var s := RunFrom(Start(), actions);
            && s.tables == map[T := map[X := map[]]] && s.nextSequence == 3
            && s.history == [CreateOp(T, [0]), InsertOp(T, NewRow(X))]
            && s.log == [CreateEntry(1), InsertEntry(2, X)] && s.unwritten == [] && s.snapshot == None
            && s.file == MAGIC + LogBytes([CreateEntry(1), InsertEntry(2, X)]) && s.durable == |s.file|
            && s.queue == [] && s.drained == [] && !s.fatal && s.phase.Serving?
  {
    hide CleanRun, RunFrom, LogBytes, Entries, RowBytes, Tickets;
    var first := RowQueued();
    var e := InsertEntry(2, X);
    OneBatch(Batch([e], 1), RunFrom(Start(), first).queue);
    FrameNotEmpty(e);
    actions := FlushRun(Start(), first);
    LogBytesAppend([CreateEntry(1)], e);
    assert [CreateEntry(1)] + [e] == [CreateEntry(1), e];
  }

  /** An acknowledged transaction is published by one more clean step. */
  lemma RowPublished()
    ensures exists actions :: CleanRun(Start(), actions) && RunFrom(Start(), actions).published == {1}
  {
    hide CleanRun, RunFrom, LogBytes, Entries, RowBytes, Tickets;
    var first := RowQueued();
    OneBatch(Batch([InsertEntry(2, X)], 1), RunFrom(Start(), first).queue);
    OneTicket(Batch([InsertEntry(2, X)], 1));
    FrameNotEmpty(InsertEntry(2, X));
    var flushed := FlushRun(Start(), first);
    RunMore(Start(), flushed, Publish(1));
  }

  function RacedLog(): seq<Entry> {
    [CreateEntry(1), InsertEntry(2, X), DeleteEntry(3, X), InsertEntry(4, Y)]
  }

  lemma RacedLogRecords()
    ensures RecordsAll(RacedLog(), RacedHistory()) && AllLoggable(RacedLog())
  {
    hide Records, Loggable, RowBytes;
    EntriesRecord(1, X);
    EntriesRecord(2, X);
    EntriesRecord(3, X);
    EntriesRecord(4, Y);
  }

  /** The same, with a deletion of X and row Y committed and still queued. */
  lemma RacedRun() returns (actions: seq<Action>)
    ensures CleanRun(Start(), actions)
    ensures var s := RunFrom(Start(), actions);
            && s.tables == map[T := map[Y := map[]]] && s.history == RacedHistory() && s.log == RacedLog()
            && s.file == MAGIC + LogBytes(RacedLog()[..2]) && s.durable == |s.file|
            && s.queue != [] && Entries(s.queue) == RacedLog()[2..]
            && s.drained == [] && s.unwritten == [] && !s.fatal && s.phase.Serving? && s.snapshot == None
  {
    hide CleanRun, RunFrom, LogBytes, Records, Loggable, RowBytes, Entries;
    var synced := RowSynced();
    assert RacedLog()[..2] == [CreateEntry(1), InsertEntry(2, X)];
    EntriesRecord(3, X);
    EntriesRecord(4, Y);
    var deleteX, e3 := Write(DELETE_OP, T, NewRow(X)), DeleteEntry(3, X);
    CommitOne(Start(), synced, deleteX, e3);
    var second := synced + [Commit([deleteX], [e3])];
    assert RunFrom(Start(), second).tables == map[T := map[]];
    var insertY, e4 := Write(INSERT_OP, T, NewRow(Y)), InsertEntry(4, Y);
    CommitOne(Start(), second, insertY, e4);
    actions := second + [Commit([insertY], [e4])];
    var s := RunFrom(Start(), actions);
    assert s.tables == map[T := map[Y := map[]]];
    TwoBatches(s.queue[0], s.queue[1], s.queue);
  }

  /**
   A checkpoint that renames its snapshot while the queue is not empty can mix commits. This run is clean up
   to that one step, whose only fault is the queue; a crash then recovers the tables of no prefix of the history.
   */
  lemma RacingCheckpointMixesCommits()
    ensures exists before, image, cut: nat ::
              && CleanRun(Start(), before)
              && var s := RunFrom(Start(), before);
                 && Enabled(s, Rename(image)) && s.queue != []
                 && !s.fatal && s.drained == [] && Snapshots.DbStable(s.tables)
                 && var s' := Step(s, Rename(image));
                    s'.durable <= cut <= |s'.file| && OnNoPrefix(s', cut)
  {
    hide CleanRun, RunFrom, LogBytes, Records, Loggable, Recover, Replay, RowBytes;
    var before := RacedRun();
    var s := RunFrom(Start(), before);
    var image: Db := map[T := map[Y := map[]]];
    assert T in s.tables && Snapshots.DbStable(s.tables);
    assert Snapshots.Image(s.tables, image);
    var s' := Step(s, Rename(image));
    RacedLogRecords();
    RecoversOps(Some(image), RacedLog()[..2], RacedHistory()[..2]);
    assert s'.file[..|s'.file|] == s'.file;
    RacedTables(image);
    assert OnNoPrefix(s', |s'.file|);
  }

  // ---- A checkpoint behind a restart from bytes that were never synced ----

  /** The raced batches written but not synced, and then a crash of the process alone. */
  lemma UnsyncedRun() returns (actions: seq<Action>)
    ensures CleanRun(Start(), actions)
    ensures var s := RunFrom(Start(), actions);
            && s.tables == map[T := map[Y := map[]]] && s.history == RacedHistory()
            && s.file == MAGIC + LogBytes(RacedLog()) && s.durable == |MAGIC + LogBytes(RacedLog()[..2])| < |s.file|
            && s.queue == [] && s.drained == [] && !s.fatal && s.phase.Serving?
  {
    hide CleanRun, RunFrom, LogBytes, Records, Loggable, RowBytes, Entries, Reopened, Redropped;
    var raced := RacedRun();
    RunMore(Start(), raced, Drain);
    var s1 := RunFrom(Start(), raced + [Drain]);
    var write := WriteChunk(|s1.unwritten|);
    LogBytesConcat(RacedLog()[..2], RacedLog()[2..]);
    assert RacedLog()[..2] + RacedLog()[2..] == RacedLog();
    LogNotEmpty(RacedLog()[2..]);
    assert s1.unwritten[..|s1.unwritten|] == s1.unwritten;
    RunMore(Start(), raced + [Drain], write);
    var s2 := RunFrom(Start(), raced + [Drain] + [write]);
    assert s2.file == MAGIC + LogBytes(RacedLog());
    RacedReopened(s2);
    RunMore(Start(), raced + [Drain] + [write], Restart(|s2.file|, s2.durable, []));
    actions := raced + [Drain] + [write] + [Restart(|s2.file|, s2.durable, [])];
  }

  /** The whole raced log, read back. */
  lemma RacedFile(file: Blob)
    requires file == MAGIC + LogBytes(RacedLog())
    ensures ReadLog(file) == RacedLog() && OpsOf(RacedLog()) == RacedHistory()
    ensures Recover(None, file) == map[T := map[Y := map[]]]
    ensures CompleteFrames(RacedLog(), |file| - |MAGIC|) == 4
    ensures Redropped(map[], RacedHistory()) == []
  {
    hide LogBytes, Records, Loggable, RowBytes, OpsOf, ReadFrames, Replay, Recover, CompleteFrames, Redropped, RowOf;
    RacedLogRecords();
    RecoversOps(None, RacedLog(), RacedHistory());
    RacedReplay();
    assert file[|MAGIC|..] == LogBytes(RacedLog());
    ReadBackAll(RacedLog());
    RecordedOpsReadBack(RacedLog(), RacedHistory());
    assert RacedLog()[..4] == RacedLog();
    CompleteFramesIsLargest(RacedLog(), |LogBytes(RacedLog())|, 4);
    RedroppedAreDrops(map[], RacedHistory());
    NoDrops();
  }

  lemma RacedReopened(s: State)
    requires s.history == RacedHistory() && s.log == RacedLog() && s.snapshot == None && !s.phase.Emptied?
    requires s.file == MAGIC + LogBytes(RacedLog()) && s.durable <= |s.file|
    ensures Enabled(s, Restart(|s.file|, s.durable, [])) && Clean(s, Restart(|s.file|, s.durable, []))
    ensures var r := Reopened(s, |s.file|, s.durable);
            && r.tables == map[T := map[Y := map[]]] && r.history == RacedHistory() && r.file == s.file
            && r.durable == s.durable && r.queue == [] && r.drained == [] && !r.fatal && r.phase.Serving?
  {
    hide LogBytes, RecordsAll, ReadLog, OpsOf, Recover, CompleteFrames, Redropped, MaxSequence, Loggable;
    assert s.file[..|s.file|] == s.file && FileAfter(s, |s.file|) == s.file;
    RacedFile(s.file);
    assert s.log[..4] == s.log && s.history[..4] == s.history;
    assert WholeEntries(s, |s.file|) == 4;
    assert RecordsAll([], []) by { NothingRecorded(); }
  }

  lemma NothingRecorded()
    ensures RecordsAll([], [])
  {
  }

  lemma NoDrops()
    ensures forall i :: 0 <= i < |RacedHistory()| ==> !RacedHistory()[i].DropOp?
  {
  }

  lemma RacedReplay()
    ensures Replay(map[], RacedHistory()) == map[T := map[Y := map[]]]
  {
    hide Replay;
    var a, b, c, d := RacedHistory()[0], RacedHistory()[1], RacedHistory()[2], RacedHistory()[3];
    ReplayThree(map[], a, b, c);
    ReplayOne(map[], [a, b, c], d);
    assert [a, b, c] + [d] == RacedHistory();
    var one := ReplayOp(map[], a);
    assert one == map[T := map[]];
    var two := ReplayOp(one, b);
    assert two == map[T := map[X := map[]]];
    var three := ReplayOp(two, c);
    assert three == map[T := map[]];
    assert ReplayOp(three, d) == map[T := map[Y := map[]]];
  }

  /**
   Opening the log syncs nothing, so after the crash of a process the writer can be idle over a file that is
   not on disk. This run is clean up to a rename whose only fault is that, with nothing queued and nothing
   drained; a loss of power then recovers the tables of no prefix of the history.
   */
  lemma UnsyncedCheckpointMixesCommits()
    ensures exists before, image, cut: nat ::
              && CleanRun(Start(), before)
              && var s := RunFrom(Start(), before);
                 && Enabled(s, Rename(image)) && !Flushed(s)
                 && !s.fatal && s.queue == [] && s.drained == [] && Snapshots.DbStable(s.tables)
                 && var s' := Step(s, Rename(image));
                    s'.durable <= cut <= |s'.file| && OnNoPrefix(s', cut)
  {
    hide CleanRun, RunFrom, LogBytes, Records, Loggable, Recover, Replay, RowBytes;
    var before := UnsyncedRun();
    var s := RunFrom(Start(), before);
    var image: Db := map[T := map[Y := map[]]];
    assert T in s.tables && Snapshots.DbStable(s.tables);
    assert Snapshots.Image(s.tables, image);
    var s' := Step(s, Rename(image));
    LogBytesConcat(RacedLog()[..2], RacedLog()[2..]);
    assert RacedLog()[..2] + RacedLog()[2..] == RacedLog();
    LogNotEmpty(RacedLog()[..2]);
    assert s'.file[..s.durable] == MAGIC + LogBytes(RacedLog()[..2]);
    RacedLogRecords();
    RecoversOps(Some(image), RacedLog()[..2], RacedHistory()[..2]);
    RacedTables(image);
    assert OnNoPrefix(s', s.durable);
  }

  // ---- A batch queued behind a write error ----

  function GapHistory(): seq<Op> {
    [CreateOp(T, [0]), InsertOp(T, NewRow(X)), InsertOp(T, NewRow(Y))]
  }

  lemma GapTables()
    ensures forall j: nat :: j <= 3 ==>
              Replay(map[], [CreateOp(T, [0]), InsertOp(T, NewRow(Y))]) != Replay(map[], GapHistory()[..j])
  {
    var history := GapHistory();
    var a, b, c := history[0], history[1], history[2];
    hide Replay;
    ReplayThree(map[], a, b, c);
    ReplayThree(map[], a, c, c);
    var recovered := Replay(map[], [a, c]);
    assert RowAt(recovered, T, X).None? && RowAt(recovered, T, Y).Some?;
    forall j: nat | j <= 3 ensures recovered != Replay(map[], history[..j]) {
      assert history[..0] == [] && history[..1] == [a] && history[..2] == [a, b] && history[..3] == history;
      ReplayNothing(map[]);
      var prefix := Replay(map[], history[..j]);
      assert RowAt(prefix, T, X).Some? || RowAt(prefix, T, Y).None?;
    }
  }

  /** A run that ends with the writer holding the insert of X, and the insert of Y queued behind it. */
  lemma GapRun() returns (actions: seq<Action>)
    ensures CleanRun(Start(), actions)
    ensures var s := RunFrom(Start(), actions);
            && s.history == GapHistory() && s.file == MAGIC + LogBytes([CreateEntry(1)])
            && s.queue == [Batch([InsertEntry(3, Y)], 2)] && s.drained != [] && s.snapshot == None
            && 2 !in s.acked && 2 in s.logged && s.logged[2].ops == [InsertOp(T, NewRow(Y))]
  {
    hide CleanRun, RunFrom, LogBytes, Entries, Records, Loggable, RowBytes;
    var created := TableCreated();
    EntriesRecord(2, X);
    EntriesRecord(3, Y);
    var insertX, e2 := Write(INSERT_OP, T, NewRow(X)), InsertEntry(2, X);
    CommitOne(Start(), created, insertX, e2);
    var first := created + [Commit([insertX], [e2])];
    RunMore(Start(), first, Drain);
    var drained := first + [Drain];
    var s := RunFrom(Start(), drained);
    assert s.tables == map[T := map[X := map[]]];
    var insertY, e3 := Write(INSERT_OP, T, NewRow(Y)), InsertEntry(3, Y);
    CommitOne(Start(), drained, insertY, e3);
    actions := drained + [Commit([insertY], [e3])];
  }

  /**
   A batch queued behind a failing write is still written, and its promise resolved true, although the failed
   one is missing from the log. This run is clean up to the error and after it, and what is recovered is the
   tables of no prefix of the history.
   */
  lemma WriteErrorLeavesGap()
    ensures exists before, after, cut: nat ::
              && CleanRun(Start(), before)
              && var s := RunFrom(Start(), before);
                 && Enabled(s, WriteError(0)) && s.queue != []
                 && CleanRun(Step(s, WriteError(0)), after)
                 && var s' := RunFrom(Step(s, WriteError(0)), after);
                    && s'.durable <= cut <= |s'.file| && OnNoPrefix(s', cut)
                    && exists t :: t in s'.acked && t !in s.acked && t in s'.logged && s'.logged[t].ops != []
  {
    hide CleanRun, RunFrom, LogBytes, Entries, Recover, Replay, Tickets, OnNoPrefix;
    var before := GapRun();
    var s := RunFrom(Start(), before);
    var broken := Step(s, WriteError(0));
    OneBatch(Batch([InsertEntry(3, Y)], 2), s.queue);
    FrameNotEmpty(InsertEntry(3, Y));
    NoRun(broken);
    var after := FlushRun(broken, []);
    var s' := RunFrom(broken, after);
    assert broken.file == s.file;
    GapRecovered(s');
    OneTicket(Batch([InsertEntry(3, Y)], 2));
    assert 2 in s'.acked && 2 !in s.acked;
  }

  lemma GapRecovered(s: State)
    requires s.history == GapHistory() && s.snapshot == None
    requires s.file == MAGIC + LogBytes([CreateEntry(1)]) + LogBytes([InsertEntry(3, Y)])
    ensures OnNoPrefix(s, |s.file|)
  {
    hide LogBytes, Records, Loggable, Recover, Replay, RowBytes;
    var e1, e3 := CreateEntry(1), InsertEntry(3, Y);
    FrameNotEmpty(e3);
    LogBytesAppend([e1], e3);
    assert [e1] + [e3] == [e1, e3];
    assert s.file == MAGIC + LogBytes([e1, e3]);
    EntriesRecord(1, X);
    EntriesRecord(3, Y);
    RecoversOps(None, [e1, e3], [CreateOp(T, [0]), InsertOp(T, NewRow(Y))]);
    assert s.file[..|s.file|] == s.file;
    GapTables();
  }
}
