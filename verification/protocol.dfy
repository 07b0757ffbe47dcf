/**
 Durable commit as a step system over src/storage/storage_engine.cpp and src/storage/wal_impl.cpp.

 Committers apply their writes and enqueue one batch under the tables lock. The writer thread drains
 the queue, writes in chunks, syncs, and resolves the promises. The checkpointer renames a snapshot into
 place, waits behind a barrier batch and truncates the log. A crash keeps any part of the file that
 includes the synced prefix, and the engine restarts from it.

 Each atomic step is an action; `Step` is total on enabled actions, and `Clean` says which actions the
 durability theorem covers. The fields after the comment are history variables.
 */
module Protocol {
  import opened Wrappers
  import opened Bytes
  import opened Wal
  import opened Tables
  import Snapshots

  datatype Batch = Batch(entries: seq<Entry>, ticket: nat)

  /** What one promise stands for: the operations logged under it and where they end in the history. */
  datatype Logged = Logged(ops: seq<Op>, end: nat)

  datatype Phase = Serving | Renamed | Draining(barrier: nat) | Emptied

  datatype State = State(
    tables: Db,
    nextSequence: nat,
    queue: seq<Batch>,
    drained: seq<Batch>,        // held by the writer thread
    unwritten: Blob,            // the part of the drained bytes not yet written
    fatal: bool,
    file: Blob,
    durable: nat,               // bytes of the file that survive a crash
    snapshot: Option<Db>,
    phase: Phase,               // of the checkpointer, which holds the tables lock unless Serving
    nextTicket: nat,
    acked: set<nat>,            // promises resolved true
    published: set<nat>,        // transactions whose events were published
    // history variables
    history: seq<Op>,           // everything ever logged, in commit order
    log: seq<Entry>,            // what was logged since the last truncation
    covered: nat,               // how much of the history the snapshot holds
    logged: map<nat, Logged>)

  datatype Action =
    | Commit(writes: seq<Write>, entries: seq<Entry>)
    | Define(op: Op, entry: Entry)
    | Drain
    | WriteChunk(n: nat)
    | Sync
    | Ack
    | WriteError(n: nat)
    | Publish(ticket: nat)
    | Rename(image: Db)
    | SubmitBarrier
    | Truncate
    | WriteMagic
    | Restart(cut: nat, synced: nat, redrops: seq<Entry>)

  function Start(): State {
    State(map[], 1, [], [], [], false, MAGIC, 0, None, Serving, 0, {}, {}, [], [], 0, map[])
  }

  function Entries(batches: seq<Batch>): seq<Entry>
    decreases |batches|
  {
    if batches == [] then [] else batches[0].entries + Entries(batches[1..])
  }

  function Tickets(batches: seq<Batch>): set<nat> {
    set i | 0 <= i < |batches| :: batches[i].ticket
  }

  /** The entries carry consecutive sequence numbers from first. */
  predicate Consecutive(es: seq<Entry>, first: int) {
    forall i :: 0 <= i < |es| ==> es[i].sequence == first + i
  }

  /** Where in the history the current log begins. */
  function LogStart(s: State): int {
    |s.history| - |s.log|
  }

  function Enqueue(s: State, tables: Db, ops: seq<Op>, entries: seq<Entry>): State {
    s.(tables := tables,
       nextSequence := s.nextSequence + |entries|,
       queue := s.queue + [Batch(entries, s.nextTicket)],
       nextTicket := s.nextTicket + 1,
       history := s.history + ops,
       log := s.log + entries,
       logged := s.logged[s.nextTicket := Logged(ops, |s.history| + |ops|)])
  }

  /** What is left of the file after a crash, with the magic the restart writes into an empty file. */
  function FileAfter(s: State, cut: nat): Blob
    requires cut <= |s.file|
  {
    if s.file[..cut] == [] then MAGIC else s.file[..cut]
  }

  function SnapshotTables(s: State): Db {
    if s.snapshot.Some? then s.snapshot.value else map[]
  }

  /** How many entries of the log are whole in the file cut at `cut`. */
  function WholeEntries(s: State, cut: nat): nat {
    if s.phase.Emptied? || cut < |MAGIC| then 0 else CompleteFrames(s.log, cut - |MAGIC|)
  }

  /** How many history operations survive a crash at cut. */
  function Survivors(s: State, cut: nat): int {
    LogStart(s) + WholeEntries(s, cut)
  }

  /**
   What a restart finds: the first `cut` bytes of the file, of which `synced` are on disk. The rest may be no
   more than cached, as after the crash of the process alone; opening the log syncs nothing.
   */
  function Reopened(s: State, cut: nat, synced: nat): State
    requires cut <= |s.file|
  {
    var file := FileAfter(s, cut);
    var entries := ReadLog(file);
    var survivors := if 0 <= Survivors(s, cut) <= |s.history| then Survivors(s, cut) else 0;
    s.(tables := Recover(s.snapshot, file),
       nextSequence := MaxSequence(entries) + 1,
       queue := [], drained := [], unwritten := [], fatal := false, phase := Serving,
       file := file,
       durable := synced,
       history := s.history[..survivors],
       log := entries,
       logged := map t | t in s.logged && s.logged[t].end <= survivors :: s.logged[t])
  }

  /** Each table dropped again during recovery is logged again, with a sync. */
  function Relogged(s: State, redrops: seq<Entry>): State {
    if redrops == [] then s
    else
      s.(nextSequence := s.nextSequence + |redrops|,
         file := s.file + LogBytes(redrops),
         durable := |s.file + LogBytes(redrops)|,
         history := s.history + OpsOf(redrops),
         log := s.log + redrops)
  }

  function Truncated(s: State): State {
    s.(file := [], durable := 0, phase := Emptied, log := [])
  }

  ghost predicate Enabled(s: State, a: Action) {
    match a
    case Commit(ws, es) =>
      && s.phase.Serving?
      && (CommitWrites(s.tables, ws).1 && !s.fatal ==>
            RecordsAll(es, LoggedOps(ws)) && Consecutive(es, s.nextSequence))
    case Define(op, e) =>
      && s.phase.Serving? && (op.CreateOp? || op.DropOp?) && Succeeds(s.tables, op)
      && (!s.fatal ==> Records(e, op) && Consecutive([e], s.nextSequence))
    case Drain => s.drained == [] && s.queue != []
    case WriteChunk(n) => s.drained != [] && 0 < n <= |s.unwritten|
    case Sync => s.drained != [] && s.unwritten == []
    case Ack => s.drained != [] && s.unwritten == [] && s.durable == |s.file|
    case WriteError(n) => s.drained != [] && n <= |s.unwritten|
    case Publish(t) => t in s.acked
    case Rename(image) => s.phase.Serving? && s.tables != map[] && Snapshots.Image(s.tables, image)
    case SubmitBarrier => s.phase.Renamed? && !s.fatal
    case Truncate =>
      (s.phase.Draining? && (s.phase.barrier in s.acked || s.fatal)) || (s.phase.Renamed? && s.fatal)
    case WriteMagic => s.phase.Emptied?
    case Restart(cut, synced, redrops) =>
      && s.durable <= synced <= cut <= |s.file|
      && RecordsAll(redrops, Redropped(SnapshotTables(s), OpsOf(ReadLog(FileAfter(s, cut)))))
      && Consecutive(redrops, MaxSequence(ReadLog(FileAfter(s, cut))) + 1)
  }

  ghost function Step(s: State, a: Action): State
    requires Enabled(s, a)
  {
    match a
    case Commit(ws, es) =>
      var (tables, ok) := CommitWrites(s.tables, ws);
      if ok && !s.fatal then Enqueue(s, tables, LoggedOps(ws), es) else s.(tables := tables)
    case Define(op, e) =>
      if s.fatal then s.(tables := ReplayOp(s.tables, op))
      else Enqueue(s, ReplayOp(s.tables, op), [op], [e])
    case Drain => s.(drained := s.queue, queue := [], unwritten := LogBytes(Entries(s.queue)))
    case WriteChunk(n) => s.(file := s.file + s.unwritten[..n], unwritten := s.unwritten[n..])
    case Sync => s.(durable := |s.file|)
    case Ack => s.(drained := [], acked := s.acked + Tickets(s.drained))
    case WriteError(n) => s.(file := s.file + s.unwritten[..n], drained := [], unwritten := [], fatal := true)
    case Publish(t) => s.(published := s.published + {t})
    case Rename(image) => s.(snapshot := Some(image), phase := Renamed, covered := |s.history|)
    case SubmitBarrier =>
      var s' := Enqueue(s, s.tables, [], []);
      s'.(phase := Draining(s.nextTicket))
    case Truncate => Truncated(s)
    case WriteMagic => s.(file := MAGIC, phase := Serving)
    case Restart(cut, synced, redrops) => Relogged(Reopened(s, cut, synced), redrops)
  }

  /**
   The guards of the durability theorem: commits that apply in full, resolve no INSERT to an UPDATE that
   changes the row, and fit the record format; a write error only while no further batch is queued behind
   it, and no checkpoint begun after it; snapshots of stable values taken while the writer has nothing
   pending and the file is synced; and restarts from a file that is empty or ends at a frame boundary, in
   which no table dropped on the way has been created again.
   */
  ghost predicate Clean(s: State, a: Action) {
    match a
    case Commit(ws, es) => Replayable(s.tables, ws) && AllLoggable(es)
    case Define(op, e) => Loggable(e)
    case WriteError(_) => s.queue == []
    case Rename(_) => !s.fatal && s.queue == [] && s.drained == [] && Flushed(s) && Snapshots.DbStable(s.tables)
    case Restart(cut, _, redrops) =>
      && cut <= |s.file|
      && (cut == 0 || cut == |MAGIC| + |LogBytes(s.log[..WholeEntries(s, cut)])|)
      && AllLoggable(redrops)
      && forall i :: 0 <= i < |redrops| ==> redrops[i].table !in Recover(s.snapshot, FileAfter(s, cut))
    case _ => true
  }

  // ---- The invariant ----

  ghost predicate HistoryInv(s: State) {
    && AllSettle(map[], s.history)
    && (!s.fatal ==> s.tables == Replay(map[], s.history))
    && |s.log| <= |s.history|
    && RecordsAll(s.log, s.history[LogStart(s)..])
    && AllLoggable(s.log)
    && |s.log| < s.nextSequence
    && Consecutive(s.log, s.nextSequence - |s.log|)
  }

  ghost predicate FileInv(s: State) {
    && s.durable <= |s.file|
    && (s.fatal ==> s.queue == [] && s.drained == [])
    && (s.drained == [] ==> s.unwritten == [])
    && |Entries(s.queue)| <= |s.log|
    && s.log[|s.log| - |Entries(s.queue)|..] == Entries(s.queue)
    && (if s.phase.Emptied?
        then s.file == [] && s.log == [] && s.queue == [] && s.drained == []
        else
          && |s.file| >= |MAGIC|
          && if s.fatal then s.file <= MAGIC + LogBytes(s.log)
             else Whole(s))
  }

  /** File, writer and queue together are the log. */
  ghost predicate Whole(s: State) {
    s.file + s.unwritten + LogBytes(Entries(s.queue)) == MAGIC + LogBytes(s.log)
  }

  /** Everything in the file is synced, but for a magic that no batch has followed yet. */
  predicate Flushed(s: State) {
    s.unwritten == [] && (s.durable == |s.file| || s.file == MAGIC)
  }

  /** The first n history operations are in the snapshot or in the synced part of the file. */
  ghost predicate Secured(s: State, n: nat) {
    && n <= |s.history|
    && (n <= LogStart(s) || (n - LogStart(s) <= |s.log|
        && |MAGIC| + |LogBytes(s.log[..n - LogStart(s)])| <= s.durable))
  }

  ghost predicate SnapshotInv(s: State) {
    && LogStart(s) <= s.covered
    && Secured(s, s.covered)
    && SnapshotTables(s) == Replay(map[], s.history[..s.covered])
    && (!s.phase.Serving? ==> s.covered == |s.history|)
  }

  /** A promise's operations stand in the history up to its end. */
  ghost predicate Stands(s: State, t: nat) {
    && t in s.logged
    && |s.logged[t].ops| <= s.logged[t].end <= |s.history|
    && s.history[s.logged[t].end - |s.logged[t].ops|..s.logged[t].end] == s.logged[t].ops
  }

  /** The promise is registered and its operations end at or before `limit`. */
  ghost predicate Pending(s: State, t: nat, limit: int) {
    t < s.nextTicket && t in s.logged && s.logged[t].end <= limit
  }

  ghost predicate PromiseInv(s: State) {
    && (forall t :: t in s.logged ==> Stands(s, t))
    && (forall t :: t in s.acked ==> t < s.nextTicket && t in s.logged && Secured(s, s.logged[t].end))
    && (forall t :: t in Tickets(s.drained) ==> Pending(s, t, |s.history| - |Entries(s.queue)|))
    && (forall t :: t in Tickets(s.queue) ==> Pending(s, t, |s.history|))
    && s.published <= s.acked
    && (s.phase.Draining? ==>
          && (s.phase.barrier in Tickets(s.drained) || s.phase.barrier in s.acked ==> s.queue == [])
          && (s.phase.barrier in s.acked ==> s.drained == []))
  }

  ghost predicate Inv(s: State) {
    HistoryInv(s) && FileInv(s) && SnapshotInv(s) && PromiseInv(s)
  }

  // ---- Batches and prefixes ----

  lemma {:induction false} EntriesConcat(a: seq<Batch>, b: seq<Batch>)
    ensures Entries(a + b) == Entries(a) + Entries(b)
    decreases |a|
  {
    if a == [] {
      assert a + b == b;
    } else {
      assert (a + b)[1..] == a[1..] + b;
      EntriesConcat(a[1..], b);
    }
  }

  lemma EntriesAppend(batches: seq<Batch>, b: Batch)
    ensures Entries(batches + [b]) == Entries(batches) + b.entries
  {
    EntriesConcat(batches, [b]);
    assert Entries([b]) == b.entries + Entries([]);
  }

  lemma TicketsAppend(batches: seq<Batch>, b: Batch)
    ensures Tickets(batches + [b]) == Tickets(batches) + {b.ticket}
  {
    var all := batches + [b];
    forall t | t in Tickets(batches) + {b.ticket} ensures t in Tickets(all) {
      if t == b.ticket {
        assert all[|batches|].ticket == t;
      } else {
        var i :| 0 <= i < |batches| && batches[i].ticket == t;
        assert all[i].ticket == t;
      }
    }
  }

  lemma LogPrefixSize(es: seq<Entry>, m: nat, n: nat)
    requires m <= n <= |es|
    ensures |LogBytes(es[..m])| <= |LogBytes(es[..n])|
  {
    assert es[..n] == es[..m] + es[m..n];
    LogBytesConcat(es[..m], es[m..n]);
  }

  // ---- Enqueueing a batch keeps the invariant ----

  ghost predicate Enqueueable(s: State, ops: seq<Op>, es: seq<Entry>) {
    !s.fatal && RecordsAll(es, ops) && AllLoggable(es) && Consecutive(es, s.nextSequence) && AllSettle(s.tables, ops)
  }

  lemma EnqueueHistory(s: State, ops: seq<Op>, es: seq<Entry>)
    requires HistoryInv(s) && Enqueueable(s, ops, es)
    ensures HistoryInv(Enqueue(s, Replay(s.tables, ops), ops, es))
  {
    hide Records, Loggable, LogBytes, Replay, AllSettle;
    var s' := Enqueue(s, Replay(s.tables, ops), ops, es);
    ReplayConcat(map[], s.history, ops);
    assert LogStart(s') == LogStart(s);
    assert s'.history[LogStart(s)..] == s.history[LogStart(s)..] + ops;
  }

  lemma EnqueueFile(s: State, ops: seq<Op>, es: seq<Entry>)
    requires FileInv(s) && !s.phase.Emptied? && !s.fatal
    ensures FileInv(Enqueue(s, Replay(s.tables, ops), ops, es))
  {
    hide LogBytes, Entries, Replay;
    EntriesAppend(s.queue, Batch(es, s.nextTicket));
    LogBytesConcat(Entries(s.queue), es);
    LogBytesConcat(s.log, es);
    var q := |Entries(s.queue)|;
    assert (s.log + es)[|s.log| + |es| - (q + |es|)..] == s.log[|s.log| - q..] + es;
    assert s.file + s.unwritten + (LogBytes(Entries(s.queue)) + LogBytes(es))
        == s.file + s.unwritten + LogBytes(Entries(s.queue)) + LogBytes(es);
    assert MAGIC + (LogBytes(s.log) + LogBytes(es)) == MAGIC + LogBytes(s.log) + LogBytes(es);
  }

  lemma SecuredAfterEnqueue(s: State, tables: Db, ops: seq<Op>, es: seq<Entry>, n: nat)
    requires Secured(s, n) && |es| == |ops| && |s.log| <= |s.history|
    ensures Secured(Enqueue(s, tables, ops, es), n)
  {
    hide LogBytes;
    if n > LogStart(s) {
      assert (s.log + es)[..n - LogStart(s)] == s.log[..n - LogStart(s)];
    }
  }

  lemma EnqueueSnapshot(s: State, ops: seq<Op>, es: seq<Entry>)
    requires SnapshotInv(s) && |es| == |ops| && |s.log| <= |s.history|
    requires s.phase.Serving? || ops == []
    ensures SnapshotInv(Enqueue(s, Replay(s.tables, ops), ops, es))
  {
    hide Secured;
    var s' := Enqueue(s, Replay(s.tables, ops), ops, es);
    SecuredAfterEnqueue(s, Replay(s.tables, ops), ops, es, s.covered);
    assert s.covered <= |s.history| by { SecuredBound(s, s.covered); }
    assert s'.history[..s.covered] == s.history[..s.covered];
  }

  lemma SecuredBound(s: State, n: nat)
    requires Secured(s, n)
    ensures n <= |s.history|
  {
  }

  /** A promise stands as long as the history up to its end does. */
  lemma StandsOn(s: State, s': State, t: nat)
    requires Stands(s, t) && t in s'.logged && s'.logged[t] == s.logged[t]
    requires s.logged[t].end <= |s'.history| && s'.history[..s.logged[t].end] == s.history[..s.logged[t].end]
    ensures Stands(s', t)
  {
    var l := s.logged[t];
    assert s'.history[..l.end][l.end - |l.ops|..] == s'.history[l.end - |l.ops|..l.end];
    assert s.history[..l.end][l.end - |l.ops|..] == s.history[l.end - |l.ops|..l.end];
  }

  lemma StandsAfter(s: State, s': State, t: nat, more: seq<Op>)
    requires Stands(s, t) && t in s'.logged && s'.logged[t] == s.logged[t] && s'.history == s.history + more
    ensures Stands(s', t)
  {
    assert s'.history[..s.logged[t].end] == s.history[..s.logged[t].end];
    StandsOn(s, s', t);
  }

  lemma NewStands(s: State, tables: Db, ops: seq<Op>, es: seq<Entry>)
    ensures Stands(Enqueue(s, tables, ops, es), s.nextTicket)
  {
    assert (s.history + ops)[|s.history|..] == ops;
  }

  lemma EnqueuePromises(s: State, tables: Db, ops: seq<Op>, es: seq<Entry>)
    requires PromiseInv(s) && |es| == |ops| && |s.log| <= |s.history|
    requires !s.phase.Draining?
    ensures PromiseInv(Enqueue(s, tables, ops, es))
  {
    hide Secured, Tickets, Entries, Stands;
    var s' := Enqueue(s, tables, ops, es);
    EntriesAppend(s.queue, Batch(es, s.nextTicket));
    TicketsAppend(s.queue, Batch(es, s.nextTicket));
    forall t | t in s'.logged ensures Stands(s', t) {
      if t != s.nextTicket {
        StandsAfter(s, s', t, ops);
      } else {
        NewStands(s, tables, ops, es);
      }
    }
    forall t | t in s'.acked ensures t < s'.nextTicket && t in s'.logged && Secured(s', s'.logged[t].end) {
      SecuredAfterEnqueue(s, tables, ops, es, s.logged[t].end);
    }
    forall t | t in Tickets(s.queue) ensures Pending(s', t, |s'.history|) {
      assert Pending(s, t, |s.history|);
    }
    forall t | t in Tickets(s'.drained) ensures Pending(s', t, |s'.history| - |Entries(s'.queue)|) {
      assert Pending(s, t, |s.history| - |Entries(s.queue)|);
    }
  }

  lemma EnqueueKeeps(s: State, ops: seq<Op>, es: seq<Entry>)
    requires Inv(s) && Enqueueable(s, ops, es)
    requires s.phase.Serving? || (s.phase.Renamed? && ops == [])
    ensures Inv(Enqueue(s, Replay(s.tables, ops), ops, es))
  {
    hide Enqueue;
    EnqueueHistory(s, ops, es);
    EnqueueFile(s, ops, es);
    EnqueueSnapshot(s, ops, es);
    EnqueuePromises(s, Replay(s.tables, ops), ops, es);
  }

  // ---- The writer keeps the invariant ----

  lemma DrainKeeps(s: State)
    requires Inv(s) && Enabled(s, Drain)
    ensures Inv(Step(s, Drain))
  {
    hide HistoryInv, Secured, LogBytes, Tickets;
    var s' := Step(s, Drain);
    HistoryFrame(s, s');
    assert Entries([]) == [] && LogBytes([]) == [] && Tickets([]) == {} by { NothingPending(); }
    assert s'.log[|s'.log|..] == [];
    assert s.unwritten == [] && s.file + s'.unwritten + [] == s.file + s.unwritten + LogBytes(Entries(s.queue));
    SnapshotFrame(s, s');
    PromiseFrame(s, s');
    forall t | t in Tickets(s'.drained) ensures Pending(s', t, |s'.history| - |Entries(s'.queue)|) {
      assert Pending(s, t, |s.history|);
    }
  }

  lemma NothingPending()
    ensures Entries([]) == [] && LogBytes([]) == [] && Tickets([]) == {}
  {
  }

  lemma HistoryFrame(s: State, s': State)
    requires HistoryInv(s)
    requires s'.tables == s.tables && s'.history == s.history && s'.log == s.log && s'.nextSequence == s.nextSequence
    requires s.fatal ==> s'.fatal
    ensures HistoryInv(s')
  {
  }

  lemma SecuredFrame(s: State, s': State, n: nat)
    requires Secured(s, n)
    requires s'.history == s.history && s'.log == s.log && s'.durable >= s.durable
    ensures Secured(s', n)
  {
  }

  lemma SnapshotFrame(s: State, s': State)
    requires SnapshotInv(s)
    requires s'.history == s.history && s'.log == s.log && s'.durable >= s.durable
    requires s'.snapshot == s.snapshot && s'.covered == s.covered && s'.phase == s.phase
    ensures SnapshotInv(s')
  {
    hide Secured;
    SecuredFrame(s, s', s.covered);
  }

  /** The part of PromiseInv that looks only at the history and at acknowledged promises. */
  lemma PromiseFrame(s: State, s': State)
    requires PromiseInv(s)
    requires s'.history == s.history && s'.log == s.log && s'.durable >= s.durable
    requires s'.logged == s.logged && s'.nextTicket == s.nextTicket
    ensures forall t :: t in s'.logged ==> Stands(s', t)
    ensures forall t :: t in s.acked ==> t < s'.nextTicket && t in s'.logged && Secured(s', s'.logged[t].end)
  {
    hide Secured;
    forall t | t in s'.logged ensures Stands(s', t) {
      assert Stands(s, t);
    }
    forall t | t in s.acked ensures Secured(s', s'.logged[t].end) {
      SecuredFrame(s, s', s.logged[t].end);
    }
  }

  lemma WriteKeeps(s: State, n: nat)
    requires Inv(s) && Enabled(s, WriteChunk(n))
    ensures Inv(Step(s, WriteChunk(n)))
  {
    hide HistoryInv, Secured, LogBytes, Tickets, Entries;
    var s' := Step(s, WriteChunk(n));
    HistoryFrame(s, s');
    assert s'.file + s'.unwritten == s.file + s.unwritten;
    SnapshotFrame(s, s');
    PromiseFrame(s, s');
    PendingFrame(s, s');
  }

  lemma PendingFrame(s: State, s': State)
    requires PromiseInv(s)
    requires s'.history == s.history && s'.queue == s.queue && s'.drained == s.drained
    requires s'.logged == s.logged && s'.nextTicket == s.nextTicket
    ensures forall t :: t in Tickets(s'.drained) ==> Pending(s', t, |s'.history| - |Entries(s'.queue)|)
    ensures forall t :: t in Tickets(s'.queue) ==> Pending(s', t, |s'.history|)
  {
    hide Tickets, Entries;
    forall t | t in Tickets(s'.drained) ensures Pending(s', t, |s'.history| - |Entries(s'.queue)|) {
      assert Pending(s, t, |s.history| - |Entries(s.queue)|);
    }
    forall t | t in Tickets(s'.queue) ensures Pending(s', t, |s'.history|) {
      assert Pending(s, t, |s.history|);
    }
  }

  lemma SyncKeeps(s: State)
    requires Inv(s) && Enabled(s, Sync)
    ensures Inv(Step(s, Sync))
  {
    hide HistoryInv, Secured, LogBytes, Tickets, Entries;
    var s' := Step(s, Sync);
    HistoryFrame(s, s');
    SnapshotFrame(s, s');
    PromiseFrame(s, s');
    PendingFrame(s, s');
  }

  /** Once everything drained is written and synced, its promises are backed by the durable file. */
  lemma SyncedSecures(s: State, n: nat)
    requires HistoryInv(s) && FileInv(s) && Flushed(s) && !s.fatal
    requires n <= |s.history| - |Entries(s.queue)|
    ensures Secured(s, n)
  {
    hide HistoryInv, LogBytes, Entries;
    HistoryBound(s);
    var q := |s.log| - |Entries(s.queue)|;
    if n > LogStart(s) {
      assert s.log == s.log[..q] + Entries(s.queue);
      LogBytesConcat(s.log[..q], Entries(s.queue));
      LogPrefixSize(s.log, n - LogStart(s), q);
      assert |s.file| + |LogBytes(Entries(s.queue))| == |MAGIC| + |LogBytes(s.log)|;
      LogNotEmpty(s.log[..q]);
    }
  }

  lemma LogNotEmpty(es: seq<Entry>)
    ensures es != [] ==> |LogBytes(es)| > 0
  {
    hide Frame;
  }

  lemma HistoryBound(s: State)
    requires HistoryInv(s)
    ensures |s.log| <= |s.history|
  {
  }

  lemma AckedSecured(s: State, t: nat)
    requires Inv(s) && Enabled(s, Ack) && t in Tickets(s.drained)
    ensures t < s.nextTicket && t in s.logged && Secured(s, s.logged[t].end)
  {
    hide HistoryInv, SnapshotInv, Secured, LogBytes, Tickets, Entries;
    assert Pending(s, t, |s.history| - |Entries(s.queue)|);
    SyncedSecures(s, s.logged[t].end);
  }

  lemma AckPromises(s: State, s': State)
    requires Inv(s) && Enabled(s, Ack)
    requires s' == s.(drained := [], acked := s.acked + Tickets(s.drained))
    ensures PromiseInv(s')
  {
    hide HistoryInv, FileInv, SnapshotInv, Secured, LogBytes, Tickets, Entries;
    PromiseFrame(s, s');
    assert Tickets([]) == {} by { NothingPending(); }
    forall t | t in s'.acked ensures t < s'.nextTicket && t in s'.logged && Secured(s', s'.logged[t].end) {
      if t !in s.acked {
        AckedSecured(s, t);
        SecuredFrame(s, s', s.logged[t].end);
      }
    }
    forall t | t in Tickets(s'.queue) ensures Pending(s', t, |s'.history|) {
      assert Pending(s, t, |s.history|);
    }
  }

  lemma AckKeeps(s: State)
    requires Inv(s) && Enabled(s, Ack)
    ensures Inv(Step(s, Ack))
  {
    hide HistoryInv, PromiseInv, Secured, LogBytes, Tickets, Entries;
    var s' := Step(s, Ack);
    HistoryFrame(s, s');
    SnapshotFrame(s, s');
    AckPromises(s, s');
  }

  lemma WriteErrorKeeps(s: State, n: nat)
    requires Inv(s) && Enabled(s, WriteError(n)) && Clean(s, WriteError(n))
    ensures Inv(Step(s, WriteError(n)))
  {
    hide HistoryInv, Secured, LogBytes, Tickets;
    var s' := Step(s, WriteError(n));
    HistoryFrame(s, s');
    assert Entries([]) == [] && LogBytes([]) == [] && Tickets([]) == {} by { NothingPending(); }
    assert s.file + s.unwritten + [] == s'.file + s.unwritten[n..];
    SnapshotFrame(s, s');
    PromiseFrame(s, s');
    PendingNothing(s, s');
  }

  lemma PendingNothing(s: State, s': State)
    requires PromiseInv(s) && s'.drained == [] && s'.queue == []
    ensures forall t :: t in Tickets(s'.drained) ==> Pending(s', t, |s'.history| - |Entries(s'.queue)|)
    ensures forall t :: t in Tickets(s'.queue) ==> Pending(s', t, |s'.history|)
  {
    NothingPending();
  }

  lemma PublishKeeps(s: State, t: nat)
    requires Inv(s) && Enabled(s, Publish(t))
    ensures Inv(Step(s, Publish(t)))
  {
    hide HistoryInv, FileInv, Secured, LogBytes, Tickets, Entries;
    var s' := Step(s, Publish(t));
    HistoryFrame(s, s');
    FileFrame(s, s');
    SnapshotFrame(s, s');
    PromiseFrame(s, s');
    PendingFrame(s, s');
  }

  // ---- The checkpointer keeps the invariant ----

  lemma FileFrame(s: State, s': State)
    requires FileInv(s)
    requires s'.file == s.file && s'.durable == s.durable && s'.fatal == s.fatal && s'.unwritten == s.unwritten
    requires s'.queue == s.queue && s'.drained == s.drained && s'.log == s.log
    requires s'.phase.Emptied? == s.phase.Emptied?
    ensures FileInv(s')
  {
  }

  /** A clean rename finds everything secured. */
  lemma RenameSecures(s: State, image: Db)
    requires HistoryInv(s) && FileInv(s) && Clean(s, Rename(image))
    ensures Secured(s, |s.history|) && s.tables == Replay(map[], s.history)
  {
    hide Secured, LogBytes, Snapshots.DbStable, Replay;
    NothingPending();
    HealthyTables(s);
    SyncedSecures(s, |s.history|);
  }

  lemma RenameKeeps(s: State, image: Db)
    requires Inv(s) && Enabled(s, Rename(image)) && Clean(s, Rename(image))
    ensures Inv(Step(s, Rename(image)))
  {
    hide HistoryInv, FileInv, Secured, LogBytes, Tickets, Entries, Replay, Snapshots.Image, Snapshots.DbStable, Flushed;
    var s' := Step(s, Rename(image));
    HistoryFrame(s, s');
    FileFrame(s, s');
    Snapshots.SnapshotFaithful(s.tables, image);
    RenameSecures(s, image);
    HistoryBound(s);
    SecuredFrame(s, s', |s.history|);
    assert s'.history[..s'.covered] == s.history;
    PromiseFrame(s, s');
    PendingFrame(s, s');
  }

  /** Only the checkpointer's phase changes, and the snapshot is up to date. */
  lemma PhaseFrame(s: State, phase: Phase)
    requires HistoryInv(s) && FileInv(s) && SnapshotInv(s)
    requires !s.phase.Emptied? && !phase.Emptied? && s.covered == |s.history|
    ensures HistoryInv(s.(phase := phase)) && FileInv(s.(phase := phase)) && SnapshotInv(s.(phase := phase))
  {
    hide Secured, LogBytes, Entries;
    var s' := s.(phase := phase);
    HistoryFrame(s, s');
    SecuredFrame(s, s', s.covered);
  }

  lemma BarrierPhase(s: State, barrier: nat)
    requires Inv(s) && s.phase.Renamed?
    requires barrier !in Tickets(s.drained) && barrier !in s.acked
    ensures Inv(s.(phase := Draining(barrier)))
  {
    hide HistoryInv, FileInv, Secured, Tickets, Entries;
    var s' := s.(phase := Draining(barrier));
    PhaseFrame(s, s'.phase);
    PromiseFrame(s, s');
    PendingFrame(s, s');
  }

  lemma SubmitBarrierKeeps(s: State)
    requires Inv(s) && Enabled(s, SubmitBarrier)
    ensures Inv(Step(s, SubmitBarrier))
  {
    hide HistoryInv, FileInv, SnapshotInv, Secured, Tickets;
    ReplayNothing(s.tables);
    FreshTicket(s);
    EnqueueKeeps(s, [], []);
    BarrierPhase(Enqueue(s, s.tables, [], []), s.nextTicket);
  }

  lemma FreshTicket(s: State)
    requires PromiseInv(s)
    ensures s.nextTicket !in Tickets(s.drained) && s.nextTicket !in s.acked
  {
    hide Tickets, Entries;
    assert forall t :: t in Tickets(s.drained) ==> Pending(s, t, |s.history| - |Entries(s.queue)|);
  }

  lemma TruncateHistory(s: State, s': State)
    requires HistoryInv(s) && s' == Truncated(s)
    ensures HistoryInv(s')
  {
    hide Replay, AllSettle, Records, Loggable;
    assert s'.history[LogStart(s')..] == [];
  }

  /** A truncation finds nothing pending in the writer, and the snapshot holding everything. */
  lemma TruncateFinds(s: State)
    requires Inv(s) && Enabled(s, Truncate)
    ensures s.queue == [] && s.drained == [] && s.unwritten == []
    ensures Step(s, Truncate) == Truncated(s)
    ensures s.covered == |s.history| && SnapshotTables(s) == Replay(map[], s.history[..s.covered])
  {
    hide HistoryInv, Secured, LogBytes, Tickets, Entries, Replay;
  }

  lemma TruncatedFile(s: State)
    requires s.queue == [] && s.drained == [] && s.unwritten == []
    ensures FileInv(Truncated(s))
  {
    hide LogBytes;
    NothingPending();
  }

  lemma TruncatedSnapshot(s: State)
    requires s.covered == |s.history| && SnapshotTables(s) == Replay(map[], s.history[..s.covered])
    ensures SnapshotInv(Truncated(s))
  {
    hide Secured, Replay;
    SecuredWhenEmpty(Truncated(s), s.covered);
  }

  lemma TruncateKeeps(s: State)
    requires Inv(s) && Enabled(s, Truncate)
    ensures Inv(Step(s, Truncate))
  {
    hide HistoryInv, FileInv, SnapshotInv, PromiseInv, Step, Enabled, Replay;
    TruncateFinds(s);
    TruncateHistory(s, Truncated(s));
    TruncatedFile(s);
    TruncatedSnapshot(s);
    TruncatePromises(s, Truncated(s));
  }

  lemma TruncatePromises(s: State, s': State)
    requires PromiseInv(s) && s'.log == [] && s'.history == s.history && s'.phase.Emptied?
    requires s'.logged == s.logged && s'.nextTicket == s.nextTicket && s'.acked == s.acked
    requires s'.published == s.published && s'.queue == s.queue && s'.drained == s.drained
    ensures PromiseInv(s')
  {
    hide Secured, Tickets, Entries;
    forall t | t in s'.logged ensures Stands(s', t) {
      assert Stands(s, t);
    }
    forall t | t in s'.acked ensures Secured(s', s'.logged[t].end) {
      SecuredBound(s, s.logged[t].end);
      SecuredWhenEmpty(s', s'.logged[t].end);
    }
    PendingFrame(s, s');
  }

  lemma SecuredWhenEmpty(s: State, n: nat)
    requires s.log == [] && n <= |s.history|
    ensures Secured(s, n)
  {
  }

  lemma WriteMagicKeeps(s: State)
    requires Inv(s) && Enabled(s, WriteMagic)
    ensures Inv(Step(s, WriteMagic))
  {
    hide HistoryInv, Secured, LogBytes, Tickets, Entries;
    var s' := Step(s, WriteMagic);
    HistoryFrame(s, s');
    SecuredFrame(s, s', s.covered);
    assert Entries([]) == [] && LogBytes([]) == [] by { NothingPending(); }
    PromiseFrame(s, s');
    PendingFrame(s, s');
  }

  // ---- Crash and recovery ----

  lemma {:induction false} OpsOfLog(s: State, k: nat)
    requires HistoryInv(s) && k <= |s.log|
    ensures OpsOf(s.log[..k]) == s.history[LogStart(s)..LogStart(s) + k]
  {
    hide Records, Loggable, OpsOf, Replay, AllSettle;
    var ops := s.history[LogStart(s)..LogStart(s) + k];
    assert RecordsAll(s.log[..k], ops);
    RecordedOpsReadBack(s.log[..k], ops);
  }

  /** Replaying [from, to) over the tables at `mid`, inside it, gives the tables at `to`. */
  lemma ReplayOverlapping(history: seq<Op>, from: nat, mid: nat, to: nat)
    requires from <= mid <= to <= |history|
    requires AllSettle(map[], history)
    ensures Replay(Replay(map[], history[..mid]), history[from..to]) == Replay(map[], history[..to])
  {
    hide Replay, AllSettle;
    assert history == history[..mid] + history[mid..];
    ReplayConcat(map[], history[..mid], history[mid..]);
    assert history[..mid] == history[..from] + history[from..mid];
    ReplayConcat(map[], history[..from], history[from..mid]);
    ReplayIdempotent(Replay(map[], history[..from]), history[from..mid]);
    assert history[from..to] == history[from..mid] + history[mid..to];
    ReplayConcat(Replay(map[], history[..mid]), history[from..mid], history[mid..to]);
    assert history[..to] == history[..mid] + history[mid..to];
    ReplayConcat(map[], history[..mid], history[mid..to]);
  }

  lemma FileIsPrefix(s: State)
    requires FileInv(s) && !s.phase.Emptied?
    ensures |MAGIC| <= |s.file| && s.file <= MAGIC + LogBytes(s.log)
  {
    hide LogBytes, Entries;
    if !s.fatal {
      assert s.file <= s.file + s.unwritten + LogBytes(Entries(s.queue));
    }
  }

  lemma ReadableLog(s: State, cut: nat)
    requires HistoryInv(s) && FileInv(s) && |MAGIC| <= cut <= |s.file|
    requires !s.phase.Emptied?
    ensures ReadLog(s.file[..cut]) == s.log[..CompleteFrames(s.log, cut - |MAGIC|)]
  {
    hide LogBytes, ReadLog, CompleteFrames, Entries, Loggable, Records, Replay, AllSettle;
    var whole := MAGIC + LogBytes(s.log);
    FileIsPrefix(s);
    assert s.file[..cut] == whole[..cut];
    TornFile(s.log, cut);
  }

  /** The tables recovered after a crash are those of a prefix of the history that holds everything secured. */
  lemma CrashKeepsPrefix(s: State, cut: nat)
    requires HistoryInv(s) && FileInv(s) && SnapshotInv(s)
    requires s.durable <= cut <= |s.file|
    ensures s.covered <= Survivors(s, cut) <= |s.history|
    ensures Recover(s.snapshot, s.file[..cut]) == Replay(map[], s.history[..Survivors(s, cut)])
    ensures forall n: nat :: Secured(s, n) ==> n <= Survivors(s, cut)
  {
    hide LogBytes, ReadLog, CompleteFrames, Replay, OpsOf, AllSettle, Records, Loggable, Entries;
    var j := Survivors(s, cut);
    if s.phase.Emptied? {
      assert ReadLog([]) == [] && OpsOf([]) == [] by { EmptyLogs(); }
      assert Replay(SnapshotTables(s), []) == SnapshotTables(s) by { ReplayNothing(SnapshotTables(s)); }
      SecuredBound(s, s.covered);
    } else if cut < |MAGIC| {
      ShortFile(s.file[..cut]);
      assert Replay(SnapshotTables(s), []) == SnapshotTables(s) by { ReplayNothing(SnapshotTables(s)); }
      NothingSynced(s);
    } else {
      var k := CompleteFrames(s.log, cut - |MAGIC|);
      forall n: nat | Secured(s, n) ensures n <= j {
        if n > LogStart(s) {
          CompleteFramesIsLargest(s.log, cut - |MAGIC|, n - LogStart(s));
        }
      }
      ReadableLog(s, cut);
      OpsOfLog(s, k);
      ReplayOverlapping(s.history, LogStart(s), s.covered, j);
    }
  }

  lemma ShortFile(file: Blob)
    requires |file| < |MAGIC|
    ensures ReadLog(file) == [] && OpsOf([]) == []
  {
  }

  /** While not even the magic is synced, only what the snapshot covers is secured. */
  lemma NothingSynced(s: State)
    requires s.durable < |MAGIC|
    ensures forall n: nat :: Secured(s, n) ==> n <= LogStart(s)
  {
  }

  lemma EmptyLogs()
    ensures ReadLog([]) == [] && ReadLog(MAGIC) == [] && OpsOf([]) == []
  {
    assert MAGIC[|MAGIC|..] == [];
  }

  lemma ReplayNothing(db: Db)
    ensures Replay(db, []) == db && AllSettle(db, [])
  {
  }

  // ---- Restarting keeps the invariant ----

  lemma ConsecutiveMax(es: seq<Entry>, first: int)
    requires Consecutive(es, first) && es != [] && first >= 0
    ensures MaxSequence(es) == first + |es| - 1
  {
    assert es[|es| - 1].sequence == first + |es| - 1;
  }

  /** What a clean restart finds: the log up to the cut, whole. */
  lemma CleanReopen(s: State, cut: nat, synced: nat, redrops: seq<Entry>, k: nat)
    requires Inv(s) && Enabled(s, Restart(cut, synced, redrops)) && Clean(s, Restart(cut, synced, redrops))
    requires k == WholeEntries(s, cut)
    ensures FileAfter(s, cut) == MAGIC + LogBytes(s.log[..k])
    ensures ReadLog(FileAfter(s, cut)) == s.log[..k]
    ensures Recover(s.snapshot, FileAfter(s, cut)) == Replay(map[], s.history[..Survivors(s, cut)])
  {
    hide LogBytes, ReadLog, CompleteFrames, Replay, OpsOf, AllSettle, Records, Loggable, Entries;
    CrashKeepsPrefix(s, cut);
    EmptyLogs();
    if cut == 0 {
      assert LogBytes([]) == [] by { NothingPending(); }
      assert FileAfter(s, cut) == MAGIC;
      assert s.log[..k] == [];
      ShortFile(s.file[..cut]);
    } else {
      FileIsPrefix(s);
      assert s.log == s.log[..k] + s.log[k..];
      LogBytesConcat(s.log[..k], s.log[k..]);
      assert s.file[..cut] == (MAGIC + LogBytes(s.log))[..cut];
      ReadableLog(s, cut);
    }
  }

  /** The state a clean restart begins from, written out. */
  ghost predicate Restarted(s: State, r: State, cut: nat, synced: nat, k: nat) {
    && k <= |s.log| && 0 <= LogStart(s) + k == Survivors(s, cut) <= |s.history|
    && r.history == s.history[..LogStart(s) + k]
    && r.log == s.log[..k]
    && r.tables == Replay(map[], r.history)
    && r.nextSequence == MaxSequence(r.log) + 1
    && r.file == MAGIC + LogBytes(r.log) && s.durable <= r.durable <= |r.file|
    && r.queue == [] && r.drained == [] && r.unwritten == [] && !r.fatal && r.phase.Serving?
    && r.snapshot == s.snapshot && r.covered == s.covered
    && r.acked == s.acked && r.published == s.published && r.nextTicket == s.nextTicket
    && r.logged == map t | t in s.logged && s.logged[t].end <= LogStart(s) + k :: s.logged[t]
  }

  lemma ReopenResult(s: State, cut: nat, synced: nat, redrops: seq<Entry>)
    requires Inv(s) && Enabled(s, Restart(cut, synced, redrops)) && Clean(s, Restart(cut, synced, redrops))
    ensures Restarted(s, Reopened(s, cut, synced), cut, synced, WholeEntries(s, cut))
  {
    hide LogBytes, ReadLog, WholeEntries, Replay, OpsOf, AllSettle, Records, Loggable, Entries, Recover,
      PromiseInv, HistoryInv, FileInv, SnapshotInv;
    CleanReopen(s, cut, synced, redrops, WholeEntries(s, cut));
    CrashKeepsPrefix(s, cut);
  }

  lemma RestartHistory(s: State, r: State, cut: nat, synced: nat, k: nat)
    requires Restarted(s, r, cut, synced, k) && HistoryInv(s)
    ensures HistoryInv(r)
  {
    hide LogBytes, Replay, AllSettle, Survivors, RecordsAll, AllLoggable, Consecutive, MaxSequence;
    var j := LogStart(s) + k;
    assert s.history == s.history[..j] + s.history[j..];
    ReplayConcat(map[], s.history[..j], s.history[j..]);
    assert r.history[LogStart(r)..] == s.history[LogStart(s)..][..k];
    PrefixRecorded(s.log, s.history[LogStart(s)..], k, s.nextSequence - |s.log|);
  }

  /** The first k entries of a well-formed log are one too. */
  lemma PrefixRecorded(log: seq<Entry>, ops: seq<Op>, k: nat, first: nat)
    requires RecordsAll(log, ops) && AllLoggable(log) && Consecutive(log, first) && first > 0 && k <= |log|
    ensures RecordsAll(log[..k], ops[..k]) && AllLoggable(log[..k])
    ensures MaxSequence(log[..k]) == if k > 0 then first + k - 1 else 0
    ensures Consecutive(log[..k], MaxSequence(log[..k]) + 1 - k)
  {
    hide Records, Loggable;
    if k > 0 {
      ConsecutiveMax(log[..k], first);
    }
  }

  lemma RestartFile(s: State, r: State, cut: nat, synced: nat, k: nat)
    requires Restarted(s, r, cut, synced, k)
    ensures FileInv(r)
  {
    hide Survivors, LogBytes, Entries, Replay, MaxSequence;
    NothingPending();
    assert r.log[|r.log|..] == [];
    assert r.file + [] + [] == r.file;
  }

  /** What was secured before the crash still is: it was synced, so it was kept, and it is still synced. */
  lemma RestartSecures(s: State, r: State, cut: nat, synced: nat, k: nat, n: nat)
    requires Restarted(s, r, cut, synced, k) && Secured(s, n) && n <= Survivors(s, cut)
    ensures Secured(r, n)
  {
    hide LogBytes, Survivors, Replay, MaxSequence;
    if n > LogStart(s) {
      assert r.log[..n - LogStart(r)] == s.log[..n - LogStart(s)];
    }
  }

  lemma RestartPromises(s: State, r: State, cut: nat, synced: nat, k: nat)
    requires Restarted(s, r, cut, synced, k) && PromiseInv(s)
    requires forall n: nat :: Secured(s, n) ==> n <= |r.history| && Secured(r, n)
    ensures PromiseInv(r)
  {
    hide Replay, Secured, LogBytes, Survivors, Entries, MaxSequence;
    NothingPending();
    forall t | t in r.logged ensures Stands(r, t) {
      assert r.history[..s.logged[t].end] == s.history[..s.logged[t].end] by { assert Stands(s, t); }
      StandsOn(s, r, t);
    }
  }

  lemma ReopenKeeps(s: State, cut: nat, synced: nat, redrops: seq<Entry>)
    requires Inv(s) && Enabled(s, Restart(cut, synced, redrops)) && Clean(s, Restart(cut, synced, redrops))
    ensures Inv(Reopened(s, cut, synced))
  {
    hide Clean, LogBytes, Replay, Entries, Survivors, WholeEntries, Secured, HistoryInv, FileInv, PromiseInv, Reopened,
      MaxSequence;
    var k := WholeEntries(s, cut);
    var r := Reopened(s, cut, synced);
    CrashKeepsPrefix(s, cut);
    ReopenResult(s, cut, synced, redrops);
    RestartHistory(s, r, cut, synced, k);
    RestartFile(s, r, cut, synced, k);
    forall n: nat | Secured(s, n) ensures n <= |r.history| && Secured(r, n) {
      RestartSecures(s, r, cut, synced, k, n);
    }
    assert r.history[..s.covered] == s.history[..s.covered];
    RestartPromises(s, r, cut, synced, k);
  }

  // ---- Logging dropped tables again ----

  /** A restarted state in which the entries record drops of tables that are not there. */
  ghost predicate Relogs(r: State, redrops: seq<Entry>, drops: seq<Op>) {
    && r.queue == [] && r.drained == [] && r.unwritten == [] && !r.fatal && r.phase.Serving?
    && RecordsAll(redrops, drops) && AllLoggable(redrops) && Consecutive(redrops, r.nextSequence)
    && OnlyDrops(drops) && forall i :: 0 <= i < |drops| ==> drops[i].table !in r.tables
  }

  lemma RelogHistory(r: State, redrops: seq<Entry>, drops: seq<Op>)
    requires HistoryInv(r) && Relogs(r, redrops, drops)
    ensures HistoryInv(Relogged(r, redrops)) && OpsOf(redrops) == drops
  {
    hide Records, Loggable, LogBytes, Replay, AllSettle, OpsOf, HistoryInv, Enqueue;
    RecordedOpsReadBack(redrops, drops);
    DropsOfAbsent(r.tables, drops);
    EnqueueHistory(r, drops, redrops);
    EnqueuedFields(r, drops, redrops);
    HistoryFrame(Enqueue(r, r.tables, drops, redrops), Relogged(r, redrops));
  }

  lemma EnqueuedFields(r: State, ops: seq<Op>, es: seq<Entry>)
    requires |ops| == |es|
    ensures var e := Enqueue(r, r.tables, ops, es);
            && e.tables == r.tables && e.history == r.history + ops && e.log == r.log + es
            && e.nextSequence == r.nextSequence + |es| && e.fatal == r.fatal
            && (es == [] ==> e.history == r.history && e.log == r.log)
  {
  }

  lemma RelogFile(r: State, redrops: seq<Entry>, drops: seq<Op>)
    requires FileInv(r) && Relogs(r, redrops, drops)
    ensures FileInv(Relogged(r, redrops))
  {
    hide LogBytes, Entries, OpsOf, Records, Loggable;
    NothingPending();
    LogBytesConcat(r.log, redrops);
    var s := Relogged(r, redrops);
    assert s.log[|s.log|..] == [];
    assert r.file + [] + [] == r.file && s.file + [] + [] == s.file;
    assert MAGIC + LogBytes(r.log) + LogBytes(redrops) == MAGIC + (LogBytes(r.log) + LogBytes(redrops));
  }

  lemma RelogSecures(r: State, redrops: seq<Entry>, drops: seq<Op>, n: nat)
    requires Secured(r, n) && r.durable <= |r.file| && |r.log| <= |r.history| && |OpsOf(redrops)| == |redrops|
    ensures Secured(Relogged(r, redrops), n)
  {
    hide LogBytes, OpsOf;
    if n > LogStart(r) {
      assert (r.log + redrops)[..n - LogStart(r)] == r.log[..n - LogStart(r)];
    }
  }

  lemma RelogPromises(r: State, redrops: seq<Entry>, drops: seq<Op>)
    requires PromiseInv(r) && Relogs(r, redrops, drops)
    requires forall n: nat :: Secured(r, n) ==> Secured(Relogged(r, redrops), n)
    ensures PromiseInv(Relogged(r, redrops))
  {
    hide LogBytes, Secured, Entries, OpsOf, Records, Loggable, Stands;
    NothingPending();
    var s := Relogged(r, redrops);
    forall t | t in s.logged ensures Stands(s, t) {
      StandsAfter(r, s, t, if redrops == [] then [] else OpsOf(redrops));
    }
  }

  lemma RelogKeeps(r: State, redrops: seq<Entry>, drops: seq<Op>)
    requires Inv(r) && Relogs(r, redrops, drops)
    ensures Inv(Relogged(r, redrops))
  {
    hide HistoryInv, LogBytes, Secured, PromiseInv, Replay, OpsOf, FileInv, Relogs;
    RelogHistory(r, redrops, drops);
    RelogFile(r, redrops, drops);
    RelogSizes(r, redrops, drops);
    var s := Relogged(r, redrops);
    forall n: nat | Secured(r, n) ensures Secured(s, n) {
      RelogSecures(r, redrops, drops, n);
    }
    RelogPromises(r, redrops, drops);
    assert s.phase.Serving? by { RelogPhase(r, redrops, drops); }
    SecuredBound(r, r.covered);
    assert s.history[..r.covered] == r.history[..r.covered];
  }

  lemma RelogSizes(r: State, redrops: seq<Entry>, drops: seq<Op>)
    requires HistoryInv(r) && FileInv(r) && Relogs(r, redrops, drops)
    ensures r.durable <= |r.file| && |r.log| <= |r.history| && |redrops| == |drops|
  {
  }

  lemma RelogPhase(r: State, redrops: seq<Entry>, drops: seq<Op>)
    requires Relogs(r, redrops, drops)
    ensures Relogged(r, redrops).phase.Serving?
  {
  }

  lemma RestartKeeps(s: State, cut: nat, synced: nat, redrops: seq<Entry>)
    requires Inv(s) && Enabled(s, Restart(cut, synced, redrops)) && Clean(s, Restart(cut, synced, redrops))
    ensures Inv(Step(s, Restart(cut, synced, redrops)))
  {
    hide Inv, Relogged, Replay, OpsOf, Redropped, LogBytes, ReadLog, MaxSequence, Records, Loggable;
    var drops := Redropped(SnapshotTables(s), OpsOf(ReadLog(FileAfter(s, cut))));
    RedroppedAreDrops(SnapshotTables(s), OpsOf(ReadLog(FileAfter(s, cut))));
    forall i | 0 <= i < |drops| ensures drops[i].table !in Reopened(s, cut, synced).tables {
      assert Records(redrops[i], drops[i]);
      RecordedTable(redrops[i], drops[i]);
    }
    ReopenKeeps(s, cut, synced, redrops);
    RelogKeeps(Reopened(s, cut, synced), redrops, drops);
  }

  lemma RecordedTable(e: Entry, op: Op)
    requires Records(e, op)
    ensures e.table == op.table
  {
  }

  // ---- Every clean run ----

  lemma CommitKeeps(s: State, ws: seq<Write>, es: seq<Entry>)
    requires Inv(s) && Enabled(s, Commit(ws, es)) && Clean(s, Commit(ws, es))
    ensures Inv(Step(s, Commit(ws, es)))
  {
    hide HistoryInv, SnapshotInv, PromiseInv, Enqueue, Replayable, CommitWrites, Records, Loggable;
    if s.fatal {
      TablesFrame(s, CommitWrites(s.tables, ws).0);
    } else {
      ReplayableCommitReplays(s.tables, ws);
      assert s.tables == Replay(map[], s.history) by { HealthyTables(s); }
      EnqueueKeeps(s, LoggedOps(ws), es);
    }
  }

  lemma HealthyTables(s: State)
    requires HistoryInv(s) && !s.fatal
    ensures s.tables == Replay(map[], s.history)
  {
  }

  /** Once the log is broken the live tables may run ahead of it. */
  lemma TablesFrame(s: State, tables: Db)
    requires Inv(s) && s.fatal
    ensures Inv(s.(tables := tables))
  {
    hide Secured, LogBytes, Tickets, Entries, Replay, OpsOf, RecordsAll, AllLoggable, Consecutive;
    var s' := s.(tables := tables);
    SnapshotFrame(s, s');
    PromiseFrame(s, s');
    PendingFrame(s, s');
  }

  lemma DefineKeeps(s: State, op: Op, e: Entry)
    requires Inv(s) && Enabled(s, Define(op, e)) && Clean(s, Define(op, e))
    ensures Inv(Step(s, Define(op, e)))
  {
    hide HistoryInv, SnapshotInv, PromiseInv, FileInv, Enqueue, Records, Loggable, ReplayOp, Succeeds;
    if s.fatal {
      TablesFrame(s, ReplayOp(s.tables, op));
      return;
    }
    assert AllSettle(s.tables, [op]) && Replay(s.tables, [op]) == ReplayOp(s.tables, op) by {
      ReplayNothing(ReplayOp(s.tables, op));
    }
    EnqueueKeeps(s, [op], [e]);
  }

  lemma StepKeeps(s: State, a: Action)
    requires Inv(s) && Enabled(s, a) && Clean(s, a)
    ensures Inv(Step(s, a))
  {
    hide Inv, Step;
    match a
    case Commit(ws, es) => CommitKeeps(s, ws, es);
    case Define(op, e) => DefineKeeps(s, op, e);
    case Drain => DrainKeeps(s);
    case WriteChunk(n) => WriteKeeps(s, n);
    case Sync => SyncKeeps(s);
    case Ack => AckKeeps(s);
    case WriteError(n) => WriteErrorKeeps(s, n);
    case Publish(t) => PublishKeeps(s, t);
    case Rename(image) => RenameKeeps(s, image);
    case SubmitBarrier => SubmitBarrierKeeps(s);
    case Truncate => TruncateKeeps(s);
    case WriteMagic => WriteMagicKeeps(s);
    case Restart(cut, synced, redrops) => RestartKeeps(s, cut, synced, redrops);
  }

  /** A run from s in which every action is enabled and clean. */
  ghost predicate CleanRun(s: State, actions: seq<Action>)
    decreases |actions|
  {
    actions == []
    || (Enabled(s, actions[0]) && Clean(s, actions[0]) && CleanRun(Step(s, actions[0]), actions[1..]))
  }

  ghost function RunFrom(s: State, actions: seq<Action>): State
    requires CleanRun(s, actions)
    decreases |actions|
  {
    if actions == [] then s else RunFrom(Step(s, actions[0]), actions[1..])
  }

  lemma {:induction false} RunKeeps(s: State, actions: seq<Action>)
    requires Inv(s) && CleanRun(s, actions)
    ensures Inv(RunFrom(s, actions))
    decreases |actions|
  {
    hide Inv, Step, Enabled, Clean;
    if actions != [] {
      StepKeeps(s, actions[0]);
      RunKeeps(Step(s, actions[0]), actions[1..]);
    }
  }

  lemma StartInv()
    ensures Inv(Start())
  {
    hide Replay, AllSettle, LogBytes, Entries, Tickets, Records, Loggable, HistoryInv, FileInv;
    NothingPending();
    ReplayNothing(map[]);
    var s := Start();
    assert s.history[..s.covered] == [];
    StartHistory();
    StartFile();
    SecuredWhenEmpty(s, 0);
  }

  lemma StartHistory()
    ensures HistoryInv(Start())
  {
    hide Records, Loggable;
    assert Start().history[LogStart(Start())..] == [];
  }

  lemma StartFile()
    ensures FileInv(Start())
  {
    hide LogBytes, Entries;
    NothingPending();
    var s := Start();
    assert s.log[|s.log|..] == [];
    assert s.file + s.unwritten + [] == MAGIC + [];
  }

  /** The group-commit facts, read off the invariant. */
  ghost predicate GroupCommitted(s: State) {
    && (!s.phase.Emptied? ==> if s.fatal then s.file <= MAGIC + LogBytes(s.log) else Whole(s))
    && Consecutive(s.log, s.nextSequence - |s.log|)
    && (!s.fatal ==> s.tables == Replay(map[], s.history) == Replay(SnapshotTables(s), OpsOf(s.log)))
    && (forall t :: t in s.acked ==> Stands(s, t) && Secured(s, s.logged[t].end))
    && (forall t :: t in s.published ==> Stands(s, t) && Secured(s, s.logged[t].end))
  }

  lemma TablesAreSnapshotPlusLog(s: State)
    requires HistoryInv(s) && SnapshotInv(s)
    ensures Replay(map[], s.history) == Replay(SnapshotTables(s), OpsOf(s.log))
  {
    hide LogBytes, Replay, OpsOf, AllSettle, Records, Loggable;
    SecuredBound(s, s.covered);
    OpsOfLog(s, |s.log|);
    assert s.log[..|s.log|] == s.log && s.history[..|s.history|] == s.history;
    ReplayOverlapping(s.history, LogStart(s), s.covered, |s.history|);
  }

  lemma InvGroupCommitted(s: State)
    requires Inv(s)
    ensures GroupCommitted(s)
  {
    hide LogBytes, Replay, OpsOf, AllSettle, Secured, Stands, Records, Loggable, Entries, Tickets, Consecutive, Pending;
    TablesAreSnapshotPlusLog(s);
  }

  /**
   Group commit, in every state of every clean run from an empty directory: what is in the file, in the
   writer's hands and in the queue is the log, in consecutive sequence order; the live tables are the replay
   of the snapshot and then the log, and of the whole history; a promise is resolved true only once all its
   operations are in the snapshot or the synced part of the file, and events are published only after that.
   */
  lemma GroupCommit(actions: seq<Action>)
    requires CleanRun(Start(), actions)
    ensures GroupCommitted(RunFrom(Start(), actions))
  {
    hide CleanRun, RunFrom, Inv, GroupCommitted;
    StartInv();
    RunKeeps(Start(), actions);
    InvGroupCommitted(RunFrom(Start(), actions));
  }

  lemma InvParts(s: State)
    requires Inv(s)
    ensures HistoryInv(s) && FileInv(s) && SnapshotInv(s) && PromiseInv(s)
  {
  }

  /**
   Durability. Crash anywhere in a clean run, keeping any part of the file that includes what was synced:
   recovery yields the tables of some prefix of the logged operations in commit order, and that prefix
   holds every operation of every transaction whose promise was resolved true.
   */
  lemma CrashRecovery(actions: seq<Action>, cut: nat)
    requires CleanRun(Start(), actions)
    requires RunFrom(Start(), actions).durable <= cut <= |RunFrom(Start(), actions).file|
    ensures
      var s := RunFrom(Start(), actions);
      exists j: nat :: j <= |s.history|
        && Recover(s.snapshot, s.file[..cut]) == Replay(map[], s.history[..j])
        && forall t :: t in s.acked ==> Stands(s, t) && s.logged[t].end <= j
  {
    hide Inv, CleanRun, LogBytes, Replay, Recover, AllSettle, HistoryInv, FileInv, SnapshotInv, Secured;
    var s := RunFrom(Start(), actions);
    StartInv();
    RunKeeps(Start(), actions);
    InvParts(s);
    CrashKeepsPrefix(s, cut);
    var j: nat := Survivors(s, cut);
    assert forall t :: t in s.acked ==> Stands(s, t) && s.logged[t].end <= j;
  }

  /**
   Checkpoint safety. With nothing pending in the writer, a crash before the snapshot is renamed into place,
   between rename and truncation, with the file emptied, or after the magic is rewritten recovers the same tables.
   */
  lemma CheckpointSafe(s: State, image: Db)
    requires Inv(s) && Enabled(s, Rename(image)) && Clean(s, Rename(image))
    ensures Recover(s.snapshot, s.file) == s.tables
    ensures Recover(Some(image), s.file) == s.tables
    ensures Recover(Some(image), []) == s.tables
    ensures Recover(Some(image), MAGIC) == s.tables
  {
    hide HistoryInv, FileInv, SnapshotInv, PromiseInv, Replay, OpsOf, LogBytes, Entries, Recover, Clean, Survivors, Secured;
    var s' := Step(s, Rename(image));
    assert s.durable <= |s.file| && s.tables == Replay(map[], s.history) by { Quiet(s, image); }
    RenameKeeps(s, image);
    assert s.file[..|s.file|] == s.file;
    SyncedSecures(s, |s.history|) by { Quiet(s, image); }
    CrashKeepsPrefix(s, |s.file|);
    assert s.history[..|s.history|] == s.history;
    SecuredFrame(s, s', |s.history|);
    CrashKeepsPrefix(s', |s'.file|);
    assert image == s.tables by { Snapshots.SnapshotFaithful(s.tables, image); CleanRename(s, image); }
    EmptyLogs();
    ReplayNothing(image);
    assert Recover(Some(image), []) == Replay(image, []) && Recover(Some(image), MAGIC) == Replay(image, []) by {
      RecoverEmpty(image);
    }
  }

  lemma RecoverEmpty(image: Db)
    ensures Recover(Some(image), []) == Replay(image, []) && Recover(Some(image), MAGIC) == Replay(image, [])
  {
    EmptyLogs();
  }

  lemma CleanRename(s: State, image: Db)
    requires Clean(s, Rename(image))
    ensures Snapshots.DbStable(s.tables)
  {
  }

  lemma Quiet(s: State, image: Db)
    requires Inv(s) && Clean(s, Rename(image))
    ensures !s.fatal && Flushed(s) && s.durable <= |s.file| && Entries(s.queue) == []
    ensures s.tables == Replay(map[], s.history)
  {
  }
}
