/**
 The log and engine objects take the steps of the protocol: each call that moves the log is a run of the
 state machine from a state the object shows to another it shows.
 */
module ProtocolObjects {
  import opened Wrappers
  import opened Bytes
  import opened RowCodec
  import opened Wal
  import opened Tables
  import opened Protocol
  import Engine
  import ProtocolRuns

  /** A run of enabled steps, clean or not. */
  ghost predicate Runs(s: State, actions: seq<Action>, t: State)
    decreases |actions|
  {
    if actions == [] then s == t else Enabled(s, actions[0]) && Runs(Step(s, actions[0]), actions[1..], t)
  }

  /** The object's batches are the state's, with promises numbered from `base`. */
  ghost predicate SameQueue(batches: seq<PendingBatch>, queue: seq<Batch>, base: nat) {
    && |batches| == |queue|
    && forall i :: 0 <= i < |queue| ==>
         queue[i].ticket >= base && batches[i] == PendingBatch(LogBytes(queue[i].entries), queue[i].ticket - base)
  }

  predicate Acked(acked: set<nat>, base: nat, promise: nat) {
    base + promise in acked
  }

  /** Promises resolved true are the acknowledged tickets, and those in the queue are not resolved yet. */
  ghost predicate SamePromises(
      promises: map<nat, bool>, batches: seq<PendingBatch>, next: nat, acked: set<nat>, base: nat)
  {
    && (forall p: nat :: Acked(acked, base, p) <==> p in promises && promises[p])
    && (forall p :: p in promises ==> p < next)
    && forall i :: 0 <= i < |batches| ==> batches[i].done < next && batches[i].done !in promises
  }

  /** The log object, in Fsync mode and between turns of its writer, shows this state of the protocol. */
  ghost predicate Shows(w: WriteAheadLog, s: State, base: nat)
    reads w
  {
    && w.Valid() && w.fsync
    && w.file == s.file && w.synced == s.durable && w.fatal == s.fatal && w.nextSequence == s.nextSequence
    && s.drained == [] && s.unwritten == [] && !s.phase.Emptied?
    && (if s.fatal then s.nextTicket <= base + w.nextPromise else s.nextTicket == base + w.nextPromise)
    && SameQueue(w.queue, s.queue, base)
    && SamePromises(w.promises, w.queue, w.nextPromise, s.acked, base)
  }

  ghost predicate EngineShows(e: Engine.StorageEngine, s: State, base: nat)
    reads e, e.wal
  {
    Shows(e.wal, s, base) && e.tables == s.tables && s.phase.Serving?
  }

  lemma {:induction false} SameBytes(batches: seq<PendingBatch>, queue: seq<Batch>, base: nat)
    requires SameQueue(batches, queue, base)
    ensures BatchBytes(batches) == LogBytes(Entries(queue))
    decreases |queue|
  {
    hide LogBytes;
    if queue == [] {
      NoLogBytes();
    } else {
      assert batches[0] == PendingBatch(LogBytes(queue[0].entries), queue[0].ticket - base);
      SameBytes(batches[1..], queue[1..], base);
      LogBytesConcat(queue[0].entries, Entries(queue[1..]));
    }
  }

  lemma {:induction false} Resolved(promises: map<nat, bool>, batches: seq<PendingBatch>, ok: bool, p: nat)
    ensures var after := Resolve(promises, batches, ok);
            if exists i :: 0 <= i < |batches| && batches[i].done == p then p in after && after[p] == ok
            else (p in after <==> p in promises) && (p in promises ==> after[p] == promises[p])
    decreases |batches|
  {
    if batches != [] {
      var rest := batches[1..];
      Resolved(promises[batches[0].done := ok], rest, ok, p);
      assert forall j :: 0 <= j < |rest| ==> rest[j] == batches[j + 1];
      forall i | 0 < i < |batches| && batches[i].done == p ensures exists j :: 0 <= j < |rest| && rest[j].done == p {
        assert rest[i - 1].done == p;
      }
    }
  }

  lemma ResolvedPromises(
      promises: map<nat, bool>, batches: seq<PendingBatch>, next: nat, acked: set<nat>, base: nat,
      queue: seq<Batch>, ok: bool)
    requires SamePromises(promises, batches, next, acked, base) && SameQueue(batches, queue, base)
    ensures SamePromises(Resolve(promises, batches, ok), [], next, if ok then acked + Tickets(queue) else acked, base)
  {
    var after := Resolve(promises, batches, ok);
    var acked' := if ok then acked + Tickets(queue) else acked;
    forall p: nat ensures Acked(acked', base, p) <==> p in after && after[p]
      ensures p in after ==> p < next
    {
      Resolved(promises, batches, ok, p);
      if i :| 0 <= i < |batches| && batches[i].done == p {
        assert queue[i].ticket == base + p;
      } else {
        forall i | 0 <= i < |queue| ensures queue[i].ticket != base + p {
          assert batches[i].done != p;
        }
        assert base + p !in Tickets(queue);
        assert Acked(acked, base, p) == Acked(acked', base, p);
      }
    }
  }

  lemma {:induction false} RunsMore(s: State, actions: seq<Action>, t: State, a: Action)
    requires Runs(s, actions, t) && Enabled(t, a)
    ensures Runs(s, actions + [a], Step(t, a))
    decreases |actions|
  {
    hide Enabled, Step;
    if actions == [] {
      assert [a][1..] == [];
    } else {
      assert (actions + [a])[1..] == actions[1..] + [a];
      RunsMore(Step(s, actions[0]), actions[1..], t, a);
    }
  }

  lemma RunsNothing(s: State)
    ensures Runs(s, [], s)
  {
  }

  /** The state a failed turn of the writer leaves, with n bytes of the batch in the file. */
  ghost function AfterError(s: State, n: nat): State
    requires n <= |LogBytes(Entries(s.queue))|
  {
    s.(queue := [], file := s.file + LogBytes(Entries(s.queue))[..n], fatal := true)
  }

  lemma SuccessfulTurn(s: State) returns (actions: seq<Action>)
    requires s.drained == [] && s.queue != [] && s.unwritten == []
    ensures Runs(s, actions, ProtocolRuns.AfterFlush(s))
  {
    hide Runs, LogBytes, Entries, Tickets;
    RunsNothing(s);
    RunsMore(s, [], s, Drain);
    actions := [] + [Drain];
    var t := Step(s, Drain);
    assert s.file + [] == s.file;
    if t.unwritten != [] {
      var write := WriteChunk(|t.unwritten|);
      assert t.unwritten[..|t.unwritten|] == t.unwritten && t.unwritten[|t.unwritten|..] == [];
      RunsMore(s, actions, t, write);
      actions := actions + [write];
      t := Step(t, write);
    }
    RunsMore(s, actions, t, Sync);
    actions := actions + [Sync];
    t := Step(t, Sync);
    RunsMore(s, actions, t, Ack);
    actions := actions + [Ack];
  }

  lemma FailedTurn(s: State, n: nat) returns (actions: seq<Action>)
    requires s.drained == [] && s.queue != [] && s.unwritten == [] && n <= |LogBytes(Entries(s.queue))|
    ensures Runs(s, actions, AfterError(s, n))
  {
    hide Runs, LogBytes, Entries;
    RunsNothing(s);
    RunsMore(s, [], s, Drain);
    RunsMore(s, [] + [Drain], Step(s, Drain), WriteError(n));
    actions := [] + [Drain] + [WriteError(n)];
  }

  /** A turn of the writer thread is Drain, WriteChunk, Sync and Ack, or Drain and WriteError. */
  method WriterTurn(w: WriteAheadLog, ghost s: State, ghost base: nat)
    returns (ok: bool, ghost actions: seq<Action>, ghost t: State)
    requires Shows(w, s, base) && w.queue != []
    modifies w
    ensures Runs(s, actions, t) && Shows(w, t, base)
    ensures ok ==> t == ProtocolRuns.AfterFlush(s)
    ensures !ok ==> exists n: nat :: n <= |LogBytes(Entries(s.queue))| && t == AfterError(s, n)
  {
    hide Runs, LogBytes, Entries, Tickets, SamePromises, Resolve, BatchBytes;
    SameBytes(w.queue, s.queue, base);
    ResolvedPromises(w.promises, w.queue, w.nextPromise, s.acked, base, s.queue, true);
    ResolvedPromises(w.promises, w.queue, w.nextPromise, s.acked, base, s.queue, false);
    ok := w.WriterPass();
    if ok {
      actions := SuccessfulTurn(s);
      t := ProtocolRuns.AfterFlush(s);
    } else {
      ghost var n := |w.file| - |s.file|;
      assert w.file == s.file + LogBytes(Entries(s.queue))[..n];
      actions := FailedTurn(s, n);
      t := AfterError(s, n);
    }
  }

  lemma QueuedPromises(
      promises: map<nat, bool>, batches: seq<PendingBatch>, next: nat, acked: set<nat>, base: nat, b: PendingBatch)
    requires SamePromises(promises, batches, next, acked, base) && b.done == next
    ensures SamePromises(promises, batches + [b], next + 1, acked, base)
    ensures SamePromises(promises[next := false], batches, next + 1, acked, base)
  {
    assert next !in promises;
    forall p: nat ensures Acked(acked, base, p) <==> p in promises[next := false] && promises[next := false][p] {
      assert Acked(acked, base, p) <==> p in promises && promises[p];
    }
  }

  /** The locked part of a commit is one Commit step, whether it applies, fails part-way or finds the log broken. */
  method CommitTurn(
      e: Engine.StorageEngine, writes: seq<Write>, transaction: uint64, now: uint64, ghost s: State, ghost base: nat)
    returns (ok: bool, ghost t: State, entries: seq<Entry>)
    requires EngineShows(e, s, base)
    modifies e`tables, e.wal
    ensures Enabled(s, Commit(writes, entries)) && t == Step(s, Commit(writes, entries))
    ensures EngineShows(e, t, base)
    ensures ok <==> CommitWrites(s.tables, writes).1
  {
    hide LogBytes, Records, CommitWrites, LoggedOps, SamePromises;
    ghost var next := e.wal.nextPromise;
    forall bytes: Blob
      ensures SamePromises(e.wal.promises, e.wal.queue + [PendingBatch(bytes, next)], next + 1, s.acked, base)
    {
      QueuedPromises(e.wal.promises, e.wal.queue, next, s.acked, base, PendingBatch(bytes, next));
    }
    QueuedPromises(e.wal.promises, e.wal.queue, next, s.acked, base, PendingBatch([], next));
    var done, events;
    ok, done, events, entries := e.CommitLocked(writes, transaction, now);
    t := Step(s, Commit(writes, entries));
  }

  /**
   Opening the file a crash left, of which `synced` bytes are on disk, and recovering from it is one Restart
   step, when there is no table to drop again.
   */
  method RestartTurn(ghost s: State, ghost cut: nat, synced: nat, file: Blob, snapshot: Option<Db>, now: uint64)
    returns (e: Engine.StorageEngine, ghost t: State)
    requires s.durable <= synced <= cut <= |s.file| && file == s.file[..cut] && snapshot == s.snapshot
    requires Redropped(SnapshotTables(s), OpsOf(ReadLog(FileAfter(s, cut)))) == []
    requires forall ticket :: ticket in s.acked ==> ticket < s.nextTicket
    ensures Enabled(s, Restart(cut, synced, [])) && t == Step(s, Restart(cut, synced, []))
    ensures EngineShows(e, t, s.nextTicket)
  {
    hide ReadLog, OpsOf, Replay, Redropped, LogBytes, MaxSequence, Enabled, Step;
    RestartState(s, cut, synced);
    var w := new WriteAheadLog(file, synced, true);
    e := new Engine.StorageEngine(w, snapshot);
    e.RecoverFromWAL(now);
    t := Step(s, Restart(cut, synced, []));
  }

  /** The parts of a restarted state that the objects hold. */
  lemma RestartState(s: State, cut: nat, synced: nat)
    requires s.durable <= synced <= cut <= |s.file|
    requires Redropped(SnapshotTables(s), OpsOf(ReadLog(FileAfter(s, cut)))) == []
    ensures Enabled(s, Restart(cut, synced, []))
    ensures var t := Step(s, Restart(cut, synced, []));
            && t.tables == Replay(SnapshotTables(s), OpsOf(ReadLog(FileAfter(s, cut))))
            && t.nextSequence == MaxSequence(ReadLog(FileAfter(s, cut))) + 1
            && t.file == FileAfter(s, cut) && t.durable == synced
            && t.queue == [] && t.drained == [] && t.unwritten == [] && !t.fatal && t.phase.Serving?
            && t.acked == s.acked && t.nextTicket == s.nextTicket
  {
    hide ReadLog, OpsOf, Replay, Redropped, LogBytes, MaxSequence;
  }

  // ---- The end of a checkpoint ----

  lemma {:induction false} RunsConcat(s: State, a: seq<Action>, t: State, b: seq<Action>, u: State)
    requires Runs(s, a, t) && Runs(t, b, u)
    ensures Runs(s, a + b, u)
    decreases |a|
  {
    hide Enabled, Step;
    if a == [] {
      assert a + b == b;
    } else {
      assert (a + b)[1..] == a[1..] + b;
      RunsConcat(Step(s, a[0]), a[1..], t, b, u);
    }
  }

  /** The state with the checkpoint's barrier queued. */
  ghost function WithBarrier(s: State): State {
    Enqueue(s, s.tables, [], []).(phase := Draining(s.nextTicket))
  }

  /** The state a finished checkpoint leaves. */
  ghost function Emptied(s: State): State {
    s.(file := MAGIC, durable := 0, phase := Serving, log := [])
  }

  lemma BarrierQueued(s: State, batches: seq<PendingBatch>, base: nat, next: nat)
    requires SameQueue(batches, s.queue, base) && s.nextTicket == base + next
    ensures SameQueue(batches + [PendingBatch([], next)], WithBarrier(s).queue, base)
    ensures s.nextTicket in Tickets(WithBarrier(s).queue)
  {
    NoLogBytes();
    var q := WithBarrier(s).queue;
    assert q[|s.queue|].ticket == s.nextTicket;
  }

  /** Truncation and the new magic, once the barrier has been answered or the log is broken. */
  lemma TruncationRun(s: State) returns (actions: seq<Action>)
    requires Enabled(s, Truncate)
    ensures Runs(s, actions, Emptied(s))
  {
    hide Runs;
    RunsNothing(s);
    RunsMore(s, [], s, Truncate);
    var t := Step(s, Truncate);
    RunsMore(s, [] + [Truncate], t, WriteMagic);
    actions := [] + [Truncate] + [WriteMagic];
  }

  /**
   Truncating the log object behind a renamed snapshot is a run of SubmitBarrier, a turn of the writer, Truncate
   and WriteMagic: it leaves an empty log and everything else as it was, also when the writer fails.
   */
  method TruncateTurn(w: WriteAheadLog, sequence: nat, ghost s: State, ghost base: nat)
    returns (ok: bool, ghost actions: seq<Action>, ghost t: State)
    requires Shows(w, s, base) && s.phase.Renamed? && sequence + 1 >= s.nextSequence
    requires s.fatal ==> s.queue == []
    modifies w
    ensures ok && Runs(s, actions, t) && Shows(w, t, base)
    ensures t.phase.Serving? && t.log == [] && t.file == MAGIC && t.queue == []
    ensures t.tables == s.tables && t.snapshot == s.snapshot && t.history == s.history && t.acked >= s.acked
  {
    hide Runs, LogBytes, Entries, Tickets, SamePromises, Resolve, BatchBytes, SameQueue;
    ghost var next := w.nextPromise;
    if !s.fatal {
      BarrierQueued(s, w.queue, base, next);
      QueuedPromises(w.promises, w.queue, next, s.acked, base, PendingBatch([], next));
      ghost var batches, queue := w.queue + [PendingBatch([], next)], WithBarrier(s).queue;
      ResolvedPromises(w.promises, batches, next + 1, s.acked, base, queue, true);
      ResolvedPromises(w.promises, batches, next + 1, s.acked, base, queue, false);
    }
    EmptyQueues(base);
    assert s.queue == [] ==> w.queue == [] by { SameLength(w.queue, s.queue, base); }
    ok := w.Truncate(sequence);
    if s.fatal {
      actions := TruncationRun(s);
      t := Emptied(s);
    } else {
      ghost var b := WithBarrier(s);
      ghost var written: seq<Action>, after: State;
      if !w.fatal {
        written := SuccessfulTurn(b);
        after := ProtocolRuns.AfterFlush(b);
      } else {
        written := FailedTurn(b, 0);
        after := AfterError(b, 0);
      }
      RunsNothing(s);
      RunsMore(s, [], s, SubmitBarrier);
      RunsConcat(s, [] + [SubmitBarrier], b, written, after);
      ghost var last := TruncationRun(after);
      actions := [] + [SubmitBarrier] + written + last;
      RunsConcat(s, [] + [SubmitBarrier] + written, after, last, Emptied(after));
      t := Emptied(after);
    }
  }

  lemma EmptyQueues(base: nat)
    ensures SameQueue([], [], base)
  {
  }

  lemma SameLength(batches: seq<PendingBatch>, queue: seq<Batch>, base: nat)
    requires SameQueue(batches, queue, base)
    ensures |batches| == |queue|
  {
  }
}
