/** The tick scheduler's dispatcher and workers as a state machine over their atomic steps. */
module TickProtocol {
  import opened TickSchedules
  import opened Sequences

  type Worker = nat

  /** The dispatcher between passes, about to look at entry i, or about to enqueue it. */
  datatype Dispatcher = Sleeping | Scanning(now: int, i: nat) | Pushing(now: int, i: nat)

  /** A busy worker: running its reducer, or done and counted but with the flag still set. */
  datatype WorkerState = Executing(entry: nat) | Counted(entry: nat)

  datatype State = State(
    entries: seq<Runtime>,
    dispatcher: Dispatcher,
    queue: seq<nat>,
    workers: map<Worker, WorkerState>,
    executed: nat,
    skipped: nat,
    reported: nat,
    fires: nat)

  datatype Action =
    | Wake(now: int)
    | Examine
    | Push
    | Sleep
    | Take(worker: Worker)
    | Count(worker: Worker)
    | Clear(worker: Worker)
    | ReportExecuted
    | ReportSkipped

  predicate Enabled(s: State, a: Action) {
    match a
    case Wake(_) => s.dispatcher.Sleeping?
    case Examine =>
      s.dispatcher.Scanning? && s.dispatcher.i < |s.entries| && s.entries[s.dispatcher.i].period > 0
    case Push => s.dispatcher.Pushing?
    case Sleep => s.dispatcher.Scanning? && s.dispatcher.i == |s.entries|
    case Take(w) => s.queue != [] && w !in s.workers
    case Count(w) => w in s.workers && s.workers[w].Executing?
    case Clear(w) => w in s.workers && s.workers[w].Counted? && s.workers[w].entry < |s.entries|
    case ReportExecuted => true
    case ReportSkipped => true
  }

  function Step(s: State, a: Action): State
    requires Enabled(s, a)
  {
    match a
    case Wake(now) => s.(dispatcher := Scanning(now, 0))
    case Examine =>
      var now, i := s.dispatcher.now, s.dispatcher.i;
      var e := s.entries[i];
      if !Due(e, now) then s.(dispatcher := Scanning(now, i + 1))
      else
        // The compare-and-swap either takes the flag or finds the previous tick in flight.
        var fired := s.(entries := s.entries[i := Dispatched(e, now)], fires := s.fires + 1);
        if e.inFlight then fired.(skipped := s.skipped + 1, dispatcher := Scanning(now, i + 1))
        else fired.(dispatcher := Pushing(now, i))
    case Push =>
      s.(queue := s.queue + [s.dispatcher.i], dispatcher := Scanning(s.dispatcher.now, s.dispatcher.i + 1))
    case Sleep => s.(dispatcher := Sleeping)
    case Take(w) => s.(queue := s.queue[1..], workers := s.workers[w := Executing(s.queue[0])])
    case Count(w) => s.(workers := s.workers[w := Counted(s.workers[w].entry)], executed := s.executed + 1)
    case Clear(w) =>
      var i := s.workers[w].entry;
      s.(workers := s.workers - {w}, entries := s.entries[i := s.entries[i].(inFlight := false)])
    case ReportExecuted => s.(reported := s.reported + s.executed, executed := 0)
    case ReportSkipped => s.(reported := s.reported + s.skipped, skipped := 0)
  }

  predicate Starting(s: State) {
    && PositivePeriods(s.entries)
    && (forall i :: 0 <= i < |s.entries| ==> !s.entries[i].inFlight && s.entries[i].nextFire == s.entries[i].start)
    && s.dispatcher.Sleeping? && s.queue == [] && s.workers == map[]
    && s.executed == 0 && s.skipped == 0 && s.reported == 0 && s.fires == 0
  }

  // ---- Where an entry in flight is ----

  /** The entry the dispatcher has flagged but not yet enqueued. */
  function BeingPushed(d: Dispatcher): seq<nat> {
    if d.Pushing? then [d.i] else []
  }

  /** On its way to a worker: flagged, or in the queue. */
  function Waiting(s: State): seq<nat> {
    s.queue + BeingPushed(s.dispatcher)
  }

  predicate Holds(workers: map<Worker, WorkerState>, w: Worker, i: nat) {
    w in workers && workers[w].entry == i
  }

  ghost predicate Held(workers: map<Worker, WorkerState>, i: nat) {
    exists w :: Holds(workers, w, i)
  }

  /** An entry is in flight iff it is waiting, once, or held by exactly one worker, and never both. */
  ghost predicate Placed(entries: seq<Runtime>, waiting: seq<nat>, workers: map<Worker, WorkerState>) {
    && Distinct(waiting)
    && (forall k :: 0 <= k < |waiting| ==> waiting[k] < |entries| && !Held(workers, waiting[k]))
    && (forall v, w, i :: Holds(workers, v, i) && Holds(workers, w, i) ==> v == w)
    && (forall w :: w in workers ==> workers[w].entry < |entries|)
    && (forall i :: 0 <= i < |entries| ==> (entries[i].inFlight <==> i in waiting || Held(workers, i)))
  }

  ghost predicate OnSchedule(s: State) {
    && PositivePeriods(s.entries)
    && (forall i :: 0 <= i < |s.entries| ==> Aligned(s.entries[i]))
    && (s.dispatcher.Scanning? ==>
          s.dispatcher.i <= |s.entries|
          && forall j :: 0 <= j < s.dispatcher.i ==> s.entries[j].nextFire > s.dispatcher.now)
    && (s.dispatcher.Pushing? ==>
          s.dispatcher.i < |s.entries|
          && forall j :: 0 <= j <= s.dispatcher.i ==> s.entries[j].nextFire > s.dispatcher.now)
  }

  function Running(workers: map<Worker, WorkerState>): set<Worker> {
    set w | w in workers && workers[w].Executing?
  }

  /** Every fire is counted as executed or skipped, or is still waiting or executing. */
  predicate Conserved(s: State) {
    s.fires == s.executed + s.skipped + s.reported + |Waiting(s)| + |Running(s.workers)|
  }

  ghost predicate Inv(s: State) {
    OnSchedule(s) && Placed(s.entries, Waiting(s), s.workers) && Conserved(s)
  }

  lemma StartInv(s: State)
    requires Starting(s)
    ensures Inv(s)
  {
    forall i | 0 <= i < |s.entries| ensures Aligned(s.entries[i]) {
      assert s.entries[i].nextFire == s.entries[i].start + Times(0, s.entries[i].period);
    }
  }

  lemma ExamineKeeps(s: State)
    requires Inv(s) && Enabled(s, Examine)
    ensures Inv(Step(s, Examine))
  {
    hide Advanced, Aligned, Placed, Distinct;
    var t := Step(s, Examine);
    var i, now := s.dispatcher.i, s.dispatcher.now;
    if Due(s.entries[i], now) {
      AdvancedBeyond(s.entries[i].nextFire, now, s.entries[i].period);
      DispatchedAligned(s.entries[i], now);
      assert OnSchedule(t);
      assert Waiting(s) == s.queue && |Waiting(t)| == |s.queue| + if s.entries[i].inFlight then 0 else 1;
      FlagPlaced(s.entries, Waiting(s), s.workers, i, Dispatched(s.entries[i], now));
    }
  }

  lemma DispatchedAligned(e: Runtime, now: int)
    requires e.period > 0 && Aligned(e) && Due(e, now)
    ensures Aligned(Dispatched(e, now))
  {
    AdvancedAligned(e, now);
    var a := e.(nextFire := Advanced(e.nextFire, now, e.period));
    var k: nat :| a.nextFire == a.start + Times(k, a.period);
    assert Dispatched(e, now).nextFire == e.start + Times(k, e.period);
  }

  lemma FlagPlaced(
      entries: seq<Runtime>, waiting: seq<nat>, workers: map<Worker, WorkerState>, i: nat, e: Runtime)
    requires Placed(entries, waiting, workers) && i < |entries| && e.inFlight
    ensures Placed(entries[i := e], if entries[i].inFlight then waiting else waiting + [i], workers)
  {
    hide Holds;
  }

  lemma PushKeeps(s: State)
    requires Inv(s) && Enabled(s, Push)
    ensures Inv(Step(s, Push))
  {
    hide Aligned, Placed;
    assert Waiting(Step(s, Push)) == Waiting(s);
  }

  lemma TakeKeeps(s: State, w: Worker)
    requires Inv(s) && Enabled(s, Take(w))
    ensures Inv(Step(s, Take(w)))
  {
    hide Aligned, Placed;
    var t := Step(s, Take(w));
    assert Waiting(s)[1..] == Waiting(t) && Waiting(s)[0] == s.queue[0];
    TakePlaced(s.entries, Waiting(s), s.workers, w);
    assert Running(t.workers) == Running(s.workers) + {w};
  }

  lemma TakePlaced(entries: seq<Runtime>, waiting: seq<nat>, workers: map<Worker, WorkerState>, w: Worker)
    requires Placed(entries, waiting, workers) && waiting != [] && w !in workers
    ensures Placed(entries, waiting[1..], workers[w := Executing(waiting[0])])
  {
    var workers', rest := workers[w := Executing(waiting[0])], waiting[1..];
    assert forall v, i :: Holds(workers', v, i) <==> Holds(workers, v, i) || (v == w && i == waiting[0]);
    assert forall k :: 0 <= k < |rest| ==> rest[k] == waiting[k + 1];
    forall i ensures Held(workers', i) <==> Held(workers, i) || i == waiting[0] {
      if Held(workers, i) {
        var v :| Holds(workers, v, i);
        assert Holds(workers', v, i);
      }
      if i == waiting[0] {
        assert Holds(workers', w, i);
      }
    }
    forall i ensures i in waiting <==> i == waiting[0] || i in rest {
      assert waiting == [waiting[0]] + rest;
    }
  }

  lemma CountKeeps(s: State, w: Worker)
    requires Inv(s) && Enabled(s, Count(w))
    ensures Inv(Step(s, Count(w)))
  {
    hide Aligned, Placed;
    var t := Step(s, Count(w));
    assert Waiting(t) == Waiting(s);
    CountPlaced(s.entries, Waiting(s), s.workers, w);
    assert Running(s.workers) == Running(t.workers) + {w};
  }

  lemma CountPlaced(entries: seq<Runtime>, waiting: seq<nat>, workers: map<Worker, WorkerState>, w: Worker)
    requires Placed(entries, waiting, workers) && w in workers
    ensures Placed(entries, waiting, workers[w := Counted(workers[w].entry)])
  {
    var workers' := workers[w := Counted(workers[w].entry)];
    assert forall v, i :: Holds(workers', v, i) <==> Holds(workers, v, i);
    assert forall i :: Held(workers', i) <==> Held(workers, i);
  }

  lemma ClearKeeps(s: State, w: Worker)
    requires Inv(s) && Enabled(s, Clear(w))
    ensures Inv(Step(s, Clear(w)))
  {
    hide Placed;
    var t := Step(s, Clear(w));
    var i := s.workers[w].entry;
    forall j | 0 <= j < |t.entries| ensures Aligned(t.entries[j]) {
      assert Aligned(s.entries[j]);
      var k: nat :| s.entries[j].nextFire == s.entries[j].start + Times(k, s.entries[j].period);
      assert t.entries[j].nextFire == t.entries[j].start + Times(k, t.entries[j].period);
    }
    assert Waiting(t) == Waiting(s);
    ClearPlaced(s.entries, Waiting(s), s.workers, w);
    assert Running(t.workers) == Running(s.workers);
  }

  lemma ClearPlaced(entries: seq<Runtime>, waiting: seq<nat>, workers: map<Worker, WorkerState>, w: Worker)
    requires Placed(entries, waiting, workers) && w in workers
    ensures var i := workers[w].entry;
            i < |entries| && Placed(entries[i := entries[i].(inFlight := false)], waiting, workers - {w})
  {
    var i := workers[w].entry;
    var workers' := workers - {w};
    assert Holds(workers, w, i) && Held(workers, i);
    assert forall v, j :: Holds(workers', v, j) <==> Holds(workers, v, j) && v != w;
    forall j ensures Held(workers', j) <==> Held(workers, j) && j != i {
      if Held(workers, j) && j != i {
        var v :| Holds(workers, v, j);
        assert Holds(workers', v, j);
      }
    }
  }

  lemma StepKeeps(s: State, a: Action)
    requires Inv(s) && Enabled(s, a)
    ensures Inv(Step(s, a)) && |Step(s, a).entries| == |s.entries|
  {
    hide Aligned, Placed;
    match a
    case Wake(_) => assert Waiting(Step(s, a)) == Waiting(s);
    case Examine => ExamineKeeps(s);
    case Push => PushKeeps(s);
    case Sleep => assert Waiting(Step(s, a)) == Waiting(s);
    case Take(w) => TakeKeeps(s, w);
    case Count(w) => CountKeeps(s, w);
    case Clear(w) => ClearKeeps(s, w);
    case ReportExecuted => assert Waiting(Step(s, a)) == Waiting(s);
    case ReportSkipped => assert Waiting(Step(s, a)) == Waiting(s);
  }

  predicate Reaches(s: State, actions: seq<Action>, t: State)
    decreases |actions|
  {
    if actions == [] then s == t
    else Enabled(s, actions[0]) && Reaches(Step(s, actions[0]), actions[1..], t)
  }

  lemma {:induction false} ReachesKeeps(s: State, actions: seq<Action>, t: State)
    requires Inv(s) && Reaches(s, actions, t)
    ensures Inv(t) && |t.entries| == |s.entries|
    decreases |actions|
  {
    hide Inv, Enabled;
    if actions != [] {
      StepKeeps(s, actions[0]);
      ReachesKeeps(Step(s, actions[0]), actions[1..], t);
    }
  }

  /** A sequence of distinct numbers below n has at most n elements. */
  lemma {:induction false} Pigeonhole(xs: seq<nat>, n: nat)
    requires Distinct(xs) && forall k :: 0 <= k < |xs| ==> xs[k] < n
    ensures |xs| <= n
    decreases n
  {
    assert xs != [] ==> xs[0] < n;
    if n > 0 {
      if k :| 0 <= k < |xs| && xs[k] == n - 1 {
        Pigeonhole(xs[..k] + xs[k + 1..], n - 1);
      } else {
        Pigeonhole(xs, n - 1);
      }
    }
  }

  /**
   In every reachable state, for any number of workers and any interleaving: each entry in flight is in
   exactly one place, the queue never outgrows the entries, and every fire is accounted for.
   */
  lemma TicksConserved(s: State, actions: seq<Action>, t: State)
    requires Starting(s) && Reaches(s, actions, t)
    ensures t.fires == t.executed + t.skipped + t.reported + |Waiting(t)| + |Running(t.workers)|
    ensures |t.queue| <= |t.entries| == |s.entries|
    ensures forall i :: 0 <= i < |t.entries| ==>
              (t.entries[i].inFlight <==> i in Waiting(t) || Held(t.workers, i))
              && !(i in Waiting(t) && Held(t.workers, i))
    ensures Distinct(Waiting(t))
    ensures forall v, w, i :: Holds(t.workers, v, i) && Holds(t.workers, w, i) ==> v == w
  {
    hide Reaches, Starting, OnSchedule;
    StartInv(s);
    ReachesKeeps(s, actions, t);
    Pigeonhole(Waiting(t), |t.entries|);
  }

  /** When a pass ends, every entry is due only after the time the pass began, still in step with its start. */
  lemma PassLeavesSchedule(s: State, actions: seq<Action>, t: State, i: nat)
    requires Starting(s) && Reaches(s, actions, t) && Enabled(t, Sleep) && i < |t.entries|
    ensures t.entries[i].nextFire > t.dispatcher.now && Aligned(t.entries[i])
  {
    hide Reaches, Starting, Placed, Aligned;
    StartInv(s);
    ReachesKeeps(s, actions, t);
  }

  // ---- A run through every step ----

  lemma {:induction false} ReachesMore(s: State, actions: seq<Action>, t: State, a: Action)
    requires Reaches(s, actions, t) && Enabled(t, a)
    ensures Reaches(s, actions + [a], Step(t, a))
    decreases |actions|
  {
    hide Enabled, Step;
    if actions == [] {
      assert [a][1..] == [];
    } else {
      assert (actions + [a])[1..] == actions[1..] + [a];
      ReachesMore(Step(s, actions[0]), actions[1..], t, a);
    }
  }

  lemma ReachesNothing(s: State)
    ensures Reaches(s, [], s)
  {
  }

  function Once(nextFire: int, inFlight: bool): State {
    State([Runtime(10, 0, nextFire, inFlight)], Sleeping, [], map[], 0, 0, 0, 0)
  }

  /** One entry fires at 0 and again at 10, when its first tick still waits: the second is skipped, the first executed and reported. */
  lemma SkippedAndExecuted()
    ensures exists s, actions, t :: Starting(s) && Reaches(s, actions, t)
              && t == Once(20, false).(reported := 2, fires := 2)
  {
    hide Reaches, Advanced;
    var s := Once(0, false);
    assert Starting(s);
    ReachesNothing(s);
    AdvancedOnce(0, 0);
    AdvancedOnce(10, 10);
    var t := s;
    var actions: seq<Action> := [];
    t, actions := Next(s, actions, t, Wake(0));
    t, actions := Next(s, actions, t, Examine);
    t, actions := Next(s, actions, t, Push);
    t, actions := Next(s, actions, t, Sleep);
    assert t == Once(10, true).(queue := [0], fires := 1);
    t, actions := Next(s, actions, t, Wake(10));
    t, actions := Next(s, actions, t, Examine);
    t, actions := Next(s, actions, t, Sleep);
    assert t == Once(20, true).(queue := [0], fires := 2, skipped := 1);
    t, actions := Next(s, actions, t, Take(7));
    t, actions := Next(s, actions, t, Count(7));
    t, actions := Next(s, actions, t, Clear(7));
    assert t.workers == map[];
    t, actions := Next(s, actions, t, ReportExecuted);
    t, actions := Next(s, actions, t, ReportSkipped);
  }

  lemma Next(s: State, actions: seq<Action>, t: State, a: Action) returns (t': State, actions': seq<Action>)
    requires Reaches(s, actions, t) && Enabled(t, a)
    ensures t' == Step(t, a) && Reaches(s, actions', t')
  {
    ReachesMore(s, actions, t, a);
    t', actions' := Step(t, a), actions + [a];
  }

  lemma AdvancedOnce(next: int, now: int)
    requires next == now
    ensures Advanced(next, now, 10) == next + 10
  {
  }
}
