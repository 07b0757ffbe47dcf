/**
 Ordered fan-out of events to subscribers (src/changefeed/changefeed_engine.cpp, DeliveryLoop,
 DeliverEvent and DeliveryPool), as a state machine over the steps of the publishers, the delivery
 thread and any number of pool workers.
 */
module Fanout {
  import opened Sequences

  type Subscriber = nat
  type Worker = nat

  /** A task closure: deliver one event to the target at `index`. */
  datatype Task = Task(index: nat, subscriber: Subscriber, offset: nat)

  /**
   A busy worker: about to call back, done with the callback but not yet counted, or, having counted its
   batch down to zero, still on its way through the notification.
   */
  datatype WorkerState = Holding(task: Task) | Ran(task: Task) | Notifying(task: Task)

  /** The delivery thread; `ran` records the indices whose callback has run. */
  datatype Phase =
    | Idle
    | Delivering(offset: nat, targets: seq<Subscriber>, pooled: bool, ran: seq<nat>, remaining: nat)

  /** One event and the subscribers it was fanned out to. */
  datatype Dispatch = Dispatch(offset: nat, targets: seq<Subscriber>)

  datatype State = State(
    workers: nat,
    nextOffset: nat,
    queue: seq<nat>,
    phase: Phase,
    tasks: seq<Task>,
    busy: map<Worker, WorkerState>,
    seen: map<Subscriber, seq<nat>>,
    history: seq<Dispatch>,
    zeroed: nat,                // batches counted down to zero
    notified: nat)              // notifications completed

  datatype Action =
    | Publish
    | Start(targets: seq<Subscriber>)
    | Take(worker: Worker)
    | Run(worker: Worker)
    | Decrement(worker: Worker)
    | Notify(worker: Worker)
    | DeliverNext
    | Return

  function Seen(s: State, subscriber: Subscriber): seq<nat> {
    if subscriber in s.seen then s.seen[subscriber] else []
  }

  function Tasks(offset: nat, targets: seq<Subscriber>): (tasks: seq<Task>) {
    seq(|targets|, i requires 0 <= i < |targets| => Task(i, targets[i], offset))
  }

  predicate Enabled(s: State, a: Action) {
    match a
    case Publish => true
    case Start(targets) => s.phase.Idle? && s.queue != [] && Distinct(targets)
    case Take(w) => w < s.workers && w !in s.busy && s.tasks != []
    case Run(w) => w in s.busy && s.busy[w].Holding? && s.phase.Delivering?
    case Decrement(w) => w in s.busy && s.busy[w].Ran? && s.phase.Delivering? && s.phase.remaining > 0
    case Notify(w) => w in s.busy && s.busy[w].Notifying?
    case DeliverNext => s.phase.Delivering? && !s.phase.pooled && |s.phase.ran| < |s.phase.targets|
    case Return =>
      s.phase.Delivering? && if s.phase.pooled then s.phase.remaining == 0 else |s.phase.ran| == |s.phase.targets|
  }

  /** A callback: the subscriber sees the offset. */
  function CallBack(s: State, subscriber: Subscriber, offset: nat): State {
    s.(seen := s.seen[subscriber := Seen(s, subscriber) + [offset]])
  }

  function Step(s: State, a: Action): State
    requires Enabled(s, a)
  {
    match a
    case Publish => s.(queue := s.queue + [s.nextOffset], nextOffset := s.nextOffset + 1)
    case Start(targets) =>
      var offset := s.queue[0];
      var popped := s.(queue := s.queue[1..], history := s.history + [Dispatch(offset, targets)]);
      if targets == [] then popped
      else if s.workers > 0 && |targets| > 1 then
        popped.(phase := Delivering(offset, targets, true, [], |targets|), tasks := s.tasks + Tasks(offset, targets))
      else popped.(phase := Delivering(offset, targets, false, [], 0))
    case Take(w) => s.(tasks := s.tasks[1..], busy := s.busy[w := Holding(s.tasks[0])])
    case Run(w) =>
      var task := s.busy[w].task;
      CallBack(s, task.subscriber, task.offset).(
        busy := s.busy[w := Ran(task)], phase := s.phase.(ran := s.phase.ran + [task.index]))
    case Decrement(w) =>
      // RunBatch may return from here on; the worker that reaches zero has yet to lock and notify.
      var counted := s.(phase := s.phase.(remaining := s.phase.remaining - 1));
      if s.phase.remaining == 1 then counted.(busy := s.busy[w := Notifying(s.busy[w].task)], zeroed := s.zeroed + 1)
      else counted.(busy := s.busy - {w})
    case Notify(w) => s.(busy := s.busy - {w}, notified := s.notified + 1)
    case DeliverNext =>
      var i := |s.phase.ran|;
      CallBack(s, s.phase.targets[i], s.phase.offset).(phase := s.phase.(ran := s.phase.ran + [i]))
    case Return => s.(phase := Idle)
  }

  function Initial(workers: nat): State {
    State(workers, 1, [], Idle, [], map[], map[], [], 0, 0)
  }

  // ---- What every step keeps ----

  /** The offsets a subscriber must have seen: those of the dispatches it was a target of. */
  function Expected(history: seq<Dispatch>, subscriber: Subscriber): seq<nat>
    decreases |history|
  {
    if history == [] then []
    else
      var last := history[|history| - 1];
      Expected(history[..|history| - 1], subscriber) + (if subscriber in last.targets then [last.offset] else [])
  }

  /** Events are dispatched once each, in offset order, to distinct targets. */
  predicate InOrder(s: State) {
    && |s.history| + |s.queue| + 1 == s.nextOffset
    && (forall i :: 0 <= i < |s.history| ==> s.history[i].offset == i + 1)
    && (forall i :: 0 <= i < |s.queue| ==> s.queue[i] == |s.history| + 1 + i)
  }

  predicate Mine(p: Phase, t: Task)
    requires p.Delivering?
  {
    t.index < |p.targets| && t.subscriber == p.targets[t.index] && t.offset == p.offset
  }

  predicate Held(busy: map<Worker, WorkerState>, w: Worker) {
    w in busy && busy[w].Holding?
  }

  /** The workers still inside the closure of the current batch's count. */
  function Active(busy: map<Worker, WorkerState>): set<Worker> {
    set w | w in busy && !busy[w].Notifying?
  }

  /** The workers that have counted their batch to zero and not yet finished notifying. */
  function Late(busy: map<Worker, WorkerState>): set<Worker> {
    set w | w in busy && busy[w].Notifying?
  }

  /** Every task around belongs to the current batch, and no index is around twice or runs twice. */
  ghost predicate OncePerIndex(p: Phase, tasks: seq<Task>, busy: map<Worker, WorkerState>)
    requires p.Delivering?
  {
    && (forall i :: 0 <= i < |tasks| ==> Mine(p, tasks[i]) && tasks[i].index !in p.ran)
    && (forall i, j :: 0 <= i < j < |tasks| ==> tasks[i].index != tasks[j].index)
    && (forall w :: Held(busy, w) ==> Mine(p, busy[w].task) && busy[w].task.index !in p.ran)
    && (forall i, w :: 0 <= i < |tasks| && Held(busy, w) ==> tasks[i].index != busy[w].task.index)
    && (forall v, w :: Held(busy, v) && Held(busy, w) && v != w ==> busy[v].task.index != busy[w].task.index)
    && Distinct(p.ran)
    && (forall i :: 0 <= i < |p.ran| ==> p.ran[i] < |p.targets|)
  }

  predicate Queued(tasks: seq<Task>, k: nat) {
    exists i :: 0 <= i < |tasks| && tasks[i].index == k
  }

  ghost predicate InHand(busy: map<Worker, WorkerState>, k: nat) {
    exists w :: Held(busy, w) && busy[w].task.index == k
  }

  /** Every index of the batch is queued, held or run, and `remaining` counts what is queued or with a worker. */
  ghost predicate NoneLost(p: Phase, tasks: seq<Task>, busy: map<Worker, WorkerState>)
    requires p.Delivering?
  {
    && p.remaining == |tasks| + |Active(busy)|
    && forall k :: 0 <= k < |p.targets| ==> k in p.ran || Queued(tasks, k) || InHand(busy, k)
  }

  ghost predicate Batch(p: Phase, tasks: seq<Task>, busy: map<Worker, WorkerState>)
    requires p.Delivering?
  {
    OncePerIndex(p, tasks, busy) && NoneLost(p, tasks, busy)
  }

  predicate Called(p: Phase, subscriber: Subscriber)
    requires p.Delivering?
  {
    exists i :: 0 <= i < |p.ran| && p.ran[i] < |p.targets| && p.targets[p.ran[i]] == subscriber
  }

  ghost predicate SeenSoFar(s: State)
    requires s.phase.Delivering? && s.history != []
  {
    forall x: Subscriber :: Seen(s, x) ==
      Expected(if Called(s.phase, x) then s.history else s.history[..|s.history| - 1], x)
  }

  ghost predicate DeliveringInv(s: State)
    requires s.phase.Delivering?
  {
    && s.history != [] && s.history[|s.history| - 1] == Dispatch(s.phase.offset, s.phase.targets)
    && s.phase.targets != [] && Distinct(s.phase.targets)
    && (if s.phase.pooled then Batch(s.phase, s.tasks, s.busy)
        else s.tasks == [] && Active(s.busy) == {} && |s.phase.ran| <= |s.phase.targets|
             && forall i :: 0 <= i < |s.phase.ran| ==> s.phase.ran[i] == i)
    && SeenSoFar(s)
  }

  ghost predicate Inv(s: State) {
    && InOrder(s)
    && |Late(s.busy)| + s.notified == s.zeroed
    && if s.phase.Delivering? then DeliveringInv(s)
       else s.tasks == [] && Active(s.busy) == {} && forall x: Subscriber :: Seen(s, x) == Expected(s.history, x)
  }

  lemma ExpectedMore(history: seq<Dispatch>, d: Dispatch, x: Subscriber)
    ensures Expected(history + [d], x) == Expected(history, x) + (if x in d.targets then [d.offset] else [])
  {
    assert (history + [d])[..|history|] == history;
  }

  lemma BatchStarts(p: Phase, busy: map<Worker, WorkerState>)
    requires p.Delivering? && p.ran == [] && p.remaining == |p.targets| && Active(busy) == {}
    ensures Batch(p, Tasks(p.offset, p.targets), busy)
  {
    forall w ensures !Held(busy, w) {
      assert w !in Active(busy);
    }
    var tasks := Tasks(p.offset, p.targets);
    forall k | 0 <= k < |p.targets| ensures Queued(tasks, k) {
      assert tasks[k].index == k;
    }
  }

  lemma WorkersAfter(busy: map<Worker, WorkerState>, w: Worker, state: WorkerState)
    ensures Active(busy[w := state]) == if state.Notifying? then Active(busy) - {w} else Active(busy) + {w}
    ensures Late(busy[w := state]) == if state.Notifying? then Late(busy) + {w} else Late(busy) - {w}
    ensures Active(busy - {w}) == Active(busy) - {w} && Late(busy - {w}) == Late(busy) - {w}
    ensures w in Active(busy) <==> w in busy && !busy[w].Notifying?
    ensures w in Late(busy) <==> w in busy && busy[w].Notifying?
  {
  }

  lemma BatchTakes(p: Phase, tasks: seq<Task>, busy: map<Worker, WorkerState>, w: Worker)
    requires p.Delivering? && Batch(p, tasks, busy) && tasks != [] && w !in busy
    ensures Batch(p, tasks[1..], busy[w := Holding(tasks[0])])
  {
    hide Mine, Distinct, Active, Late;
    WorkersAfter(busy, w, Holding(tasks[0]));
    var tasks', busy' := tasks[1..], busy[w := Holding(tasks[0])];
    assert forall v :: Held(busy', v) <==> v == w || Held(busy, v);
    assert OncePerIndex(p, tasks', busy') by {
      assert forall i :: 0 <= i < |tasks'| ==> tasks'[i] == tasks[i + 1];
    }
    forall k | 0 <= k < |p.targets| ensures k in p.ran || Queued(tasks', k) || InHand(busy', k) {
      if Queued(tasks, k) {
        var i :| 0 <= i < |tasks| && tasks[i].index == k;
        if i == 0 {
          assert Held(busy', w);
        } else {
          assert tasks'[i - 1].index == k;
        }
      } else if InHand(busy, k) {
        var v: Worker :| Held(busy, v) && busy[v].task.index == k;
        assert Held(busy', v) && busy'[v].task.index == k;
      }
    }
  }

  lemma BatchRuns(p: Phase, tasks: seq<Task>, busy: map<Worker, WorkerState>, w: Worker)
    requires p.Delivering? && Batch(p, tasks, busy) && Held(busy, w)
    ensures var task := busy[w].task;
            Batch(p.(ran := p.ran + [task.index]), tasks, busy[w := Ran(task)])
  {
    hide Active, Late;
    var task := busy[w].task;
    WorkersAfter(busy, w, Ran(task));
    var p', busy' := p.(ran := p.ran + [task.index]), busy[w := Ran(task)];
    assert forall v :: Held(busy', v) <==> v != w && Held(busy, v);
    assert forall k :: k in p'.ran <==> k in p.ran || k == task.index;
    assert OncePerIndex(p', tasks, busy');
    assert Active(busy') == Active(busy);
    forall k | 0 <= k < |p.targets| ensures k in p'.ran || Queued(tasks, k) || InHand(busy', k) {
      if k != task.index && InHand(busy, k) {
        var v: Worker :| Held(busy, v) && busy[v].task.index == k;
        assert Held(busy', v) && busy'[v].task.index == k;
      }
    }
  }

  lemma SameMine(p: Phase, q: Phase)
    requires p.Delivering? && q.Delivering? && p.offset == q.offset && p.targets == q.targets
    ensures forall t: Task :: Mine(p, t) == Mine(q, t)
  {
  }

  lemma BatchDecrements(p: Phase, tasks: seq<Task>, busy: map<Worker, WorkerState>, w: Worker)
    requires p.Delivering? && Batch(p, tasks, busy) && w in busy && busy[w].Ran? && p.remaining > 0
    ensures Batch(p.(remaining := p.remaining - 1), tasks,
                  if p.remaining == 1 then busy[w := Notifying(busy[w].task)] else busy - {w})
  {
    hide Distinct, Mine, Active, Late;
    WorkersAfter(busy, w, Notifying(busy[w].task));
    var p' := p.(remaining := p.remaining - 1);
    var busy' := if p.remaining == 1 then busy[w := Notifying(busy[w].task)] else busy - {w};
    SameMine(p, p');
    assert forall v :: Held(busy', v) <==> Held(busy, v);
    assert OncePerIndex(p', tasks, busy');
    assert Active(busy') == Active(busy) - {w};
    forall k | 0 <= k < |p.targets| ensures k in p.ran || Queued(tasks, k) || InHand(busy', k) {
      if InHand(busy, k) {
        var v: Worker :| Held(busy, v) && busy[v].task.index == k;
        assert Held(busy', v) && busy'[v].task.index == k;
      }
    }
  }

  lemma BatchNotified(p: Phase, tasks: seq<Task>, busy: map<Worker, WorkerState>, w: Worker)
    requires p.Delivering? && Batch(p, tasks, busy) && w in busy && busy[w].Notifying?
    ensures Batch(p, tasks, busy - {w})
  {
    hide Distinct, Mine, Active, Late;
    WorkersAfter(busy, w, busy[w]);
    var busy' := busy - {w};
    assert forall v :: Held(busy', v) <==> Held(busy, v);
    assert OncePerIndex(p, tasks, busy');
    assert Active(busy') == Active(busy);
    forall k | 0 <= k < |p.targets| ensures k in p.ran || Queued(tasks, k) || InHand(busy', k) {
      if InHand(busy, k) {
        var v: Worker :| Held(busy, v) && busy[v].task.index == k;
        assert Held(busy', v) && busy'[v].task.index == k;
      }
    }
  }

  lemma StartKeeps(s: State, targets: seq<Subscriber>)
    requires Inv(s) && Enabled(s, Start(targets))
    ensures Inv(Step(s, Start(targets)))
  {
    hide Expected, Batch;
    var t := Step(s, Start(targets));
    var d := Dispatch(s.queue[0], targets);
    if targets == [] {
      forall x: Subscriber ensures Seen(t, x) == Expected(t.history, x) {
        ExpectedMore(s.history, d, x);
      }
    } else {
      assert t.history[..|t.history| - 1] == s.history;
      assert SeenSoFar(t);
      if t.phase.pooled {
        assert t.tasks == Tasks(s.queue[0], targets);
        BatchStarts(t.phase, t.busy);
      }
    }
  }

  lemma TakeKeeps(s: State, w: Worker)
    requires Inv(s) && Enabled(s, Take(w)) && s.phase.Delivering?
    ensures Inv(Step(s, Take(w)))
  {
    hide Expected, Called, Batch, Active, Late;
    assert s.phase.pooled;
    BatchTakes(s.phase, s.tasks, s.busy, w);
    WorkersAfter(s.busy, w, Holding(s.tasks[0]));
    assert Late(Step(s, Take(w)).busy) == Late(s.busy);
    assert SeenSoFar(Step(s, Take(w)));
  }

  /** A callback of the target at index k of the current batch, for the first time. */
  lemma CallBackSeen(s: State, t: State, k: nat)
    requires s.phase.Delivering? && t.phase.Delivering? && s.history != [] && t.history == s.history
    requires s.history[|s.history| - 1] == Dispatch(s.phase.offset, s.phase.targets)
    requires Distinct(s.phase.targets) && SeenSoFar(s)
    requires k < |s.phase.targets| && k !in s.phase.ran && t.phase == s.phase.(ran := s.phase.ran + [k])
    requires t.seen == CallBack(s, s.phase.targets[k], s.phase.offset).seen
    ensures SeenSoFar(t)
  {
    hide Expected;
    var history := s.history[..|s.history| - 1];
    var x := s.phase.targets[k];
    assert s.history == history + [Dispatch(s.phase.offset, s.phase.targets)];
    ExpectedMore(history, Dispatch(s.phase.offset, s.phase.targets), x);
    assert !Called(s.phase, x);
    forall y: Subscriber | y != x ensures Called(t.phase, y) <==> Called(s.phase, y) {
      if Called(s.phase, y) {
        var i :| 0 <= i < |s.phase.ran| && s.phase.ran[i] < |s.phase.targets| && s.phase.targets[s.phase.ran[i]] == y;
        assert t.phase.ran[i] == s.phase.ran[i];
      }
    }
    assert Called(t.phase, x) by {
      assert t.phase.ran[|s.phase.ran|] == k;
    }
  }

  lemma RunKeeps(s: State, w: Worker)
    requires Inv(s) && Enabled(s, Run(w))
    ensures Inv(Step(s, Run(w)))
  {
    hide Expected, Called, SeenSoFar, NoneLost, Active, Late;
    var task := s.busy[w].task;
    WorkersAfter(s.busy, w, Ran(task));
    assert s.phase.pooled;
    assert Held(s.busy, w) && Mine(s.phase, task) && task.index !in s.phase.ran;
    CallBackSeen(s, Step(s, Run(w)), task.index);
    BatchRuns(s.phase, s.tasks, s.busy, w);
    assert Late(Step(s, Run(w)).busy) == Late(s.busy);
  }

  lemma DecrementKeeps(s: State, w: Worker)
    requires Inv(s) && Enabled(s, Decrement(w))
    ensures Inv(Step(s, Decrement(w)))
  {
    hide Expected, Called, Batch, Active, Late;
    var t := Step(s, Decrement(w));
    WorkersAfter(s.busy, w, Notifying(s.busy[w].task));
    assert s.phase.pooled;
    assert Late(t.busy) == if s.phase.remaining == 1 then Late(s.busy) + {w} else Late(s.busy);
    BatchDecrements(s.phase, s.tasks, s.busy, w);
    forall x: Subscriber ensures Called(t.phase, x) == Called(s.phase, x) {
      SameCalls(s.phase, t.phase, x);
    }
    assert SeenSoFar(t);
  }

  lemma NotifyKeeps(s: State, w: Worker)
    requires Inv(s) && Enabled(s, Notify(w))
    ensures Inv(Step(s, Notify(w)))
  {
    hide Expected, Called, Batch, Active, Late;
    var t := Step(s, Notify(w));
    WorkersAfter(s.busy, w, s.busy[w]);
    assert Active(t.busy) == Active(s.busy);
    if s.phase.Delivering? {
      if s.phase.pooled {
        BatchNotified(s.phase, s.tasks, s.busy, w);
      }
      assert SeenSoFar(t);
    }
  }

  lemma SameCalls(p: Phase, q: Phase, x: Subscriber)
    requires p.Delivering? && q.Delivering? && p.ran == q.ran && p.targets == q.targets
    ensures Called(p, x) == Called(q, x)
  {
  }

  lemma DeliverNextKeeps(s: State)
    requires Inv(s) && Enabled(s, DeliverNext)
    ensures Inv(Step(s, DeliverNext))
  {
    hide Expected, Called, SeenSoFar;
    var t := Step(s, DeliverNext);
    CallBackSeen(s, t, |s.phase.ran|);
  }

  /**
   RunBatch returns, and the sequential loop ends, only after each index has run exactly once, with no task
   queued and no worker holding or having just run one. The closure of a batch is left by every worker
   exactly when every batch counted down to zero has also been notified.
   */
  lemma BarrierComplete(s: State)
    requires Inv(s) && Enabled(s, Return)
    ensures s.tasks == [] && forall w :: w in s.busy ==> s.busy[w].Notifying?
    ensures Distinct(s.phase.ran) && forall k :: k in s.phase.ran <==> 0 <= k < |s.phase.targets|
    ensures s.busy == map[] <==> s.zeroed == s.notified
  {
    hide Expected, SeenSoFar, InOrder;
    assert Active(s.busy) == {};
    forall w | w in s.busy ensures s.busy[w].Notifying? {
      assert w !in Active(s.busy);
    }
    assert Late(s.busy) == s.busy.Keys;
    if s.phase.pooled {
      assert forall w :: !Held(s.busy, w);
    } else {
      forall k | 0 <= k < |s.phase.targets| ensures k in s.phase.ran {
        assert s.phase.ran[k] == k;
      }
    }
  }

  lemma ReturnKeeps(s: State)
    requires Inv(s) && Enabled(s, Return)
    ensures Inv(Step(s, Return))
  {
    hide Batch, Distinct, Expected;
    BarrierComplete(s);
    var t := Step(s, Return);
    var last := s.history[|s.history| - 1];
    var before := s.history[..|s.history| - 1];
    assert s.history == before + [last];
    forall x: Subscriber ensures Seen(t, x) == Expected(t.history, x) {
      ExpectedMore(before, last, x);
      assert Expected(before, x) + [] == Expected(before, x);
      assert Seen(s, x) == Expected(if Called(s.phase, x) then s.history else before, x);
      if x in last.targets {
        var k :| 0 <= k < |last.targets| && last.targets[k] == x;
        assert k in s.phase.ran;
        var i :| 0 <= i < |s.phase.ran| && s.phase.ran[i] == k;
        assert Called(s.phase, x);
      }
    }
  }

  lemma StepKeeps(s: State, a: Action)
    requires Inv(s) && Enabled(s, a)
    ensures Inv(Step(s, a))
  {
    match a
    case Publish => PublishKeeps(s);
    case Start(targets) => StartKeeps(s, targets);
    case Take(w) =>
      assert s.phase.Delivering?;
      TakeKeeps(s, w);
    case Run(w) => RunKeeps(s, w);
    case Decrement(w) => DecrementKeeps(s, w);
    case Notify(w) => NotifyKeeps(s, w);
    case DeliverNext => DeliverNextKeeps(s);
    case Return => ReturnKeeps(s);
  }

  lemma PublishKeeps(s: State)
    requires Inv(s)
    ensures Inv(Step(s, Publish))
  {
    hide Expected, Called, Batch;
    var t := Step(s, Publish);
    if s.phase.Delivering? {
      assert SeenSoFar(t);
    }
  }

  predicate Reaches(s: State, actions: seq<Action>, t: State)
    decreases |actions|
  {
    if actions == [] then s == t
    else Enabled(s, actions[0]) && Reaches(Step(s, actions[0]), actions[1..], t)
  }

  lemma {:induction false} ReachesKeeps(s: State, actions: seq<Action>, t: State)
    requires Inv(s) && Reaches(s, actions, t)
    ensures Inv(t)
    decreases |actions|
  {
    hide Inv, Enabled, Step;
    if actions != [] {
      StepKeeps(s, actions[0]);
      ReachesKeeps(Step(s, actions[0]), actions[1..], t);
    }
  }

  lemma {:induction false} ExpectedAscends(history: seq<Dispatch>, x: Subscriber)
    requires forall i :: 0 <= i < |history| ==> history[i].offset == i + 1
    ensures forall i, j :: 0 <= i < j < |Expected(history, x)| ==> Expected(history, x)[i] < Expected(history, x)[j]
    ensures forall i :: 0 <= i < |Expected(history, x)| ==> 0 < Expected(history, x)[i] <= |history|
    decreases |history|
  {
    if history != [] {
      ExpectedAscends(history[..|history| - 1], x);
    }
  }

  /**
   In every run, with any number of workers and any interleaving, each subscriber's callbacks see strictly
   increasing offsets, so no event twice; and between events it has seen exactly those it was a target of.
   */
  lemma OrderedDelivery(workers: nat, actions: seq<Action>, t: State, x: Subscriber)
    requires Reaches(Initial(workers), actions, t)
    ensures forall i, j :: 0 <= i < j < |Seen(t, x)| ==> Seen(t, x)[i] < Seen(t, x)[j]
    ensures t.phase.Idle? ==> Seen(t, x) == Expected(t.history, x)
    ensures |t.history| + |t.queue| + 1 == t.nextOffset
  {
    hide Reaches, Expected;
    assert Inv(Initial(workers)) by {
      forall y: Subscriber ensures Seen(Initial(workers), y) == Expected([], y) {
        ExpectedNothing(y);
      }
    }
    ReachesKeeps(Initial(workers), actions, t);
    ExpectedAscends(t.history, x);
    if t.phase.Delivering? {
      ExpectedAscends(t.history[..|t.history| - 1], x);
    }
  }

  lemma ExpectedNothing(x: Subscriber)
    ensures Expected([], x) == []
  {
  }

  // ---- A run in which RunBatch returns early ----

  lemma {:induction false} ReachesMore(s: State, actions: seq<Action>, t: State, a: Action)
    requires Reaches(s, actions, t) && Enabled(t, a)
    ensures Reaches(s, actions + [a], Step(t, a))
    decreases |actions|
  {
    hide Enabled, Step;
    if actions == [] {
      assert [a][1..] == [];
    } else {
      assert (actions + [a])[1..] == actions[1..] + [a];
      ReachesMore(Step(s, actions[0]), actions[1..], t, a);
    }
  }

  /** Every event of the run has at most m targets. */
  predicate StartsWithin(actions: seq<Action>, m: nat) {
    forall i :: 0 <= i < |actions| && actions[i].Start? ==> |actions[i].targets| <= m
  }

  /**
   The predicate RunBatch waits on can read zero before the last worker has locked and notified: here it
   returns, and its stack frame is gone, while worker 0 is still on its way to the batch's mutex.
   */
  lemma ReturnOutrunsNotify(workers: nat)
    requires workers > 0
    ensures exists actions, t :: Reaches(Initial(workers), actions, t) && StartsWithin(actions, 2) && Enabled(t, Return)
                                 && 0 in Step(t, Return).busy && Step(t, Return).busy[0].Notifying?
  {
    hide Reaches, CallBack;
    var s0 := Initial(workers);
    assert Reaches(s0, [], s0) by { ReachesNothing(s0); }
    var s1 := Step(s0, Publish);
    ReachesMore(s0, [], s0, Publish);
    var s2 := Step(s1, Start([0, 1]));
    ReachesMore(s0, [] + [Publish], s1, Start([0, 1]));
    var actions := [] + [Publish] + [Start([0, 1])];
    assert s2.phase == Delivering(1, [0, 1], true, [], 2) && s2.tasks == [Task(0, 0, 1), Task(1, 1, 1)];
    assert s2.busy == map[];
    var s5 := OneTask(s0, actions, s2);
    assert s5.busy == map[] && s5.phase.remaining == 1;
    var actions' := actions + [Take(0)] + [Run(0)] + [Decrement(0)];
    var s8 := OneTask(s0, actions', s5);
    assert Enabled(s8, Return) && s8.busy == map[0 := Notifying(Task(1, 1, 1))];
    var all := actions' + [Take(0)] + [Run(0)] + [Decrement(0)];
    assert Reaches(s0, all, s8) && StartsWithin(all, 2);
    assert 0 in Step(s8, Return).busy;
  }

  lemma ReachesNothing(s: State)
    ensures Reaches(s, [], s)
  {
  }

  /** Worker 0 takes, runs and counts the first queued task. */
  lemma OneTask(s0: State, actions: seq<Action>, s: State) returns (t: State)
    requires Reaches(s0, actions, s) && s.workers > 0 && s.busy == map[] && s.tasks != []
    requires s.phase.Delivering? && s.phase.pooled && s.phase.remaining > 0
    ensures Reaches(s0, actions + [Take(0)] + [Run(0)] + [Decrement(0)], t)
    ensures t.workers == s.workers && t.tasks == s.tasks[1..] && t.phase.Delivering? && t.phase.pooled
    ensures t.phase.remaining == s.phase.remaining - 1
    ensures t.busy == if s.phase.remaining == 1 then map[0 := Notifying(s.tasks[0])] else map[]
  {
    hide Reaches;
    var a := Step(s, Take(0));
    ReachesMore(s0, actions, s, Take(0));
    assert a.busy == map[0 := Holding(s.tasks[0])];
    var b := Step(a, Run(0));
    ReachesMore(s0, actions + [Take(0)], a, Run(0));
    assert b.busy == map[0 := Ran(s.tasks[0])];
    t := Step(b, Decrement(0));
    ReachesMore(s0, actions + [Take(0)] + [Run(0)], b, Decrement(0));
  }

  // ---- When RunBatch leaves nobody behind ----

  /** Nothing is ever handed to the pool. */
  predicate Sequential(s: State) {
    s.tasks == [] && s.busy == map[] && (s.phase.Delivering? ==> !s.phase.pooled)
  }

  lemma {:induction false} StaysSequential(s: State, actions: seq<Action>, t: State, m: nat)
    requires Sequential(s) && Reaches(s, actions, t) && StartsWithin(actions, m)
    requires s.workers == 0 || m <= 1
    ensures Sequential(t)
    decreases |actions|
  {
    if actions != [] {
      assert actions[0].Start? ==> |actions[0].targets| <= m;
      var s' := Step(s, actions[0]);
      assert Sequential(s') && s'.workers == s.workers;
      assert forall i :: 0 <= i < |actions[1..]| ==> actions[1..][i] == actions[i + 1];
      StaysSequential(s', actions[1..], t, m);
    }
  }

  /** In every run, whenever a fan-out may return, no worker is left inside one of its closures. */
  ghost predicate LeavesNobody(workers: nat, m: nat) {
    forall actions, t :: Reaches(Initial(workers), actions, t) && StartsWithin(actions, m) && Enabled(t, Return) ==>
      t.busy == map[]
  }

  /**
   A fan-out leaves nobody behind, whatever the interleaving, exactly when it never uses the pool: there is
   none, or no event has more than one target.
   */
  lemma LeavesNobodyIff(workers: nat, m: nat)
    ensures LeavesNobody(workers, m) <==> workers == 0 || m <= 1
  {
    hide Reaches, Enabled, Step;
    if workers == 0 || m <= 1 {
      forall actions, t | Reaches(Initial(workers), actions, t) && StartsWithin(actions, m) && Enabled(t, Return)
        ensures t.busy == map[]
      {
        StaysSequential(Initial(workers), actions, t, m);
      }
    } else {
      ReturnOutrunsNotify(workers);
      var actions, t :| Reaches(Initial(workers), actions, t) && StartsWithin(actions, 2) && Enabled(t, Return)
                        && 0 in Step(t, Return).busy && Step(t, Return).busy[0].Notifying?;
      ReturnKeepsBusy(t);
      assert StartsWithin(actions, m);
    }
  }

  lemma ReturnKeepsBusy(s: State)
    requires Enabled(s, Return)
    ensures Step(s, Return).busy == s.busy
  {
  }
}
