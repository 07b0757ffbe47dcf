/** The tick scheduler's schedule arithmetic and dispatch pass (src/wasm/tick_scheduler.cpp). */
module TickSchedules {

  /** Times are whole nanoseconds on the steady clock. */
  datatype Runtime = Runtime(period: int, start: int, nextFire: int, inFlight: bool)

  /** The longest the dispatcher sleeps: four milliseconds. */
  const MAX_SLICE: int := 4_000_000

  function Times(k: nat, period: int): int {
    k * period
  }

  predicate Due(e: Runtime, now: int) {
    now >= e.nextFire
  }

  /** The schedule moved past `now`, at least one period. */
  function Advanced(next: int, now: int, period: int): int
    requires period > 0
    decreases now - next
  {
    if next + period > now then next + period else Advanced(next + period, now, period)
  }

  /** The fire time is a whole number of periods after the entry's start. */
  ghost predicate Aligned(e: Runtime) {
    exists k: nat :: e.nextFire == e.start + Times(k, e.period)
  }

  /** The advanced time is the first later multiple of the period beyond `now`. */
  lemma {:induction false} AdvancedBeyond(next: int, now: int, period: int)
    requires period > 0 && next <= now
    ensures now < Advanced(next, now, period) <= now + period
    ensures exists k: nat :: k > 0 && Advanced(next, now, period) == next + Times(k, period)
    decreases now - next
  {
    if next + period > now {
      assert next + period == next + Times(1, period);
    } else {
      AdvancedBeyond(next + period, now, period);
      var k: nat :| k > 0 && Advanced(next + period, now, period) == next + period + Times(k, period);
      assert Times(k + 1, period) == Times(k, period) + period;
    }
  }

  lemma AdvancedAligned(e: Runtime, now: int)
    requires e.period > 0 && e.nextFire <= now && Aligned(e)
    ensures Aligned(e.(nextFire := Advanced(e.nextFire, now, e.period)))
  {
    AdvancedBeyond(e.nextFire, now, e.period);
    var j: nat :| e.nextFire == e.start + Times(j, e.period);
    var k: nat :| k > 0 && Advanced(e.nextFire, now, e.period) == e.nextFire + Times(k, e.period);
    TimesAdds(j, k, e.period);
  }

  lemma {:induction false} TimesAdds(j: nat, k: nat, period: int)
    ensures Times(j + k, period) == Times(j, period) + Times(k, period)
  {
  }

  /** The advance loop leaves the past if and only if the period is positive. */
  lemma {:induction false} PeriodMustBePositive(next: int, now: int, period: int)
    requires next <= now
    ensures (exists k: nat :: k > 0 && next + Times(k, period) > now) <==> period > 0
  {
    if period > 0 {
      AdvancedBeyond(next, now, period);
    } else {
      forall k: nat ensures next + Times(k, period) <= now {
        NeverPositive(k, period);
      }
    }
  }

  lemma {:induction false} NeverPositive(k: nat, period: int)
    requires period <= 0
    ensures Times(k, period) <= 0
    decreases k
  {
    if k > 0 {
      NeverPositive(k - 1, period);
      assert Times(k, period) == Times(k - 1, period) + period;
    }
  }

  /** One entry after a dispatch pass: advanced if it was due, and in flight if it was due or already so. */
  function Dispatched(e: Runtime, now: int): Runtime
    requires e.period > 0
  {
    if Due(e, now) then e.(nextFire := Advanced(e.nextFire, now, e.period), inFlight := true) else e
  }

  /** The entries among the first n that the pass enqueues, in order. */
  function Enqueued(entries: seq<Runtime>, now: int, n: nat): seq<nat>
    requires n <= |entries|
  {
    if n == 0 then []
    else Enqueued(entries, now, n - 1)
         + (if Due(entries[n - 1], now) && !entries[n - 1].inFlight then [n - 1] else [])
  }

  /** How many of the first n entries the pass coalesces. */
  function Coalesced(entries: seq<Runtime>, now: int, n: nat): nat
    requires n <= |entries|
  {
    if n == 0 then 0
    else Coalesced(entries, now, n - 1) + (if Due(entries[n - 1], now) && entries[n - 1].inFlight then 1 else 0)
  }

  function DueUpTo(entries: seq<Runtime>, now: int, n: nat): set<nat>
    requires n <= |entries|
  {
    set i: nat | i < n && Due(entries[i], now)
  }

  /** Every due entry is either enqueued or coalesced, never both. */
  lemma {:induction false} DueIsEnqueuedOrCoalesced(entries: seq<Runtime>, now: int, n: nat)
    requires n <= |entries|
    ensures |Enqueued(entries, now, n)| + Coalesced(entries, now, n) == |DueUpTo(entries, now, n)|
    decreases n
  {
    hide Due;
    if n > 0 {
      DueIsEnqueuedOrCoalesced(entries, now, n - 1);
      var before := DueUpTo(entries, now, n - 1);
      assert DueUpTo(entries, now, n) == if Due(entries[n - 1], now) then before + {n - 1} else before;
    }
  }

  /** The enqueued entries are the due ones whose previous tick is no longer in flight. */
  lemma {:induction false} EnqueuedExactly(entries: seq<Runtime>, now: int, n: nat, i: nat)
    requires n <= |entries|
    ensures i in Enqueued(entries, now, n) <==> i < n && Due(entries[i], now) && !entries[i].inFlight
    decreases n
  {
    hide Due;
    if n > 0 {
      EnqueuedExactly(entries, now, n - 1, i);
    }
  }

  predicate PositivePeriods(entries: seq<Runtime>) {
    forall i :: 0 <= i < |entries| ==> entries[i].period > 0
  }

  class TickScheduler {
    var entries: seq<Runtime>
    var queue: seq<nat>
    var skipped: nat

    constructor ()
      ensures entries == [] && queue == [] && skipped == 0
    {
      entries, queue, skipped := [], [], 0;
    }

    method AddEntry(period: int, now: int)
      modifies this`entries
      ensures entries == old(entries) + [Runtime(period, now, now, false)]
      ensures Aligned(entries[|old(entries)|])
    {
      entries := entries + [Runtime(period, now, now, false)];
      assert now == now + Times(0, period);
    }

    /** The do-while loop that drops missed frames. */
    method Advance(next: int, now: int, period: int) returns (fire: int)
      requires period > 0
      ensures fire == Advanced(next, now, period)
    {
      fire := next + period;
      while fire <= now
        invariant fire > now ==> fire == Advanced(next, now, period)
        invariant fire <= now ==> Advanced(next, now, period) == Advanced(fire, now, period)
        decreases now - fire
      {
        fire := fire + period;
      }
    }

    /** One pass of the dispatcher over its entries, and when it wakes next. */
    method DispatchPass(now: int) returns (wake: int)
      requires PositivePeriods(entries)
      modifies this
      ensures |entries| == |old(entries)|
      ensures forall i :: 0 <= i < |entries| ==> entries[i] == Dispatched(old(entries)[i], now)
      ensures queue == old(queue) + Enqueued(old(entries), now, |entries|)
      ensures skipped == old(skipped) + Coalesced(old(entries), now, |entries|)
      ensures forall i :: 0 <= i < |entries| ==> entries[i].nextFire > now
      ensures wake == now + 4_000_000 || exists i :: 0 <= i < |entries| && wake == entries[i].nextFire
      ensures now < wake <= now + MAX_SLICE && forall i :: 0 <= i < |entries| ==> wake <= entries[i].nextFire
    {
      hide Advanced, Enqueued, Coalesced;
      wake := now + MAX_SLICE;
      PassStart(entries, now);
      var i := 0;
      while i < |entries|
        invariant 0 <= i <= |entries| == |old(entries)|
        invariant forall j :: 0 <= j < i ==> entries[j] == Dispatched(old(entries)[j], now)
        invariant forall j :: i <= j < |entries| ==> entries[j] == old(entries)[j]
        invariant queue == old(queue) + Enqueued(old(entries), now, i)
        invariant skipped == old(skipped) + Coalesced(old(entries), now, i)
        invariant forall j :: 0 <= j < i ==> entries[j].nextFire > now && wake <= entries[j].nextFire
        invariant now < wake <= now + MAX_SLICE
        invariant wake == now + MAX_SLICE || exists j :: 0 <= j < i && wake == entries[j].nextFire
      {
        PassNext(old(entries), now, i);
        var e := entries[i];
        if now >= e.nextFire {
          AdvancedBeyond(e.nextFire, now, e.period);
          var fire := Advance(e.nextFire, now, e.period);
          entries := entries[i := e.(nextFire := fire, inFlight := true)];
          if !e.inFlight {
            queue := queue + [i];
          } else {
            skipped := skipped + 1;
          }
        }
        if entries[i].nextFire < wake {
          wake := entries[i].nextFire;
        }
        i := i + 1;
      }
    }
  }

  lemma PassStart(entries: seq<Runtime>, now: int)
    ensures Enqueued(entries, now, 0) == [] && Coalesced(entries, now, 0) == 0
  {
  }

  lemma PassNext(entries: seq<Runtime>, now: int, i: nat)
    requires i < |entries|
    ensures Enqueued(entries, now, i + 1)
            == Enqueued(entries, now, i) + (if Due(entries[i], now) && !entries[i].inFlight then [i] else [])
    ensures Coalesced(entries, now, i + 1)
            == Coalesced(entries, now, i) + (if Due(entries[i], now) && entries[i].inFlight then 1 else 0)
  {
  }
}
