/** The changefeed's bounded event history (src/changefeed/changefeed_engine.cpp, PublishEvent and GetEvents). */
module Changefeed {

  /** An event with the offset it was published at. */
  datatype Stamped<E> = Stamped(offset: nat, event: E)

  /** Offsets are consecutive from 1. */
  predicate Consecutive<E>(events: seq<Stamped<E>>) {
    forall i :: 0 <= i < |events| ==> events[i].offset == i + 1
  }

  predicate Ascending<E>(events: seq<Stamped<E>>) {
    forall i, j :: 0 <= i < j < |events| ==> events[i].offset < events[j].offset
  }

  function Later<E>(events: seq<Stamped<E>>, start: nat, matches: E -> bool): (r: seq<Stamped<E>>)
    ensures |r| <= |events|
    ensures forall i :: 0 <= i < |r| ==> r[i] in events && r[i].offset >= start && matches(r[i].event)
    decreases |events|
  {
    if events == [] then []
    else if events[0].offset >= start && matches(events[0].event) then
      [events[0]] + Later(events[1..], start, matches)
    else Later(events[1..], start, matches)
  }

  /** A page: at most `limit` events, but one even when the limit is zero. */
  function Page<E>(events: seq<Stamped<E>>, limit: nat): (r: seq<Stamped<E>>) {
    var n := if limit == 0 then 1 else limit;
    if |events| <= n then events else events[..n]
  }

  /** The loop of GetEvents before event i has found the first of the selected events. */
  ghost predicate Found<E>(
      events: seq<Stamped<E>>, i: nat, result: seq<Stamped<E>>, start: nat, matches: E -> bool)
    requires i <= |events|
  {
    Later(events, start, matches) == result + Later(events[i..], start, matches)
  }

  lemma FoundNext<E>(events: seq<Stamped<E>>, i: nat, result: seq<Stamped<E>>, start: nat, matches: E -> bool)
    requires i < |events| && Found(events, i, result, start, matches)
    ensures var selected := events[i].offset >= start && matches(events[i].event);
            Found(events, i + 1, if selected then result + [events[i]] else result, start, matches)
  {
    hide Later;
    assert events[i..][1..] == events[i + 1..];
    LaterStep(events[i..], start, matches);
    var more := Later(events[i + 1..], start, matches);
    assert result + ([events[i]] + more) == result + [events[i]] + more;
    assert result + ([] + more) == result + more;
  }

  lemma FoundStart<E>(events: seq<Stamped<E>>, start: nat, matches: E -> bool)
    ensures Found(events, 0, [], start, matches)
  {
    hide Later;
    assert events[0..] == events;
  }

  /** Stopping with enough events, or at the end, gives the page. */
  lemma FoundPage<E>(
      events: seq<Stamped<E>>, i: nat, result: seq<Stamped<E>>, start: nat, limit: nat, matches: E -> bool)
    requires i <= |events| && Found(events, i, result, start, matches)
    requires (i == |events| && (result == [] || |result| < limit))
             || (|result| > 0 && limit <= |result| && (|result| == 1 || |result| == limit))
    ensures result == Page(Later(events, start, matches), limit)
  {
    if i == |events| {
      LaterNothing(events[i..], start, matches);
      assert result + [] == result;
    }
  }

  /** The last |part| elements of all. */
  predicate Suffix<T(==)>(part: seq<T>, all: seq<T>) {
    |part| <= |all| && part == all[|all| - |part|..]
  }

  lemma SuffixMore<T>(part: seq<T>, all: seq<T>, x: T)
    requires Suffix(part, all)
    ensures Suffix(part + [x], all + [x])
  {
  }

  lemma SuffixDropped<T>(part: seq<T>, all: seq<T>, n: nat)
    requires Suffix(part, all) && n <= |part|
    ensures Suffix(part[n..], all)
    ensures n < |part| ==> part[n..] != [] && part[n..][|part| - n - 1] == all[|all| - 1]
  {
  }

  class ChangefeedEngine<E> {
    /** max_lag_entries; zero keeps everything. */
    const cap: nat
    /** events_, waiting for the delivery loop. */
    var pending: seq<Stamped<E>>
    /** all_events_, the retained history. */
    var retained: seq<Stamped<E>>
    var nextOffset: nat
    /** Everything ever published, and how many elements trimming has moved. */
    ghost var published: seq<Stamped<E>>
    ghost var moved: nat

    ghost predicate Valid()
      reads this
    {
      && Consecutive(published) && nextOffset == |published| + 1
      && Suffix(retained, published) && Suffix(pending, published)
      && (cap == 0 ==> retained == published)
      && (cap > 0 ==> |retained| <= cap)
      && (|retained| >= Kept(cap) || retained == published)
      && Paid(moved, |retained|, cap, |published|)
    }

    constructor (cap: nat)
      ensures Valid() && this.cap == cap && published == [] && moved == 0
    {
      this.cap := cap;
      pending, retained, nextOffset := [], [], 1;
      published, moved := [], 0;
    }

    method PublishEvent(event: E)
      requires Valid()
      modifies this
      ensures Valid()
      ensures published == old(published) + [Stamped(|old(published)| + 1, event)]
      ensures pending == old(pending) + [Stamped(|old(published)| + 1, event)]
      ensures cap != 1 ==> retained != [] && retained[|retained| - 1] == published[|published| - 1]
      ensures moved <= 3 * |published|
      ensures if cap == 0 || |old(retained)| < cap then retained == old(retained) + [published[|published| - 1]]
              else |retained| <= |old(retained)| && 4 * |retained| <= 3 * cap < 4 * (|retained| + 1)
    {
      hide Consecutive, Kept, Paid, Suffix;
      var stamped := Stamped(nextOffset, event);
      ConsecutiveMore(published, event);
      SuffixMore(retained, published, stamped);
      SuffixMore(pending, published, stamped);
      TrimKeepsNewest(cap);
      TrimPaid(moved, |retained|, cap, |published|);
      nextOffset := nextOffset + 1;
      published := published + [stamped];
      pending := pending + [stamped];
      retained := retained + [stamped];
      if cap > 0 && |retained| > cap {
        var drop := |retained| - Kept(cap);
        SuffixDropped(retained, published, drop);
        retained := retained[drop..];
        moved := moved + |retained|;
      }
      KeptShare(cap);
    }

    method GetEvents(start: nat, limit: nat, matches: E -> bool) returns (result: seq<Stamped<E>>)
      ensures result == Page(Later(retained, start, matches), limit)
    {
      hide Later, Page, Found;
      var events := retained;
      result := [];
      var i := 0;
      FoundStart(events, start, matches);
      while i < |events|
        invariant 0 <= i <= |events|
        invariant Found(events, i, result, start, matches)
        invariant result == [] || |result| < limit
      {
        FoundNext(events, i, result, start, matches);
        var event := events[i];
        if event.offset >= start && matches(event.event) {
          result := result + [event];
          if |result| >= limit {
            FoundPage(events, i + 1, result, start, limit, matches);
            return;
          }
        }
        i := i + 1;
      }
      FoundPage(events, i, result, start, limit, matches);
    }

    /** Three quarters of the cap of the latest events, or all of them while there are fewer, are always there. */
    lemma LatestRetained(n: nat)
      requires Valid() && n <= |published| && 4 * n <= 3 * cap
      ensures n <= |retained| && retained[|retained| - n..] == published[|published| - n..]
    {
      KeptShare(cap);
    }

    /** GetOldestRetainedOffset: everything from this offset on is still there. */
    method OldestRetained() returns (offset: nat)
      requires Valid()
      ensures retained == [] ==> offset == 0
      ensures retained != [] ==> 0 < offset <= |published| && retained == published[offset - 1..]
    {
      offset := if retained == [] then 0 else retained[0].offset;
    }
  }

  /** Three moves per published event pay for every trim so far, and for the part of the next already due. */
  predicate Paid(moved: nat, retained: nat, cap: nat, published: nat) {
    moved + 3 * (if retained > Kept(cap) then retained - Kept(cap) else 0) <= 3 * published
  }

  lemma TrimPaid(moved: nat, retained: nat, cap: nat, published: nat)
    requires Paid(moved, retained, cap, published)
    ensures moved <= 3 * published
    ensures Paid(moved, retained + 1, cap, published + 1)
    ensures cap > 0 && retained == cap ==> Paid(moved + Kept(cap), Kept(cap), cap, published + 1)
  {
  }

  lemma ConsecutiveMore<E>(events: seq<Stamped<E>>, event: E)
    requires Consecutive(events)
    ensures Consecutive(events + [Stamped(|events| + 1, event)])
  {
  }

  /** How many events a trim keeps. */
  function Kept(cap: nat): nat {
    cap * 3 / 4
  }

  /** A page keeps to its limit exactly when the limit is positive or there is nothing to return: limit zero returns one. */
  lemma PageKeepsLimit<E>(events: seq<Stamped<E>>, limit: nat)
    ensures |Page(events, limit)| <= limit <==> limit > 0 || events == []
    ensures limit == 0 && events != [] ==> Page(events, limit) == [events[0]]
  {
    if limit == 0 && events != [] {
      assert Page(events, limit) == events[..1];
    }
  }

  /** A trim keeps three quarters of the cap, rounded down. */
  lemma KeptShare(cap: nat)
    ensures 4 * Kept(cap) <= 3 * cap < 4 * (Kept(cap) + 1)
  {
  }

  /** The history is trimmed to a quarter below the cap; only a cap of one loses the newest event. */
  lemma TrimKeepsNewest(cap: nat)
    ensures cap > 0 ==> (Kept(cap) == 0 <==> cap == 1)
    ensures cap > 0 ==> Kept(cap) < cap && Kept(cap) <= 3 * (cap + 1 - Kept(cap))
  {
  }

  lemma LaterStep<E>(events: seq<Stamped<E>>, start: nat, matches: E -> bool)
    requires events != []
    ensures Later(events, start, matches)
            == (if events[0].offset >= start && matches(events[0].event) then [events[0]] else [])
               + Later(events[1..], start, matches)
  {
  }

  lemma LaterNothing<E>(events: seq<Stamped<E>>, start: nat, matches: E -> bool)
    requires events == []
    ensures Later(events, start, matches) == []
  {
  }

  /** Every event at or after the start that matches is selected, and no other. */
  lemma {:induction false} LaterComplete<E>(events: seq<Stamped<E>>, start: nat, matches: E -> bool, i: nat)
    requires i < |events|
    ensures events[i].offset >= start && matches(events[i].event) ==> events[i] in Later(events, start, matches)
    ensures !(events[i].offset >= start && matches(events[i].event)) ==> events[i] !in Later(events, start, matches)
    decreases |events|
  {
    if i > 0 {
      LaterComplete(events[1..], start, matches, i - 1);
    }
  }

  lemma {:induction false} LaterAscends<E>(events: seq<Stamped<E>>, start: nat, matches: E -> bool)
    requires Ascending(events)
    ensures Ascending(Later(events, start, matches))
    decreases |events|
  {
    if events != [] {
      assert forall i :: 0 <= i < |events[1..]| ==> events[1..][i] == events[i + 1];
      assert Ascending(events[1..]);
      LaterAscends(events[1..], start, matches);
      var rest := Later(events[1..], start, matches);
      forall i | 0 <= i < |rest| ensures events[0].offset < rest[i].offset {
        assert rest[i] in events[1..];
      }
    }
  }

  /** Starting after the n-th selected event selects exactly the rest. */
  lemma {:induction false} LaterResumes<E>(events: seq<Stamped<E>>, start: nat, n: nat, matches: E -> bool)
    requires Ascending(events) && 0 < n <= |Later(events, start, matches)|
    ensures Later(events, Later(events, start, matches)[n - 1].offset + 1, matches)
            == Later(events, start, matches)[n..]
    decreases |events|
  {
    hide Later;
    var rest := events[1..];
    var all := Later(events, start, matches);
    var next := all[n - 1].offset + 1;
    LaterStep(events, start, matches);
    LaterStep(events, next, matches);
    FirstIsLeast(events, all[n - 1]);
    var more := Later(rest, start, matches);
    if events[0].offset >= start && matches(events[0].event) {
      assert all[1..] == more && all[n..] == more[n - 1..];
      if n == 1 {
        SelectsAll(rest, start, next, matches);
      } else {
        LaterResumes(rest, start, n - 1, matches);
      }
    } else {
      LaterResumes(rest, start, n, matches);
    }
  }

  lemma FirstIsLeast<E>(events: seq<Stamped<E>>, x: Stamped<E>)
    requires Ascending(events) && x in events
    ensures Ascending(events[1..])
    ensures events[0].offset <= x.offset
    ensures x == events[0] ==> forall i :: 0 <= i < |events[1..]| ==> events[1..][i].offset > x.offset
  {
    assert forall i :: 0 <= i < |events[1..]| ==> events[1..][i] == events[i + 1];
  }

  lemma {:induction false} SelectsAll<E>(events: seq<Stamped<E>>, start: nat, next: nat, matches: E -> bool)
    requires start <= next && forall i :: 0 <= i < |events| ==> events[i].offset >= next
    ensures Later(events, next, matches) == Later(events, start, matches)
    decreases |events|
  {
    if events != [] {
      SelectsAll(events[1..], start, next, matches);
    }
  }

  /** Reading page after page, each from just past the last offset, loses and repeats nothing. */
  lemma PagesConcat<E>(events: seq<Stamped<E>>, start: nat, a: nat, b: nat, matches: E -> bool)
    requires Ascending(events) && a > 0 && b > 0
    ensures var first := Page(Later(events, start, matches), a);
            first != [] ==>
              first + Page(Later(events, first[|first| - 1].offset + 1, matches), b)
              == Page(Later(events, start, matches), a + b)
  {
    hide Later, Ascending;
    var all := Later(events, start, matches);
    var first := Page(all, a);
    if first != [] {
      LaterResumes(events, start, |first|, matches);
    }
  }
}
