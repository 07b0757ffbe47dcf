/**
 Incremental maintenance of a filtered view: a client that starts from the rows satisfying its
 predicate and applies only the events delivered to it.
 */
module Views {
  import opened Wrappers
  import opened Bytes
  import opened RowCodec
  import opened Tables
  import Engine
  import PredicateParser
  import Predicates
  import Subscriptions

  /** How SerializeRow renders a row's columns as the JSON object predicates are evaluated on. */
  type Rendering = Columns -> Predicates.RowObject

  function OperationName(op: WriteOp): string {
    match op
    case INSERT_OP => "INSERT"
    case UPDATE_OP => "UPDATE"
    case DELETE_OP => "DELETE"
  }

  function Rendered(columns: Option<Columns>, render: Rendering): Option<Predicates.RowObject> {
    if columns.Some? then Some(render(columns.value)) else None
  }

  /** The event as the subscription manager sees it. */
  function Seen(e: Engine.Event, render: Rendering): Subscriptions.ChangefeedEvent {
    Subscriptions.ChangefeedEvent(
      OperationName(e.op), e.table, Rendered(e.newColumns, render), Rendered(e.oldColumns, render))
  }

  /** An active SELECT * subscription on one table. */
  predicate SelectAll(s: Subscriptions.SqlSubscription) {
    s.isActive && s.kind.SELECT_ALL? && s.table != []
  }

  predicate Wanted(s: Subscriptions.SqlSubscription, columns: Columns, render: Rendering) {
    Subscriptions.Satisfies(s.filter, Some(render(columns)))
  }

  /** The rows of the subscription's table that satisfy its predicate. */
  function Filtered(db: Db, s: Subscriptions.SqlSubscription, render: Rendering): Table {
    if s.table in db then map k | k in db[s.table] && Wanted(s, db[s.table][k], render) :: db[s.table][k] else map[]
  }

  /** The client: a delivered event stores the new row if it satisfies the predicate and removes the key if not. */
  function Receive(view: Table, e: Engine.Event, s: Subscriptions.SqlSubscription, render: Rendering): Table {
    if !Subscriptions.MatchesEvent(s, Seen(e, render)) then view
    else if e.newColumns.Some? && Wanted(s, e.newColumns.value, render) then view[e.key := e.newColumns.value]
    else view - {e.key}
  }

  function Follow(view: Table, events: seq<Engine.Event>, s: Subscriptions.SqlSubscription, render: Rendering): Table
    decreases |events|
  {
    if events == [] then view else Follow(Receive(view, events[0], s, render), events[1..], s, render)
  }

  /** An INSERT over a committed row that satisfied the predicate, with a row that does not. */
  predicate SilentExit(db: Db, w: Write, s: Subscriptions.SqlSubscription, render: Rendering) {
    && w.table == s.table && IsUpsert(db, w)
    && Wanted(s, RowAt(db, w.table, w.row.key).value, render) && !Wanted(s, w.row.columns, render)
  }

  /** There are silent exits: WHERE a = TRUE, and an INSERT over a committed row that turns a false. */
  lemma SilentExitOccurs()
    ensures exists db, w, s, render :: SelectAll(s) && ApplyWrite(db, w).Some? && SilentExit(db, w, s, render)
  {
    var t: Blob, k: Blob, a: Blob := [1], [2], [0x61];
    var isTrue: Columns, isFalse: Columns := map[a := Bool(true)], map[a := Bool(false)];
    var db: Db := map[t := map[k := isTrue]];
    var w := Write(INSERT_OP, t, Row(k, isFalse));
    var filter := PredicateParser.Compare("a", PredicateParser.Equal, PredicateParser.Boolean(true));
    var s := Subscriptions.SqlSubscription([], Subscriptions.SELECT_ALL, t, [], Some(filter), true);
    var render: Rendering := (c: Columns) => map["a" := Predicates.BoolCell(a in c && c[a] == Bool(true))];
    assert RowAt(db, t, k) == Some(isTrue) && isFalse[a] == Bool(false);
    assert Wanted(s, isTrue, render) && !Wanted(s, isFalse, render);
    assert SilentExit(db, w, s, render);
  }

  /** Which events reach a SELECT * subscription. */
  lemma Matching(db: Db, w: Write, s: Subscriptions.SqlSubscription, render: Rendering)
    requires SelectAll(s)
    ensures
      var new' := Wanted(s, w.row.columns, render);
      var old' := RowAt(db, w.table, w.row.key).Some? && Wanted(s, RowAt(db, w.table, w.row.key).value, render);
      Subscriptions.MatchesEvent(s, Seen(Engine.EventFor(db, w), render)) <==>
        w.table == s.table
        && match w.op
           case INSERT_OP => new'
           case UPDATE_OP => new' || old' || s.filter.None?
           case DELETE_OP => old' || s.filter.None?
  {
  }

  /** One applied write keeps an exact view exact, unless it is a silent exit. */
  lemma WriteKeepsView(db: Db, w: Write, s: Subscriptions.SqlSubscription, render: Rendering)
    requires SelectAll(s) && ApplyWrite(db, w).Some?
    ensures Receive(Filtered(db, s, render), Engine.EventFor(db, w), s, render)
            == Filtered(ApplyWrite(db, w).value, s, render)
            <==> !SilentExit(db, w, s, render)
  {
    hide Receive, Filtered, ApplyWrite, SilentExit, SelectAll;
    if SilentExit(db, w, s, render) {
      SilentExitBreaksView(db, w, s, render);
    } else {
      LoudWriteKeepsView(db, w, s, render);
    }
  }

  lemma SilentExitBreaksView(db: Db, w: Write, s: Subscriptions.SqlSubscription, render: Rendering)
    requires SelectAll(s) && ApplyWrite(db, w).Some? && SilentExit(db, w, s, render)
    ensures w.row.key in Receive(Filtered(db, s, render), Engine.EventFor(db, w), s, render)
    ensures w.row.key !in Filtered(ApplyWrite(db, w).value, s, render)
  {
    hide Subscriptions.MatchesEvent, Subscriptions.Satisfies;
    Matching(db, w, s, render);
  }

  lemma LoudWriteKeepsView(db: Db, w: Write, s: Subscriptions.SqlSubscription, render: Rendering)
    requires SelectAll(s) && ApplyWrite(db, w).Some? && !SilentExit(db, w, s, render)
    ensures Receive(Filtered(db, s, render), Engine.EventFor(db, w), s, render)
            == Filtered(ApplyWrite(db, w).value, s, render)
  {
    hide Subscriptions.MatchesEvent, Subscriptions.Satisfies;
    Matching(db, w, s, render);
    var view, after := Filtered(db, s, render), Filtered(ApplyWrite(db, w).value, s, render);
    if w.table != s.table {
      assert after == view;
    } else {
      var k := w.row.key;
      if w.op.DELETE_OP? || !Wanted(s, w.row.columns, render) {
        hide Receive;
        assert after == view - {k};
        assert k in db[s.table] && !Wanted(s, db[s.table][k], render) ==> view - {k} == view;
        assert k !in db[s.table] ==> view - {k} == view;
      } else {
        assert after == view[k := w.row.columns];
      }
    }
  }

  /** No write of the history is a silent exit for the subscription. */
  predicate NoSilentExit(db: Db, ws: seq<Write>, s: Subscriptions.SqlSubscription, render: Rendering)
    decreases |ws|
  {
    ws == [] || ApplyWrite(db, ws[0]).None?
    || (!SilentExit(db, ws[0], s, render) && NoSilentExit(ApplyWrite(db, ws[0]).value, ws[1..], s, render))
  }

  /** After n writes of the history the client holds exactly the rows that satisfy the predicate. */
  predicate ExactAfter(db: Db, ws: seq<Write>, n: nat, s: Subscriptions.SqlSubscription, render: Rendering)
    requires n <= |ws|
  {
    Follow(Filtered(db, s, render), Engine.EventsOf(db, ws[..n]), s, render)
    == Filtered(CommitWrites(db, ws[..n]).0, s, render)
  }

  lemma ExactStep(db: Db, ws: seq<Write>, n: nat, s: Subscriptions.SqlSubscription, render: Rendering)
    requires 0 < n <= |ws| && SelectAll(s) && ApplyWrite(db, ws[0]).Some? && !SilentExit(db, ws[0], s, render)
    ensures ExactAfter(db, ws, n, s, render) <==> ExactAfter(ApplyWrite(db, ws[0]).value, ws[1..], n - 1, s, render)
  {
    hide Receive, Filtered, SilentExit, ApplyWrite;
    WriteKeepsView(db, ws[0], s, render);
    assert ws[..n][1..] == ws[1..][..n - 1];
    assert Engine.EventsOf(db, ws[..n])[1..] == Engine.EventsOf(ApplyWrite(db, ws[0]).value, ws[..n][1..]);
  }

  lemma ExactAtFirst(db: Db, ws: seq<Write>, s: Subscriptions.SqlSubscription, render: Rendering)
    ensures ExactAfter(db, ws, 0, s, render)
    ensures ws != [] && ApplyWrite(db, ws[0]).Some? && SelectAll(s) ==>
              (ExactAfter(db, ws, 1, s, render) <==> !SilentExit(db, ws[0], s, render))
  {
    hide Receive, Filtered, SilentExit, ApplyWrite;
    if ws != [] && ApplyWrite(db, ws[0]).Some? && SelectAll(s) {
      WriteKeepsView(db, ws[0], s, render);
      var db', event := ApplyWrite(db, ws[0]).value, Engine.EventFor(db, ws[0]);
      var view := Filtered(db, s, render);
      assert ws[..1] == [ws[0]] && [ws[0]][1..] == [] && [event][1..] == [];
      assert CommitWrites(db, [ws[0]]) == (db', true);
      assert Engine.EventsOf(db, [ws[0]]) == [event];
      assert Follow(view, [event], s, render) == Receive(view, event, s, render);
    }
  }

  /**
   For any predicate and any history of applied writes, the client's view equals the filtered
   table after every write exactly when no write of the history is a silent exit.
   */
  lemma {:induction false} ViewMaintained(db: Db, ws: seq<Write>, s: Subscriptions.SqlSubscription, render: Rendering)
    requires SelectAll(s) && CommitWrites(db, ws).1
    ensures (forall n :: 0 <= n <= |ws| ==> ExactAfter(db, ws, n, s, render)) <==> NoSilentExit(db, ws, s, render)
    decreases |ws|
  {
    hide SilentExit, ExactAfter, SelectAll, ApplyWrite;
    ExactAtFirst(db, ws, s, render);
    if ws != [] && !SilentExit(db, ws[0], s, render) {
      var db' := ApplyWrite(db, ws[0]).value;
      ViewMaintained(db', ws[1..], s, render);
      forall n | 0 < n <= |ws|
        ensures ExactAfter(db, ws, n, s, render) <==> ExactAfter(db', ws[1..], n - 1, s, render)
      {
        ExactStep(db, ws, n, s, render);
      }
      if NoSilentExit(db, ws, s, render) {
        forall n | 0 <= n <= |ws| ensures ExactAfter(db, ws, n, s, render) {
          if n > 0 {
            assert ExactAfter(db', ws[1..], n - 1, s, render);
          }
        }
      } else {
        var m :| 0 <= m <= |ws| - 1 && !ExactAfter(db', ws[1..], m, s, render);
        assert !ExactAfter(db, ws, m + 1, s, render);
      }
    }
  }

  /** A history of genuine INSERT, UPDATE and DELETE events never drifts. */
  lemma {:induction false} GenuineHistoryKeepsView(
      db: Db, ws: seq<Write>, s: Subscriptions.SqlSubscription, render: Rendering)
    requires SelectAll(s) && Genuine(db, ws)
    ensures Follow(Filtered(db, s, render), Engine.EventsOf(db, ws), s, render)
            == Filtered(CommitWrites(db, ws).0, s, render)
    decreases |ws|
  {
    hide Receive, Filtered, SelectAll, ApplyWrite;
    if ws != [] {
      WriteKeepsView(db, ws[0], s, render);
      var db' := ApplyWrite(db, ws[0]).value;
      assert Engine.EventsOf(db, ws)[1..] == Engine.EventsOf(db', ws[1..]);
      GenuineHistoryKeepsView(db', ws[1..], s, render);
    }
  }

  /** An event that is not delivered, of a write that is not a silent exit, leaves the filtered rows as they were. */
  lemma UndeliveredIsIrrelevant(db: Db, w: Write, s: Subscriptions.SqlSubscription, render: Rendering)
    requires SelectAll(s) && ApplyWrite(db, w).Some? && !SilentExit(db, w, s, render)
    requires !Subscriptions.MatchesEvent(s, Seen(Engine.EventFor(db, w), render))
    ensures Filtered(ApplyWrite(db, w).value, s, render) == Filtered(db, s, render)
  {
    hide SilentExit, ApplyWrite, Filtered;
    WriteKeepsView(db, w, s, render);
  }
}
