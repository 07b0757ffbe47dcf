/** Filtered subscriptions and their routing index (src/changefeed/sql_subscription.cpp). */
module Subscriptions {
  import opened Wrappers
  import opened Bytes
  import opened Sequences
  import PredicateParser
  import Predicates

  datatype SubscriptionType = SELECT_ALL | SELECT_COLUMNS | ALL_TABLES

  datatype SqlSubscription = SqlSubscription(
    client: Blob,
    kind: SubscriptionType,
    table: Blob,
    columns: seq<Blob>,
    filter: Option<PredicateParser.Predicate>,
    isActive: bool)

  /** The number inside "sql_sub_<n>". */
  type SubscriptionId = nat

  /** What the SELECT pattern captures; a table name is one or more word characters. */
  datatype Select = Select(table: Blob, all: bool, columns: seq<Blob>, whereClause: string)

  /** An event with its row payloads parsed: None where a payload is absent or unparseable. */
  datatype ChangefeedEvent = ChangefeedEvent(
    operation: string, table: Blob, newColumns: Option<Predicates.RowObject>, oldColumns: Option<Predicates.RowObject>)

  /** An event handed to a client; the columns are those FilterEvent keeps, None for all of them. */
  datatype Delivery = Delivery(client: Blob, event: ChangefeedEvent, columns: Option<seq<Blob>>)

  predicate Satisfies(filter: Option<PredicateParser.Predicate>, row: Option<Predicates.RowObject>) {
    filter.Some? ==> row.Some? && Predicates.Evaluate(filter.value, row.value)
  }

  /** SqlSubscription::MatchesEvent. */
  predicate MatchesEvent(s: SqlSubscription, e: ChangefeedEvent) {
    && s.isActive
    && (s.kind.ALL_TABLES? ||
        (&& (s.table != [] ==> e.table == s.table)
         && if e.operation == "DELETE" then Satisfies(s.filter, e.oldColumns)
            else if e.operation == "UPDATE" then Satisfies(s.filter, e.newColumns) || Satisfies(s.filter, e.oldColumns)
            else Satisfies(s.filter, e.newColumns)))
  }

  /** The rows a filter is judged on: all but a DELETE have a new one, an UPDATE and a DELETE an old one. */
  function Judged(e: ChangefeedEvent): set<Predicates.RowObject> {
    (if e.operation != "DELETE" && e.newColumns.Some? then {e.newColumns.value} else {})
    + (if e.operation in {"DELETE", "UPDATE"} && e.oldColumns.Some? then {e.oldColumns.value} else {})
  }

  /**
   Who is told of an event: no inactive subscription, every active one to all tables, and of the others those on
   the event's table without a filter or whose filter selects a judged row, whatever columns they ask for.
   */
  lemma ToldIff(s: SqlSubscription, e: ChangefeedEvent)
    requires s.kind.ALL_TABLES? || s.table != []
    ensures MatchesEvent(s, e) <==>
              s.isActive && (s.kind == ALL_TABLES || (s.table == e.table &&
                (s.filter == None || Predicates.Selected(s.filter.value, Judged(e)) != {})))
  {
    if s.filter.Some? && !s.kind.ALL_TABLES? {
      Predicates.EvaluateSelects(s.filter.value, Judged(e));
      var selected := set row: Predicates.RowObject | row in Judged(e) && Predicates.Evaluate(s.filter.value, row);
      if MatchesEvent(s, e) {
        assert (e.newColumns.Some? && e.newColumns.value in selected)
            || (e.oldColumns.Some? && e.oldColumns.value in selected);
      }
    }
  }

  function DeliveryFor(s: SqlSubscription, e: ChangefeedEvent): Delivery {
    Delivery(s.client, e, if s.kind.SELECT_COLUMNS? then Some(s.columns) else None)
  }

  /** The subscriptions among `ids` that produce exactly the delivery d. */
  ghost function Hits(
      ids: set<SubscriptionId>, subs: map<SubscriptionId, SqlSubscription>, e: ChangefeedEvent, d: Delivery)
    : set<SubscriptionId>
  {
    set id | id in ids && id in subs && MatchesEvent(subs[id], e) && DeliveryFor(subs[id], e) == d
  }

  /** Each delivery occurs as often as there are subscriptions among `ids` that produce it. */
  ghost predicate Covers(
      results: seq<Delivery>, ids: set<SubscriptionId>, subs: map<SubscriptionId, SqlSubscription>, e: ChangefeedEvent)
  {
    forall d: Delivery :: multiset(results)[d] == |Hits(ids, subs, e, d)|
  }

  /** How many deliveries go to a client. */
  function CountFor(results: seq<Delivery>, client: Blob): nat
    decreases |results|
  {
    if results == [] then 0
    else CountFor(results[..|results| - 1], client) + (if results[|results| - 1].client == client then 1 else 0)
  }

  /** The subscriptions among `ids` of a client that match. */
  ghost function Matched(
      ids: set<SubscriptionId>, subs: map<SubscriptionId, SqlSubscription>, e: ChangefeedEvent, client: Blob)
    : set<SubscriptionId>
  {
    set id | id in ids && id in subs && MatchesEvent(subs[id], e) && subs[id].client == client
  }

  /** Each client gets one delivery for each of its subscriptions among `ids` that match. */
  ghost predicate Serves(
      results: seq<Delivery>, ids: set<SubscriptionId>, subs: map<SubscriptionId, SqlSubscription>, e: ChangefeedEvent)
  {
    forall c: Blob :: CountFor(results, c) == |Matched(ids, subs, e, c)|
  }

  lemma ServesNone(subs: map<SubscriptionId, SqlSubscription>, e: ChangefeedEvent)
    ensures Serves([], {}, subs, e)
  {
    forall c: Blob ensures CountFor([], c) == |Matched({}, subs, e, c)| {
      assert Matched({}, subs, e, c) == {};
    }
  }

  lemma ServesOneMore(
      results: seq<Delivery>, ids: set<SubscriptionId>, subs: map<SubscriptionId, SqlSubscription>,
      e: ChangefeedEvent, id: SubscriptionId)
    requires Serves(results, ids, subs, e) && id !in ids
    ensures Serves(
              if id in subs && MatchesEvent(subs[id], e) then results + [DeliveryFor(subs[id], e)] else results,
              ids + {id}, subs, e)
  {
    hide MatchesEvent;
    var hit := id in subs && MatchesEvent(subs[id], e);
    var more := if hit then results + [DeliveryFor(subs[id], e)] else results;
    assert hit ==> more[..|results|] == results;
    forall c: Blob ensures CountFor(more, c) == |Matched(ids + {id}, subs, e, c)| {
      var before, after := Matched(ids, subs, e, c), Matched(ids + {id}, subs, e, c);
      if hit && subs[id].client == c {
        assert after == before + {id};
      } else {
        assert after == before;
      }
    }
  }

  lemma CoversNone(subs: map<SubscriptionId, SqlSubscription>, e: ChangefeedEvent)
    ensures Covers([], {}, subs, e)
  {
    forall d: Delivery ensures multiset([])[d] == |Hits({}, subs, e, d)| {
      assert Hits({}, subs, e, d) == {};
    }
  }

  lemma CoversOneMore(
      results: seq<Delivery>, ids: set<SubscriptionId>, subs: map<SubscriptionId, SqlSubscription>,
      e: ChangefeedEvent, id: SubscriptionId)
    requires Covers(results, ids, subs, e) && id !in ids
    ensures Covers(
              if id in subs && MatchesEvent(subs[id], e) then results + [DeliveryFor(subs[id], e)] else results,
              ids + {id}, subs, e)
  {
    hide MatchesEvent, DeliveryFor;
    var hit := id in subs && MatchesEvent(subs[id], e);
    var more := if hit then results + [DeliveryFor(subs[id], e)] else results;
    forall d: Delivery ensures multiset(more)[d] == |Hits(ids + {id}, subs, e, d)| {
      var before, after := Hits(ids, subs, e, d), Hits(ids + {id}, subs, e, d);
      if hit && DeliveryFor(subs[id], e) == d {
        assert after == before + {id};
      } else {
        assert after == before;
      }
    }
  }

  /** Where a subscription is routed: its own set and no other. */
  predicate Routed(
      id: SubscriptionId, s: SqlSubscription, tableIndex: map<Blob, set<SubscriptionId>>, allTables: set<SubscriptionId>)
  {
    && (id in allTables <==> s.kind.ALL_TABLES?)
    && forall t :: t in tableIndex ==> (id in tableIndex[t] <==> !s.kind.ALL_TABLES? && t == s.table)
  }

  /** The routing sets hold exactly the live ids, each in the one set it belongs to. */
  predicate IndexAgrees(
      subs: map<SubscriptionId, SqlSubscription>, tableIndex: map<Blob, set<SubscriptionId>>,
      allTables: set<SubscriptionId>)
  {
    && (forall id :: id in subs ==> Routed(id, subs[id], tableIndex, allTables))
    && (forall id :: id in subs && !subs[id].kind.ALL_TABLES? ==> subs[id].table in tableIndex && subs[id].table != [])
    && allTables <= subs.Keys
    && (forall t :: t in tableIndex ==> tableIndex[t] != {} && tableIndex[t] <= subs.Keys)
  }

  /** Every live id is exactly once in its own client's list, and the lists hold nothing else. */
  predicate ClientsAgree(
      subs: map<SubscriptionId, SqlSubscription>, clients: map<Blob, seq<SubscriptionId>>)
  {
    && (forall id :: id in subs ==> subs[id].client in clients && id in clients[subs[id].client])
    && forall c :: c in clients ==> Listed(subs, c, clients[c])
  }

  predicate Listed(subs: map<SubscriptionId, SqlSubscription>, client: Blob, ids: seq<SubscriptionId>) {
    && ids != [] && Distinct(ids)
    && forall id :: id in ids ==> id in subs && subs[id].client == client
  }

  /** The routing sets are determined by the live subscriptions: no stale entry, no empty bucket. */
  lemma IndexIsExact(
      subs: map<SubscriptionId, SqlSubscription>, tableIndex: map<Blob, set<SubscriptionId>>,
      allTables: set<SubscriptionId>)
    requires IndexAgrees(subs, tableIndex, allTables)
    ensures allTables == set id | id in subs && subs[id].kind.ALL_TABLES?
    ensures tableIndex.Keys == set id | id in subs && !subs[id].kind.ALL_TABLES? :: subs[id].table
    ensures forall t :: t in tableIndex ==>
              tableIndex[t] == set id | id in subs && !subs[id].kind.ALL_TABLES? && subs[id].table == t
  {
    forall t | t in tableIndex ensures exists id :: id in subs && !subs[id].kind.ALL_TABLES? && subs[id].table == t {
      var id :| id in tableIndex[t];
      assert Routed(id, subs[id], tableIndex, allTables);
    }
    forall id | id in subs ensures Routed(id, subs[id], tableIndex, allTables) {
    }
  }

  /** The candidates of an event find every subscription a full scan would. */
  lemma CandidatesSuffice(
      subs: map<SubscriptionId, SqlSubscription>, tableIndex: map<Blob, set<SubscriptionId>>,
      allTables: set<SubscriptionId>, e: ChangefeedEvent, d: Delivery)
    requires IndexAgrees(subs, tableIndex, allTables)
    ensures Hits((if e.table in tableIndex then tableIndex[e.table] else {}) + allTables, subs, e, d)
            == Hits(subs.Keys, subs, e, d)
  {
    forall id | id in subs && MatchesEvent(subs[id], e)
      ensures id in (if e.table in tableIndex then tableIndex[e.table] else {}) + allTables
    {
      assert Routed(id, subs[id], tableIndex, allTables);
    }
  }

  /** The list with every occurrence of an id removed. */
  function Without(ids: seq<SubscriptionId>, id: SubscriptionId): (r: seq<SubscriptionId>)
    ensures forall x :: x in r <==> x in ids && x != id
    decreases |ids|
  {
    if ids == [] then []
    else
      var rest := Without(ids[1..], id);
      if ids[0] == id then rest else [ids[0]] + rest
  }

  lemma {:induction false} WithoutKeepsDistinct(ids: seq<SubscriptionId>, id: SubscriptionId)
    requires Distinct(ids)
    ensures Distinct(Without(ids, id))
    decreases |ids|
  {
    if ids != [] {
      assert Distinct(ids[1..]);
      WithoutKeepsDistinct(ids[1..], id);
      assert ids[0] !in Without(ids[1..], id);
    }
  }

  function Members(ids: seq<SubscriptionId>): set<SubscriptionId> {
    set id | id in ids
  }

  /** The subscriptions of every other client. */
  function Live(subs: map<SubscriptionId, SqlSubscription>, client: Blob): map<SubscriptionId, SqlSubscription> {
    map id | id in subs && subs[id].client != client :: subs[id]
  }

  class SqlSubscriptionManager {
    var subscriptions: map<SubscriptionId, SqlSubscription>
    var clientSubscriptions: map<Blob, seq<SubscriptionId>>
    var tableIndex: map<Blob, set<SubscriptionId>>
    var allTables: set<SubscriptionId>
    var nextId: SubscriptionId

    ghost predicate Valid()
      reads this
    {
      && (forall id :: id in subscriptions ==> id < nextId)
      && IndexAgrees(subscriptions, tableIndex, allTables)
      && ClientsAgree(subscriptions, clientSubscriptions)
    }

    constructor ()
      ensures Valid() && subscriptions == map[]
    {
      subscriptions, clientSubscriptions, tableIndex, allTables := map[], map[], map[], {};
      nextId := 1;
    }

    /** IndexSubscription. */
    method Index(id: SubscriptionId, s: SqlSubscription)
      requires IndexAgrees(subscriptions, tableIndex, allTables) && id !in subscriptions
      requires s.kind.ALL_TABLES? || s.table != []
      modifies this`tableIndex, this`allTables
      ensures IndexAgrees(subscriptions[id := s], tableIndex, allTables)
    {
      if s.kind.ALL_TABLES? {
        allTables := allTables + {id};
      } else {
        var bucket := if s.table in tableIndex then tableIndex[s.table] else {};
        tableIndex := tableIndex[s.table := bucket + {id}];
      }
    }

    /** UnindexSubscription. */
    method Unindex(id: SubscriptionId)
      requires IndexAgrees(subscriptions, tableIndex, allTables) && id in subscriptions
      modifies this`tableIndex, this`allTables
      ensures IndexAgrees(subscriptions - {id}, tableIndex, allTables)
    {
      var s := subscriptions[id];
      assert Routed(id, s, tableIndex, allTables);
      if s.kind.ALL_TABLES? {
        allTables := allTables - {id};
      } else if s.table in tableIndex {
        var bucket := tableIndex[s.table] - {id};
        tableIndex := if bucket == {} then tableIndex - {s.table} else tableIndex[s.table := bucket];
      }
    }

    /** Enters a subscription in the index, the table of subscriptions and its client's list. */
    method Enter(id: SubscriptionId, s: SqlSubscription)
      requires Valid() && id < nextId && id !in subscriptions
      requires s.kind.ALL_TABLES? || s.table != []
      modifies this`subscriptions, this`clientSubscriptions, this`tableIndex, this`allTables
      ensures Valid()
      ensures subscriptions == old(subscriptions)[id := s]
      ensures clientSubscriptions ==
              old(clientSubscriptions)[s.client :=
                (if s.client in old(clientSubscriptions) then old(clientSubscriptions)[s.client] else []) + [id]]
    {
      hide IndexAgrees, Distinct, Listed;
      Index(id, s);
      var ids := if s.client in clientSubscriptions then clientSubscriptions[s.client] else [];
      EnterKeepsClients(subscriptions, clientSubscriptions, id, s);
      subscriptions := subscriptions[id := s];
      clientSubscriptions := clientSubscriptions[s.client := ids + [id]];
    }

    /** Subscribe: `select` is None when the query is not a SELECT. The id is used up either way. */
    method Subscribe(client: Blob, select: Option<Select>) returns (created: Option<SubscriptionId>)
      requires Valid() && (select.Some? ==> select.value.table != [])
      modifies this
      ensures Valid() && nextId == old(nextId) + 1
      ensures created.Some? <==>
              select.Some? && (select.value.whereClause == "" || Predicates.ParseWhere(select.value.whereClause).Some?)
      ensures created.None? ==>
                && subscriptions == old(subscriptions) && clientSubscriptions == old(clientSubscriptions)
                && tableIndex == old(tableIndex) && allTables == old(allTables)
      ensures created.Some? ==>
                && created.value !in old(subscriptions)
                && subscriptions == old(subscriptions)[created.value := SqlSubscription(
                     client,
                     if select.value.all then SELECT_ALL else SELECT_COLUMNS,
                     select.value.table,
                     if select.value.all then [] else select.value.columns,
                     if select.value.whereClause == "" then None else Predicates.ParseWhere(select.value.whereClause),
                     true)]
    {
      hide IndexAgrees, ClientsAgree;
      var id := nextId;
      nextId := nextId + 1;
      if select.None? {
        return None;
      }
      var filter := None;
      if select.value.whereClause != "" {
        filter := Predicates.ParseClause(select.value.whereClause);
        if filter.None? {
          return None;
        }
      }
      var all := select.value.all;
      Enter(id, SqlSubscription(client, if all then SELECT_ALL else SELECT_COLUMNS, select.value.table,
                                if all then [] else select.value.columns, filter, true));
      return Some(id);
    }

    method SubscribeToAllTables(client: Blob) returns (id: SubscriptionId)
      requires Valid()
      modifies this
      ensures Valid() && nextId == old(nextId) + 1
      ensures id !in old(subscriptions)
      ensures subscriptions == old(subscriptions)[id := SqlSubscription(client, ALL_TABLES, [], [], None, true)]
    {
      hide IndexAgrees, ClientsAgree;
      id := nextId;
      nextId := nextId + 1;
      Enter(id, SqlSubscription(client, ALL_TABLES, [], [], None, true));
    }

    method Unsubscribe(id: SubscriptionId)
      requires Valid()
      modifies this`subscriptions, this`clientSubscriptions, this`tableIndex, this`allTables
      ensures Valid() && subscriptions == old(subscriptions) - {id}
      ensures id !in old(subscriptions) ==>
                && clientSubscriptions == old(clientSubscriptions)
                && tableIndex == old(tableIndex) && allTables == old(allTables)
    {
      hide IndexAgrees, Listed, Distinct;
      if id in subscriptions {
        var client := subscriptions[id].client;
        Unindex(id);
        LeaveKeepsClients(subscriptions, clientSubscriptions, id);
        subscriptions := subscriptions - {id};
        var ids := Without(clientSubscriptions[client], id);
        clientSubscriptions := clientSubscriptions[client := ids];
        if ids == [] {
          clientSubscriptions := clientSubscriptions - {client};
          assert clientSubscriptions == old(clientSubscriptions) - {client};
        }
      }
    }

    method UnsubscribeAll(client: Blob)
      requires Valid()
      modifies this`subscriptions, this`clientSubscriptions, this`tableIndex, this`allTables
      ensures Valid() && subscriptions == Live(old(subscriptions), client)
      ensures clientSubscriptions == old(clientSubscriptions) - {client}
    {
      hide IndexAgrees, ClientsAgree;
      if client in clientSubscriptions {
        var ids := clientSubscriptions[client];
        var i := 0;
        assert subscriptions == subscriptions - Members(ids[..i]);
        while i < |ids|
          invariant 0 <= i <= |ids|
          invariant clientSubscriptions == old(clientSubscriptions) && nextId == old(nextId)
          invariant subscriptions == old(subscriptions) - Members(ids[..i])
          invariant IndexAgrees(subscriptions, tableIndex, allTables)
        {
          var id := ids[i];
          if id in subscriptions {
            Unindex(id);
            subscriptions := subscriptions - {id};
          }
          assert ids[..i + 1] == ids[..i] + [id];
          assert Members(ids[..i + 1]) == Members(ids[..i]) + {id};
          i := i + 1;
        }
        assert ids[..i] == ids;
        ClientLeaves(old(subscriptions), clientSubscriptions, client);
        clientSubscriptions := clientSubscriptions - {client};
      } else {
        NoneLeave(subscriptions, clientSubscriptions, client);
        assert clientSubscriptions - {client} == clientSubscriptions;
      }
    }

    /** ProcessEvent: the deliveries are those of testing every live subscription, each once. */
    method ProcessEvent(e: ChangefeedEvent) returns (results: seq<Delivery>)
      requires Valid()
      ensures Covers(results, subscriptions.Keys, subscriptions, e)
      ensures Serves(results, subscriptions.Keys, subscriptions, e)
      ensures forall d: Delivery :: d in results ==> d.event == e
      ensures forall d: Delivery :: d in results ==> Owed(d, subscriptions, e)
    {
      hide MatchesEvent, DeliveryFor, Hits, Covers, Serves, ClientsAgree, CountFor, Owed;
      results := [];
      CoversNone(subscriptions, e);
      ServesNone(subscriptions, e);
      var bucket := if e.table in tableIndex then tableIndex[e.table] else {};
      results := Evaluate(bucket, {}, e, results);
      assert {} + bucket == bucket;
      assert bucket !! allTables by {
        forall id | id in bucket ensures id !in allTables {
          assert Routed(id, subscriptions[id], tableIndex, allTables);
        }
      }
      results := Evaluate(allTables, bucket, e, results);
      CandidatesCover(subscriptions, tableIndex, allTables, e, results);
      CandidatesServe(subscriptions, tableIndex, allTables, e, results);
      CoveredIsOwed(results, subscriptions, e);
    }

    /** One of ProcessEvent's loops; the set is visited in any order. */
    method Evaluate(ids: set<SubscriptionId>, ghost before: set<SubscriptionId>, e: ChangefeedEvent, sofar: seq<Delivery>)
      returns (results: seq<Delivery>)
      requires Covers(sofar, before, subscriptions, e) && Serves(sofar, before, subscriptions, e) && before !! ids
      requires forall d: Delivery :: d in sofar ==> d.event == e
      ensures Covers(results, before + ids, subscriptions, e) && Serves(results, before + ids, subscriptions, e)
      ensures forall d: Delivery :: d in results ==> d.event == e
    {
      hide MatchesEvent, Hits, Covers, Serves;
      results := sofar;
      var rest := ids;
      assert before + (ids - rest) == before;
      while rest != {}
        invariant rest <= ids
        invariant Covers(results, before + (ids - rest), subscriptions, e)
        invariant Serves(results, before + (ids - rest), subscriptions, e)
        invariant forall d: Delivery :: d in results ==> d.event == e
      {
        var id :| id in rest;
        ghost var done := before + (ids - rest);
        CoversOneMore(results, done, subscriptions, e, id);
        ServesOneMore(results, done, subscriptions, e, id);
        if id in subscriptions && MatchesEvent(subscriptions[id], e) {
          results := results + [DeliveryFor(subscriptions[id], e)];
        }
        rest := rest - {id};
        assert before + (ids - rest) == done + {id};
      }
      assert before + (ids - rest) == before + ids;
    }
  }

  lemma CandidatesCover(
      subs: map<SubscriptionId, SqlSubscription>, tableIndex: map<Blob, set<SubscriptionId>>,
      allTables: set<SubscriptionId>, e: ChangefeedEvent, results: seq<Delivery>)
    requires IndexAgrees(subs, tableIndex, allTables)
    requires Covers(results, (if e.table in tableIndex then tableIndex[e.table] else {}) + allTables, subs, e)
    ensures Covers(results, subs.Keys, subs, e)
  {
    hide IndexAgrees, Hits;
    forall d: Delivery ensures multiset(results)[d] == |Hits(subs.Keys, subs, e, d)| {
      CandidatesSuffice(subs, tableIndex, allTables, e, d);
    }
  }

  /** The delivery is one a live subscription asks for: to its client, with its columns if it names any. */
  ghost predicate Owed(d: Delivery, subs: map<SubscriptionId, SqlSubscription>, e: ChangefeedEvent) {
    exists id :: id in subs && MatchesEvent(subs[id], e) && d.client == subs[id].client
                 && (subs[id].kind == SELECT_COLUMNS ==> d.columns == Some(subs[id].columns))
                 && (subs[id].kind != SELECT_COLUMNS ==> d.columns == None)
  }

  lemma CoveredIsOwed(results: seq<Delivery>, subs: map<SubscriptionId, SqlSubscription>, e: ChangefeedEvent)
    requires Covers(results, subs.Keys, subs, e)
    ensures forall d: Delivery :: d in results ==> Owed(d, subs, e)
  {
    hide MatchesEvent;
    forall d: Delivery | d in results ensures Owed(d, subs, e) {
      assert multiset(results)[d] > 0;
      var hits := Hits(subs.Keys, subs, e, d);
      assert hits != {};
      var id :| id in hits;
      assert DeliveryFor(subs[id], e) == d;
    }
  }

  lemma CandidatesServe(
      subs: map<SubscriptionId, SqlSubscription>, tableIndex: map<Blob, set<SubscriptionId>>,
      allTables: set<SubscriptionId>, e: ChangefeedEvent, results: seq<Delivery>)
    requires IndexAgrees(subs, tableIndex, allTables)
    requires Serves(results, (if e.table in tableIndex then tableIndex[e.table] else {}) + allTables, subs, e)
    ensures Serves(results, subs.Keys, subs, e)
  {
    hide IndexAgrees, CountFor;
    var candidates := (if e.table in tableIndex then tableIndex[e.table] else {}) + allTables;
    forall c: Blob ensures CountFor(results, c) == |Matched(subs.Keys, subs, e, c)| {
      forall id | id in Matched(subs.Keys, subs, e, c) ensures id in candidates {
        CandidatesSuffice(subs, tableIndex, allTables, e, DeliveryFor(subs[id], e));
        assert id in Hits(subs.Keys, subs, e, DeliveryFor(subs[id], e));
      }
      assert Matched(candidates, subs, e, c) == Matched(subs.Keys, subs, e, c);
    }
  }

  /** So a client gets one delivery for each entry of its own list that matches, and strangers get none. */
  lemma ServedFromOwnList(
      subs: map<SubscriptionId, SqlSubscription>, clients: map<Blob, seq<SubscriptionId>>,
      e: ChangefeedEvent, results: seq<Delivery>, client: Blob)
    requires ClientsAgree(subs, clients) && Serves(results, subs.Keys, subs, e)
    ensures client in clients ==>
              CountFor(results, client) == |set i: nat | i < |clients[client]| && MatchesAt(subs, clients[client], i, e)|
    ensures client !in clients ==> CountFor(results, client) == 0
  {
    hide MatchesEvent, CountFor;
    var matched := Matched(subs.Keys, subs, e, client);
    if client in clients {
      var ids := clients[client];
      assert Listed(subs, client, ids);
      var places := set i: nat | i < |ids| && MatchesAt(subs, ids, i, e);
      assert matched == Pick(ids, places) by {
        forall id | id in matched ensures id in Pick(ids, places) {
          var i :| 0 <= i < |ids| && ids[i] == id;
          assert i in places;
        }
      }
      PicksAreDistinct(ids, places);
    } else {
      assert matched == {};
    }
  }

  predicate MatchesAt(
      subs: map<SubscriptionId, SqlSubscription>, ids: seq<SubscriptionId>, i: nat, e: ChangefeedEvent)
    requires i < |ids|
  {
    ids[i] in subs && MatchesEvent(subs[ids[i]], e)
  }

  function Pick(ids: seq<SubscriptionId>, places: set<nat>): set<SubscriptionId>
    requires forall i :: i in places ==> i < |ids|
  {
    set i | i in places :: ids[i]
  }

  /** Distinct places of a list without duplicates hold distinct ids. */
  lemma {:induction false} PicksAreDistinct(ids: seq<SubscriptionId>, places: set<nat>)
    requires Distinct(ids) && forall i :: i in places ==> i < |ids|
    ensures |Pick(ids, places)| == |places|
    decreases |places|
  {
    if places != {} {
      var i :| i in places;
      PicksAreDistinct(ids, places - {i});
      assert Pick(ids, places) == Pick(ids, places - {i}) + {ids[i]};
    }
  }

  lemma EnterKeepsClients(
      subs: map<SubscriptionId, SqlSubscription>, clients: map<Blob, seq<SubscriptionId>>,
      id: SubscriptionId, s: SqlSubscription)
    requires ClientsAgree(subs, clients) && id !in subs
    ensures ClientsAgree(subs[id := s],
                         clients[s.client := (if s.client in clients then clients[s.client] else []) + [id]])
  {
    var ids := if s.client in clients then clients[s.client] else [];
    var subs' := subs[id := s];
    var clients' := clients[s.client := ids + [id]];
    assert id in clients'[s.client] by { assert (ids + [id])[|ids|] == id; }
    assert Listed(subs', s.client, ids + [id]) by {
      if s.client in clients { assert Listed(subs, s.client, ids); }
    }
    forall c | c in clients' && c != s.client ensures Listed(subs', c, clients'[c]) {
      assert Listed(subs, c, clients[c]);
    }
  }

  lemma LeaveKeepsClients(
      subs: map<SubscriptionId, SqlSubscription>, clients: map<Blob, seq<SubscriptionId>>, id: SubscriptionId)
    requires ClientsAgree(subs, clients) && id in subs
    ensures var client := subs[id].client;
            var ids := Without(clients[client], id);
            ClientsAgree(subs - {id}, if ids == [] then clients - {client} else clients[client := ids])
  {
    hide Listed, Without;
    var client := subs[id].client;
    var ids := Without(clients[client], id);
    assert Listed(subs, client, clients[client]);
    ListedWithout(subs, clients[client], id);
    forall c | c in clients && c != client ensures Listed(subs - {id}, c, clients[c]) {
      assert Listed(subs, c, clients[c]);
      ListedElsewhere(subs, c, clients[c], id);
    }
  }

  lemma ListedElsewhere(
      subs: map<SubscriptionId, SqlSubscription>, client: Blob, ids: seq<SubscriptionId>, id: SubscriptionId)
    requires Listed(subs, client, ids) && id in subs && subs[id].client != client
    ensures Listed(subs - {id}, client, ids)
  {
    hide Distinct;
  }

  lemma ListedWithout(subs: map<SubscriptionId, SqlSubscription>, ids: seq<SubscriptionId>, id: SubscriptionId)
    requires id in subs && Listed(subs, subs[id].client, ids)
    ensures Without(ids, id) != [] ==> Listed(subs - {id}, subs[id].client, Without(ids, id))
  {
    hide Distinct;
    WithoutKeepsDistinct(ids, id);
  }

  lemma NoneLeave(
      subs: map<SubscriptionId, SqlSubscription>, clients: map<Blob, seq<SubscriptionId>>, client: Blob)
    requires ClientsAgree(subs, clients) && client !in clients
    ensures Live(subs, client) == subs
  {
  }

  lemma ClientLeaves(
      subs: map<SubscriptionId, SqlSubscription>, clients: map<Blob, seq<SubscriptionId>>, client: Blob)
    requires ClientsAgree(subs, clients) && client in clients
    ensures subs - Members(clients[client]) == Live(subs, client)
    ensures ClientsAgree(Live(subs, client), clients - {client})
  {
    var ids := clients[client];
    assert Listed(subs, client, ids);
    forall c | c in clients && c != client ensures Listed(Live(subs, client), c, clients[c]) {
      assert Listed(subs, c, clients[c]);
    }
  }
}
