/** Staging of writes in a transaction (src/storage/transaction_impl.cpp). */
module Transactions {
  import opened Wrappers
  import opened Bytes
  import opened RowCodec
  import opened Tables

  datatype TxnState = ACTIVE | COMMITTED | ABORTED

  /** What a staged write makes visible: a row, or nothing for a delete. */
  function Visible(w: Write): Option<Row> {
    if w.op.DELETE_OP? then None else Some(w.row)
  }

  /** What Get answers: the first staged write of the key. */
  function FirstStaged(ws: seq<Write>, table: Blob, key: Blob): Option<Row>
    decreases |ws|
  {
    if ws == [] then None
    else if Touches(ws[0], table, key) then Visible(ws[0])
    else FirstStaged(ws[1..], table, key)
  }

  /** What read-your-writes asks for: the last staged write of the key. */
  function LastStaged(ws: seq<Write>, table: Blob, key: Blob): Option<Row>
    decreases |ws|
  {
    if ws == [] then None
    else if Touches(ws[|ws| - 1], table, key) then Visible(ws[|ws| - 1])
    else LastStaged(ws[..|ws| - 1], table, key)
  }

  lemma {:induction false} LastStagedAt(ws: seq<Write>, table: Blob, key: Blob, i: nat)
    requires i < |ws| && Touches(ws[i], table, key)
    requires forall j :: i < j < |ws| ==> !Touches(ws[j], table, key)
    ensures LastStaged(ws, table, key) == Visible(ws[i])
    decreases |ws|
  {
    if i < |ws| - 1 {
      LastStagedAt(ws[..|ws| - 1], table, key, i);
    }
  }

  lemma {:induction false} FirstStagedAt(ws: seq<Write>, table: Blob, key: Blob, i: nat)
    requires i < |ws| && Touches(ws[i], table, key)
    requires forall j :: 0 <= j < i ==> !Touches(ws[j], table, key)
    ensures FirstStaged(ws, table, key) == Visible(ws[i])
    decreases |ws|
  {
    if i > 0 {
      FirstStagedAt(ws[1..], table, key, i - 1);
    }
  }

  /** Get reads the transaction's own latest write when no key was staged twice. */
  lemma ReadsLatestWhenStagedOnce(ws: seq<Write>, table: Blob, key: Blob, i: nat)
    requires i < |ws| && Touches(ws[i], table, key)
    requires forall j :: 0 <= j < |ws| && j != i ==> !Touches(ws[j], table, key)
    ensures FirstStaged(ws, table, key) == LastStaged(ws, table, key) == Visible(ws[i])
  {
    FirstStagedAt(ws, table, key, i);
    LastStagedAt(ws, table, key, i);
  }

  /**
   With i the first and j the last staged write of a key, Get answers the latest exactly when the two
   make the same row visible.
   */
  lemma ReadsLatestIff(ws: seq<Write>, table: Blob, key: Blob, i: nat, j: nat)
    requires i <= j < |ws| && Touches(ws[i], table, key) && Touches(ws[j], table, key)
    requires forall n :: 0 <= n < |ws| && (n < i || j < n) ==> !Touches(ws[n], table, key)
    ensures FirstStaged(ws, table, key) == LastStaged(ws, table, key) <==> Visible(ws[i]) == Visible(ws[j])
  {
    FirstStagedAt(ws, table, key, i);
    LastStagedAt(ws, table, key, j);
  }

  /** A transaction reads the row of the first write it stages for a key, and nothing if that is a delete. */
  lemma OwnWriteVisible(ws: seq<Write>, w: Write)
    requires forall i :: 0 <= i < |ws| ==> !Touches(ws[i], w.table, w.row.key)
    ensures FirstStaged(ws, w.table, w.row.key) == None
    ensures FirstStaged(ws + [w], w.table, w.row.key) == match w.op
                                                         case DELETE_OP => None
                                                         case _ => Some(w.row)
  {
    NeverStaged(ws, w.table, w.row.key);
    FirstStagedAt(ws + [w], w.table, w.row.key, |ws|);
  }

  lemma {:induction false} NeverStaged(ws: seq<Write>, table: Blob, key: Blob)
    requires forall i :: 0 <= i < |ws| ==> !Touches(ws[i], table, key)
    ensures FirstStaged(ws, table, key) == None
    decreases |ws|
  {
    if ws != [] {
      NeverStaged(ws[1..], table, key);
    }
  }

  /** Staging a second write of a key leaves Get with the first: it misses exactly the change, if there is one. */
  lemma SecondWriteUnread(ws: seq<Write>, w: Write, i: nat)
    requires i < |ws| && Touches(ws[i], w.table, w.row.key)
    requires forall j :: 0 <= j < i ==> !Touches(ws[j], w.table, w.row.key)
    ensures FirstStaged(ws + [w], w.table, w.row.key) == Visible(ws[i])
    ensures LastStaged(ws + [w], w.table, w.row.key) == Visible(w)
  {
    FirstStagedAt(ws + [w], w.table, w.row.key, i);
    LastStagedAt(ws + [w], w.table, w.row.key, |ws|);
  }

  class Transaction {
    const timestamp: uint64
    var state: TxnState
    var writeSet: seq<Write>

    constructor (timestamp: uint64)
      ensures this.timestamp == timestamp && state == ACTIVE && writeSet == []
    {
      this.timestamp, state, writeSet := timestamp, ACTIVE, [];
    }

    method Insert(table: Blob, row: Row) returns (ok: bool)
      modifies this`writeSet
      ensures ok <==> state == ACTIVE
      ensures writeSet == if ok then old(writeSet) + [Write(INSERT_OP, table, row)] else old(writeSet)
    {
      if state != ACTIVE {
        return false;
      }
      writeSet := writeSet + [Write(INSERT_OP, table, row)];
      return true;
    }

    /** The staged row carries the key it was asked to update, whatever key the row had. */
    method Update(table: Blob, key: Blob, row: Row) returns (ok: bool)
      modifies this`writeSet
      ensures ok <==> state == ACTIVE
      ensures writeSet == if ok then old(writeSet) + [Write(UPDATE_OP, table, row.(key := key))] else old(writeSet)
    {
      if state != ACTIVE {
        return false;
      }
      writeSet := writeSet + [Write(UPDATE_OP, table, row.(key := key))];
      return true;
    }

    method Delete(table: Blob, key: Blob) returns (ok: bool)
      modifies this`writeSet
      ensures ok <==> state == ACTIVE
      ensures writeSet == if ok then old(writeSet) + [Write(DELETE_OP, table, Row(key, map[]))] else old(writeSet)
    {
      if state != ACTIVE {
        return false;
      }
      writeSet := writeSet + [Write(DELETE_OP, table, Row(key, map[]))];
      return true;
    }

    method Get(table: Blob, key: Blob) returns (row: Option<Row>)
      ensures row == if state == ACTIVE then FirstStaged(writeSet, table, key) else None
    {
      if state != ACTIVE {
        return None;
      }
      var i := 0;
      while i < |writeSet|
        invariant 0 <= i <= |writeSet|
        invariant FirstStaged(writeSet, table, key) == FirstStaged(writeSet[i..], table, key)
      {
        assert writeSet[i..][1..] == writeSet[i + 1..];
        var write := writeSet[i];
        if write.table == table && write.row.key == key {
          return if write.op.DELETE_OP? then None else Some(write.row);
        }
        i := i + 1;
      }
      return None;
    }
  }
}
