/** The `pending_webhook` table: one row per completed check request,
    written by the handler, drained by the scheduled flush. Rows are kept
    in insertion order; the `id` column is the primary key. */
module Outbox {
  import opened Wrappers
  import opened Checker
  import opened Webhook

  /** The stored `results_json`: the batch meta (absent when the stored
      JSON has none) and the results. */
  datatype Payload = Payload(meta: Option<BatchMeta>, results: seq<DomainResult>)

  datatype Row = Row(id: string, createdAt: int, ip: string, payload: Payload, sent: bool)

  predicate HasId(rows: seq<Row>, id: string) {
    exists i :: 0 <= i < |rows| && rows[i].id == id
  }

  /** The primary key holds. */
  predicate UniqueIds(rows: seq<Row>) {
    forall i, j :: 0 <= i < j < |rows| ==> rows[i].id != rows[j].id
  }

  /** Rows were inserted in `created_at` order. */
  predicate Ascending(rows: seq<Row>) {
    forall i, j :: 0 <= i < j < |rows| ==> rows[i].createdAt <= rows[j].createdAt
  }

  /** The INSERT of a new row: it fails when the store fails or the id is taken. */
  function Insert(rows: seq<Row>, row: Row, fails: bool): (rows': seq<Row>)
    ensures rows' == rows + [row] <==> !fails && !HasId(rows, row.id)
    ensures rows' != rows + [row] ==> rows' == rows
    ensures UniqueIds(rows) ==> UniqueIds(rows')
  {
    if fails || HasId(rows, row.id) then rows else rows + [row]
  }

  /** `WHERE sent = 0`, in table order. */
  function Pending(rows: seq<Row>): (p: seq<Row>)
    ensures |p| <= |rows|
    ensures forall i :: 0 <= i < |p| ==> p[i] in rows && !p[i].sent
    decreases |rows|
  {
    if |rows| == 0 then []
    else
      var last := rows[|rows| - 1];
      Pending(rows[..|rows| - 1]) + (if last.sent then [] else [last])
  }

  /** Every unsent row is read. */
  lemma {:induction false} PendingComplete(rows: seq<Row>)
    ensures forall i :: 0 <= i < |rows| && !rows[i].sent ==> rows[i] in Pending(rows)
    decreases |rows|
  {
    if |rows| > 0 {
      PendingComplete(rows[..|rows| - 1]);
      assert forall i :: 0 <= i < |rows| - 1 ==> rows[i] == rows[..|rows| - 1][i];
    }
  }

  /** Rows in insertion order are read oldest first. */
  lemma {:induction false} PendingAscending(rows: seq<Row>)
    requires Ascending(rows)
    ensures Ascending(Pending(rows))
    decreases |rows|
  {
    if |rows| > 0 {
      var init := rows[..|rows| - 1];
      PendingAscending(init);
      forall r | r in Pending(init)
        ensures r.createdAt <= rows[|rows| - 1].createdAt
      {
        var i :| 0 <= i < |init| && init[i] == r;
      }
    }
  }

  function Ids(rows: seq<Row>): set<string> {
    set i | 0 <= i < |rows| :: rows[i].id
  }

  /** `UPDATE ... SET sent = 1 WHERE id IN (...)`. */
  function MarkSent(rows: seq<Row>, ids: set<string>): (rows': seq<Row>)
    ensures |rows'| == |rows|
    ensures forall i :: 0 <= i < |rows| ==>
      rows'[i].(sent := rows[i].sent) == rows[i] && (rows'[i].sent <==> rows[i].sent || rows[i].id in ids)
  {
    seq(|rows|, i requires 0 <= i < |rows| => if rows[i].id in ids then rows[i].(sent := true) else rows[i])
  }

  /** Marking the ids just read leaves nothing pending, and touches no row outside them. */
  lemma {:induction false} MarkingClearsPending(rows: seq<Row>)
    ensures Pending(MarkSent(rows, Ids(Pending(rows)))) == []
    ensures forall i :: 0 <= i < |rows| && rows[i].id !in Ids(Pending(rows)) ==>
      MarkSent(rows, Ids(Pending(rows)))[i] == rows[i]
  {
    var ids := Ids(Pending(rows));
    PendingComplete(rows);
    forall i | 0 <= i < |rows| && !rows[i].sent
      ensures rows[i].id in ids
    {
      var p := Pending(rows);
      var j :| 0 <= j < |p| && p[j] == rows[i];
    }
    AllSentNothingPending(MarkSent(rows, ids));
  }

  lemma {:induction false} AllSentNothingPending(rows: seq<Row>)
    requires forall i :: 0 <= i < |rows| ==> rows[i].sent
    ensures Pending(rows) == []
    decreases |rows|
  {
    if |rows| > 0 {
      AllSentNothingPending(rows[..|rows| - 1]);
    }
  }
}
