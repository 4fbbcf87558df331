// The Report table as the DAO and the report service see it: the stored rows by database
// id, and the order in which queries list them. Lookups by a string column return the ids
// of the matching rows in that order; updates write a row back under its id and deletes
// remove it.

module ReportStore {
  import opened Sequences
  import opened Reports

  /** The row `k` is stored and holds exactly `value` in `column` (a missing column matches
      nothing, as a null does in a query). */
  predicate Holds(rows: map<int, Row>, k: int, column: string, value: string) {
    k in rows && column in rows[k] && rows[k][column] == value
  }

  /** `getByStringField(sheet, column, value)`, and the service lookups by dataset id and
      by sender id: the listed ids whose row holds `value` in `column`, in listing order. */
  function Select(rows: map<int, Row>, order: seq<int>, column: string, value: string): (r: seq<int>)
    ensures IsSubsequence(r, order)
    ensures forall k :: k in r <==> k in order && Holds(rows, k, column, value)
    ensures forall k :: k in r ==> k in rows
  {
    if order == [] then []
    else if Holds(rows, order[0], column, value) then [order[0]] + Select(rows, order[1..], column, value)
    else Select(rows, order[1..], column, value)
  }

  /** `update(row)`: the row is written back under its id; an id that is not stored
      changes nothing. */
  function Updated(rows: map<int, Row>, id: int, row: Row): (r: map<int, Row>)
    ensures r.Keys == rows.Keys
    ensures id in rows ==> r[id] == row
    ensures forall k :: k in rows && k != id ==> r[k] == rows[k]
  {
    if id in rows then rows[id := row] else rows
  }

  /** The listing order once the ids in `gone` are deleted. */
  function Without(order: seq<int>, gone: seq<int>): (r: seq<int>)
    ensures IsSubsequence(r, order)
    ensures forall k :: k in r <==> k in order && k !in gone
  {
    if order == [] then []
    else if order[0] in gone then Without(order[1..], gone)
    else [order[0]] + Without(order[1..], gone)
  }

  /** The stored rows once the ids in `gone` are deleted. */
  function Deleted(rows: map<int, Row>, gone: seq<int>): map<int, Row> {
    map k | k in rows && k !in gone :: rows[k]
  }

  /** Deleting nothing keeps the listing. */
  lemma {:induction false} WithoutNothing(order: seq<int>)
    ensures Without(order, []) == order
  {
    if order != [] {
      WithoutNothing(order[1..]);
    }
  }

  /** Deleting in two steps is deleting the union. */
  lemma {:induction false} WithoutTwice(order: seq<int>, gone: seq<int>, x: int)
    ensures Without(Without(order, gone), [x]) == Without(order, gone + [x])
  {
    if order != [] {
      WithoutTwice(order[1..], gone, x);
      if order[0] !in gone {
        assert ([order[0]] + Without(order[1..], gone))[1..] == Without(order[1..], gone);
      }
    }
  }

  /** The Report table behind the DAO. */
  class ReportDao {
    var rows: map<int, Row>
    var order: seq<int>

    constructor (rows: map<int, Row>, order: seq<int>)
      ensures this.rows == rows && this.order == order
    {
      this.rows := rows;
      this.order := order;
    }

    method Update(id: int, row: Row)
      modifies this
      ensures rows == Updated(old(rows), id, row) && order == old(order)
    {
      if id in rows {
        rows := rows[id := row];
      }
    }

    /** `delete(report)` by database id. */
    method Delete(id: int)
      modifies this
      ensures rows == Deleted(old(rows), [id]) && order == Without(old(order), [id])
    {
      var remaining := map k | k in rows && k != id :: rows[k];
      assert remaining == Deleted(rows, [id]);
      var listed := order;
      var kept: seq<int> := [];
      var i := 0;
      while i < |listed|
        invariant 0 <= i <= |listed|
        invariant kept == Without(listed[..i], [id])
      {
        WithoutSnoc(listed[..i], [id], listed[i]);
        assert listed[..i + 1] == listed[..i] + [listed[i]];
        if listed[i] != id {
          kept := kept + [listed[i]];
        }
        i := i + 1;
      }
      assert listed[..i] == listed;
      rows := remaining;
      order := kept;
    }
  }

  /** `Without` over a sequence that grows at its end. */
  lemma {:induction false} WithoutSnoc(order: seq<int>, gone: seq<int>, x: int)
    ensures Without(order + [x], gone) == Without(order, gone) + (if x in gone then [] else [x])
  {
    if order != [] {
      assert (order + [x])[1..] == order[1..] + [x];
      WithoutSnoc(order[1..], gone, x);
    }
  }
}
