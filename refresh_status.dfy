// Refreshing the status of a report from the DCF. A report that is part of an aggregation
// is refreshed through its aggregator: the aggregator's new status is propagated to every
// report linked to it, and once that status is final the links are cleared and every
// version of the aggregator is deleted.

module RefreshStatus {
  import opened Wrappers
  import opened Reports
  import opened ReportStore

  /** What the DCF answers to a refresh: the dataset's status code, when one came back,
      and the message shown to the user. The report service records that status on the
      report with `setRCLStatus` and writes the report back. */
  datatype Refreshed = Refreshed(status: Option<string>, message: string)

  /** `reportService.refreshStatus(report)`, the remote part. */
  type Remote = Row -> Refreshed

  // ---------------------------------------------------------------- version order

  /** `a.compareTo(b) < 0` on two version strings: lexicographic order on characters, a
      proper prefix coming first. */
  predicate VersionLess(a: string, b: string) {
    if b == [] then false
    else if a == [] then true
    else if a[0] != b[0] then a[0] < b[0]
    else VersionLess(a[1..], b[1..])
  }

  lemma {:induction false} VersionLessTransitive(a: string, b: string, c: string)
    requires VersionLess(a, b) && VersionLess(b, c)
    ensures VersionLess(a, c)
  {
    if a != [] && b != [] && c != [] && a[0] == b[0] && b[0] == c[0] {
      VersionLessTransitive(a[1..], b[1..], c[1..]);
    }
  }

  lemma {:induction false} VersionLessTotal(a: string, b: string)
    ensures a == b || VersionLess(a, b) || VersionLess(b, a)
    ensures !(VersionLess(a, b) && VersionLess(b, a))
  {
    if a != [] && b != [] && a[0] == b[0] {
      VersionLessTotal(a[1..], b[1..]);
      assert a == [a[0]] + a[1..] && b == [b[0]] + b[1..];
    }
  }

  function VersionOf(rows: map<int, Row>, k: int): string
    requires k in rows
  {
    Code(rows[k], VersionColumn)
  }

  /** `max(Comparator.comparing(Report::getVersion))` over the listed reports: a report
      whose version no other exceeds, the first such in listing order. */
  function MaxByVersion(rows: map<int, Row>, keys: seq<int>): (r: int)
    requires keys != [] && forall k :: k in keys ==> k in rows
    ensures r in keys
    ensures forall k :: k in keys ==> !VersionLess(VersionOf(rows, r), VersionOf(rows, k))
    ensures exists i ::
      0 <= i < |keys| && keys[i] == r &&
      forall j :: 0 <= j < i ==> VersionLess(VersionOf(rows, keys[j]), VersionOf(rows, r))
  {
    if |keys| == 1 then
      VersionLessTotal(VersionOf(rows, keys[0]), VersionOf(rows, keys[0]));
      keys[0]
    else
      var init := keys[..|keys| - 1];
      var last := keys[|keys| - 1];
      assert forall k :: k in init ==> k in keys;
      var m := MaxByVersion(rows, init);
      if VersionLess(VersionOf(rows, m), VersionOf(rows, last)) then
        MaxOfLonger(rows, keys, m, last);
        last
      else
        MaxStays(rows, keys, init, m, last);
        m
  }

  /** The step of `MaxByVersion` where the maximum so far stays ahead of the last report. */
  lemma MaxStays(rows: map<int, Row>, keys: seq<int>, init: seq<int>, m: int, last: int)
    requires |keys| > 1 && forall k :: k in keys ==> k in rows
    requires init == keys[..|keys| - 1] && last == keys[|keys| - 1]
    requires m in init
    requires forall k :: k in init ==> !VersionLess(VersionOf(rows, m), VersionOf(rows, k))
    requires exists i ::
      0 <= i < |init| && init[i] == m &&
      forall j :: 0 <= j < i ==> VersionLess(VersionOf(rows, init[j]), VersionOf(rows, m))
    requires !VersionLess(VersionOf(rows, m), VersionOf(rows, last))
    ensures forall k :: k in keys ==> !VersionLess(VersionOf(rows, m), VersionOf(rows, k))
    ensures exists i ::
      0 <= i < |keys| && keys[i] == m &&
      forall j :: 0 <= j < i ==> VersionLess(VersionOf(rows, keys[j]), VersionOf(rows, m))
  {
    assert forall k :: k in keys ==> k in init || k == last;
    var i :| 0 <= i < |init| && init[i] == m &&
      forall j :: 0 <= j < i ==> VersionLess(VersionOf(rows, init[j]), VersionOf(rows, m));
    assert keys[i] == m;
    assert forall j :: 0 <= j < i ==> keys[j] == init[j];
  }

  /** The step of `MaxByVersion` where the last report overtakes the maximum so far. */
  lemma MaxOfLonger(rows: map<int, Row>, keys: seq<int>, m: int, last: int)
    requires |keys| > 1 && forall k :: k in keys ==> k in rows
    requires last == keys[|keys| - 1]
    requires m in keys
    requires forall k :: k in keys[..|keys| - 1] ==> !VersionLess(VersionOf(rows, m), VersionOf(rows, k))
    requires VersionLess(VersionOf(rows, m), VersionOf(rows, last))
    ensures forall k :: k in keys ==> !VersionLess(VersionOf(rows, last), VersionOf(rows, k))
    ensures forall j :: 0 <= j < |keys| - 1 ==> VersionLess(VersionOf(rows, keys[j]), VersionOf(rows, last))
  {
    forall j | 0 <= j < |keys| - 1
      ensures VersionLess(VersionOf(rows, keys[j]), VersionOf(rows, last))
    {
      var k := keys[j];
      assert k in keys[..|keys| - 1];
      VersionLessTotal(VersionOf(rows, m), VersionOf(rows, k));
      if VersionOf(rows, k) != VersionOf(rows, m) {
        VersionLessTransitive(VersionOf(rows, k), VersionOf(rows, m), VersionOf(rows, last));
      }
    }
    forall k | k in keys
      ensures !VersionLess(VersionOf(rows, last), VersionOf(rows, k))
    {
      var j :| 0 <= j < |keys| && keys[j] == k;
      if j < |keys| - 1 {
        VersionLessTotal(VersionOf(rows, k), VersionOf(rows, last));
      } else {
        VersionLessTotal(VersionOf(rows, last), VersionOf(rows, last));
      }
    }
  }

  // ---------------------------------------------------------------- the refresh

  /** The aggregator of `report`: among the listed reports whose dataset id is the
      report's aggregator id, the one with the highest version; none when the report is
      not aggregated or no such report is listed. */
  function AggregatorOf(rows: map<int, Row>, order: seq<int>, report: Row): (r: Option<int>)
    ensures r.Some? ==>
      (IsAggregated(report) && Holds(rows, r.value, DatasetIdColumn, AggregatorId(report).value) && r.value in order)
    ensures r.Some? ==> forall k :: k in order && Holds(rows, k, DatasetIdColumn, AggregatorId(report).value) ==>
      !VersionLess(VersionOf(rows, r.value), VersionOf(rows, k))
    ensures r.None? ==>
      (!IsAggregated(report) || forall k :: k in order ==> !Holds(rows, k, DatasetIdColumn, AggregatorId(report).value))
  {
    if !IsAggregated(report) then None
    else
      var candidates := Select(rows, order, DatasetIdColumn, AggregatorId(report).value);
      if candidates == [] then None else Some(MaxByVersion(rows, candidates))
  }

  /** The row as the refresh leaves it: the status the DCF answered, recorded through
      `setRCLStatus`; unchanged when no status came back. */
  function AfterRefresh(row: Row, st: Statuses, remote: Remote): Row {
    var answer := remote(row);
    if answer.status.Some? then WithStatus(row, st, answer.status.value) else row
  }

  /** A linked report once the aggregator's status reaches it: it takes that status and,
      when the status is final, loses its link to the aggregator. */
  function Linked(row: Row, st: Statuses, status: string): Row {
    var r := WithStatus(row, st, status);
    if st.isFinalized(status) then WithAggregatorId(r, None) else r
  }

  /** The rows once every report of `children` has taken the aggregator's status. */
  function Propagated(rows: map<int, Row>, children: seq<int>, st: Statuses, status: string): map<int, Row> {
    map k | k in rows :: if k in children then Linked(rows[k], st, status) else rows[k]
  }

  datatype Outcome = Outcome(rows: map<int, Row>, order: seq<int>, message: string)

  /** `refreshAggregatedReport` once the aggregator `ak` is found. */
  function RefreshThrough(rows: map<int, Row>, order: seq<int>, ak: int, st: Statuses, remote: Remote): Outcome
    requires ak in rows
  {
    var aggr := AfterRefresh(rows[ak], st, remote);
    var rows1 := Updated(rows, ak, aggr);
    var status := RclStatus(aggr, st);
    var children := Select(rows1, order, AggregatorIdColumn, Code(aggr, DatasetIdColumn));
    var rows2 := Propagated(rows1, children, st, status);
    if st.isFinalized(status) then
      var versions := Select(rows2, order, SenderIdColumn, Code(aggr, SenderIdColumn));
      Outcome(Deleted(rows2, versions), Without(order, versions), remote(rows[ak]).message)
    else
      Outcome(rows2, order, remote(rows[ak]).message)
  }

  /** `run()`: the effect on the Report table and the message returned. */
  function RunSpec(rows: map<int, Row>, order: seq<int>, id: int, report: Row, st: Statuses, remote: Remote): Outcome {
    match AggregatorOf(rows, order, report)
    case None => Outcome(Updated(rows, id, AfterRefresh(report, st, remote)), order, remote(report).message)
    case Some(ak) => RefreshThrough(rows, order, ak, st, remote)
  }

  // ---------------------------------------------------------------- properties

  /** A report that is not aggregated, or whose aggregator is not listed, is refreshed
      directly: only its own row changes, and the message is its own refresh's. */
  lemma DirectRefreshTouchesOnlyTheReport(rows: map<int, Row>, order: seq<int>, id: int, report: Row,
                                          st: Statuses, remote: Remote)
    requires !IsAggregated(report) ||
      forall k :: k in order ==> !Holds(rows, k, DatasetIdColumn, AggregatorId(report).value)
    ensures var o := RunSpec(rows, order, id, report, st, remote);
      o.order == order && o.rows.Keys == rows.Keys && o.message == remote(report).message &&
      (forall k :: k in rows && k != id ==> o.rows[k] == rows[k]) &&
      (id in rows ==> o.rows[id] == AfterRefresh(report, st, remote))
  {
    if IsAggregated(report) {
      var candidates := Select(rows, order, DatasetIdColumn, AggregatorId(report).value);
      if candidates != [] {
        assert candidates[0] in candidates;
      }
    }
  }

  /** Through an aggregator: every report linked to it takes its refreshed status and keeps
      its old status as the previous one; a final status also clears the link; reports
      that are not linked and not deleted keep their row. */
  lemma LinkedReportsTakeTheStatus(rows: map<int, Row>, order: seq<int>, ak: int, st: Statuses,
                                   remote: Remote, k: int)
    requires ak in rows && k in order && k in RefreshThrough(rows, order, ak, st, remote).rows
    ensures var aggr := AfterRefresh(rows[ak], st, remote);
      var rows1 := Updated(rows, ak, aggr);
      var status := RclStatus(aggr, st);
      var o := RefreshThrough(rows, order, ak, st, remote);
      if Holds(rows1, k, AggregatorIdColumn, Code(aggr, DatasetIdColumn)) then
        Code(o.rows[k], StatusColumn) == status &&
        Code(o.rows[k], PreviousStatusColumn) == RclStatus(rows1[k], st) &&
        (st.isFinalized(status) ==> !IsAggregated(o.rows[k])) &&
        (!st.isFinalized(status) ==> AggregatorId(o.rows[k]) == AggregatorId(rows1[k]))
      else
        o.rows[k] == rows1[k]
  {
    var aggr := AfterRefresh(rows[ak], st, remote);
    var rows1 := Updated(rows, ak, aggr);
    var status := RclStatus(aggr, st);
    if Holds(rows1, k, AggregatorIdColumn, Code(aggr, DatasetIdColumn)) && st.isFinalized(status) {
      AggregatorIdRoundTrip(WithStatus(rows1[k], st, status), None);
    }
  }

  /** A final status deletes exactly the listed reports that share the aggregator's
      sender id, its own versions among them; any other status deletes nothing. */
  lemma FinalStatusDeletesTheVersions(rows: map<int, Row>, order: seq<int>, ak: int, st: Statuses,
                                      remote: Remote)
    requires ak in rows
    ensures var aggr := AfterRefresh(rows[ak], st, remote);
      var o := RefreshThrough(rows, order, ak, st, remote);
      if st.isFinalized(RclStatus(aggr, st)) then
        forall k :: k in o.rows <==>
          k in rows && !(k in order && Holds(rows, k, SenderIdColumn, Code(rows[ak], SenderIdColumn)))
      else
        o.rows.Keys == rows.Keys && o.order == order
  {
    var aggr := AfterRefresh(rows[ak], st, remote);
    var rows1 := Updated(rows, ak, aggr);
    var status := RclStatus(aggr, st);
    var children := Select(rows1, order, AggregatorIdColumn, Code(aggr, DatasetIdColumn));
    var rows2 := Propagated(rows1, children, st, status);
    assert Code(aggr, SenderIdColumn) == Code(rows[ak], SenderIdColumn);
    forall k | k in rows
      ensures (SenderIdColumn in rows2[k] <==> SenderIdColumn in rows[k]) &&
        (SenderIdColumn in rows[k] ==> rows2[k][SenderIdColumn] == rows[k][SenderIdColumn])
    {
    }
  }

  // ---------------------------------------------------------------- the thread

  /** The thread refreshing one report; `result` is the message of its refresh. */
  class RefreshStatusThread {
    const id: int
    const report: Row
    const dao: ReportDao
    var result: Option<string>

    constructor (id: int, report: Row, dao: ReportDao)
      ensures this.id == id && this.report == report && this.dao == dao && result.None?
    {
      this.id := id;
      this.report := report;
      this.dao := dao;
      result := None;
    }

    /** `reportService.refreshStatus(r)` for the report stored under `k`. */
    method RefreshReport(k: int, row: Row, st: Statuses, remote: Remote) returns (message: string)
      modifies dao
      ensures dao.rows == Updated(old(dao.rows), k, AfterRefresh(row, st, remote))
      ensures dao.order == old(dao.order)
      ensures message == remote(row).message
    {
      var answer := remote(row);
      if answer.status.Some? {
        dao.Update(k, WithStatus(row, st, answer.status.value));
      } else {
        dao.Update(k, row);
        assert Updated(old(dao.rows), k, row) == Updated(old(dao.rows), k, AfterRefresh(row, st, remote));
      }
      message := answer.message;
    }

    method Run(st: Statuses, remote: Remote)
      modifies this, dao
      ensures var o := RunSpec(old(dao.rows), old(dao.order), id, report, st, remote);
        dao.rows == o.rows && dao.order == o.order && result == Some(o.message)
    {
      var message: string;
      var aggregator := AggregatorOf(dao.rows, dao.order, report);
      if aggregator.None? {
        message := RefreshReport(id, report, st, remote);
      } else {
        message := RefreshAggregatedReport(aggregator.value, st, remote);
      }
      result := Some(message);
    }

    /** `refreshAggregatedReport` once the aggregator is found. */
    method RefreshAggregatedReport(ak: int, st: Statuses, remote: Remote) returns (message: string)
      requires ak in dao.rows
      modifies dao
      ensures var o := RefreshThrough(old(dao.rows), old(dao.order), ak, st, remote);
        dao.rows == o.rows && dao.order == o.order && message == o.message
    {
      var aggr := dao.rows[ak];
      message := RefreshReport(ak, aggr, st, remote);
      aggr := AfterRefresh(aggr, st, remote);
      var status := RclStatus(aggr, st);

      var children := Select(dao.rows, dao.order, AggregatorIdColumn, Code(aggr, DatasetIdColumn));
      Propagate(children, st, status);
      if st.isFinalized(status) {
        var versions := Select(dao.rows, dao.order, SenderIdColumn, Code(aggr, SenderIdColumn));
        DeleteAll(versions);
      }
    }

    /** The first `forEach`: each fetched linked report takes the status and is updated. */
    method Propagate(children: seq<int>, st: Statuses, status: string)
      requires forall k :: k in children ==> k in dao.rows
      modifies dao
      ensures dao.rows == Propagated(old(dao.rows), children, st, status)
      ensures dao.order == old(dao.order)
    {
      var fetched := dao.rows;
      for i := 0 to |children|
        invariant forall k :: k in children ==> k in fetched
        invariant dao.rows == Propagated(fetched, children[..i], st, status)
        invariant dao.order == old(dao.order)
      {
        assert children[i] in children;
        var rep := fetched[children[i]];
        dao.Update(children[i], Linked(rep, st, status));
        assert dao.rows == Propagated(fetched, children[..i + 1], st, status);
      }
      assert children[..|children|] == children;
    }

    /** The second `forEach`: each fetched version is deleted. */
    method DeleteAll(versions: seq<int>)
      modifies dao
      ensures dao.rows == Deleted(old(dao.rows), versions)
      ensures dao.order == Without(old(dao.order), versions)
    {
      var remaining := dao.rows;
      WithoutNothing(dao.order);
      for i := 0 to |versions|
        invariant dao.rows == Deleted(remaining, versions[..i])
        invariant dao.order == Without(old(dao.order), versions[..i])
      {
        WithoutTwice(old(dao.order), versions[..i], versions[i]);
        assert versions[..i + 1] == versions[..i] + [versions[i]];
        dao.Delete(versions[i]);
        assert dao.rows == Deleted(remaining, versions[..i + 1]);
      }
      assert versions[..|versions|] == versions;
    }
  }
}
