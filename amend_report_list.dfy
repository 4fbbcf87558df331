// The list of amended monthly reports of one data collection, and the actions on it: the
// reports are sent together (through an aggregated report when there are several),
// submitted together, and take the status of the report that was sent or submitted.

module AmendReportList {
  import opened Wrappers
  import opened JavaStrings
  import opened ReportTypes
  import opened Reports
  import opened ReportStore
  import opened ReportFilters
  import opened RefreshStatus
  import opened Sequences

  /** A report as the service lists it: its database id and its row. */
  type Listed = (int, Row)

  function RowOf(p: Listed): Row {
    p.1
  }

  /** `reportService.getAllReports()`: the stored reports in listing order. */
  function AllReports(rows: map<int, Row>, order: seq<int>): (r: seq<Listed>)
    ensures forall p :: p in r <==> p.0 in order && p.0 in rows && p.1 == rows[p.0]
  {
    if order == [] then []
    else if order[0] in rows then [(order[0], rows[order[0]])] + AllReports(rows, order[1..])
    else AllReports(rows, order[1..])
  }

  /** The ids of the listing of a non-empty order, from those of the rest of the order. */
  lemma AllReportsIds(rows: map<int, Row>, order: seq<int>)
    requires order != []
    ensures Ids(AllReports(rows, order)) ==
      (if order[0] in rows then [order[0]] else []) + Ids(AllReports(rows, order[1..]))
  {
    var rest := AllReports(rows, order[1..]);
    if order[0] in rows {
      var r := [(order[0], rows[order[0]])] + rest;
      assert Ids(r) == [order[0]] + Ids(rest);
    }
  }

  /** The listing follows the order of the store: its ids are ids of `order`, in that order. */
  lemma {:induction false} AllReportsFollowsTheOrder(rows: map<int, Row>, order: seq<int>)
    ensures IsSubsequence(Ids(AllReports(rows, order)), order)
  {
    if order != [] {
      AllReportsIds(rows, order);
      AllReportsFollowsTheOrder(rows, order[1..]);
      var ids := Ids(AllReports(rows, order[1..]));
      if order[0] in rows {
        assert ([order[0]] + ids)[1..] == ids;
      }
    }
  }

  /** The count of ids one step of the listing adds. */
  lemma CountStep(rows: map<int, Row>, order: seq<int>, listed: multiset<int>, rest: multiset<int>)
    requires order != []
    requires listed == (if order[0] in rows then multiset{order[0]} else multiset{}) + rest
    requires forall k :: rest[k] == if k in rows then multiset(order[1..])[k] else 0
    ensures forall k :: listed[k] == if k in rows then multiset(order)[k] else 0
  {
    assert order == [order[0]] + order[1..];
    assert multiset(order) == multiset{order[0]} + multiset(order[1..]);
  }

  /** Every stored id of `order` is listed as often as `order` holds it, and no other id. */
  lemma {:induction false} AllReportsCountsTheOrder(rows: map<int, Row>, order: seq<int>)
    ensures forall k :: multiset(Ids(AllReports(rows, order)))[k] == if k in rows then multiset(order)[k] else 0
  {
    if order != [] {
      AllReportsIds(rows, order);
      AllReportsCountsTheOrder(rows, order[1..]);
      var head := if order[0] in rows then [order[0]] else [];
      assert multiset(head) == if order[0] in rows then multiset{order[0]} else multiset{};
      CountStep(rows, order, multiset(Ids(AllReports(rows, order))), multiset(Ids(AllReports(rows, order[1..]))));
    }
  }

  predicate NotFinalized(row: Row, st: Statuses) {
    !st.isFinalized(RclStatus(row, st))
  }

  // ---------------------------------------------------------------- loading the list

  /** The filters before the version: a COLLECTION_AGGREGATION report of `dcCode`. */
  predicate AggregatorCandidate(p: Listed, dcCode: string) {
    TypeOf(p.1) == CollectionAggregation && Code(p.1, DcCodeColumn) == dcCode
  }

  /** An aggregator candidate with a version above 0 that is not finalized. */
  predicate IsAggregatorFor(p: Listed, dcCode: string, st: Statuses) {
    AggregatorCandidate(p, dcCode) && PositiveVersion(p.1) && NotFinalized(p.1, st)
  }

  /** The aggregator of the data collection: the first listed COLLECTION_AGGREGATION report
      of `dcCode` with a version above 0 that is not finalized. */
  function FindAggregator(all: seq<Listed>, dcCode: string, st: Statuses): (r: Result<Option<Listed>, StreamError>)
    ensures r.Success? && r.value.Some? ==>
      var a := r.value.value;
      a in all && TypeOf(a.1) == CollectionAggregation && Code(a.1, DcCodeColumn) == dcCode &&
      PositiveVersion(a.1) && NotFinalized(a.1, st)
    ensures r.Success? && r.value.Some? ==>
      exists i :: 0 <= i < |all| && all[i] == r.value.value &&
        forall j :: 0 <= j < i ==> !IsAggregatorFor(all[j], dcCode, st)
    ensures r.Success? && r.value.None? ==> forall p :: p in all ==>
      !(TypeOf(p.1) == CollectionAggregation && Code(p.1, DcCodeColumn) == dcCode &&
        PositiveVersion(p.1) && NotFinalized(p.1, st))
    ensures r.Failure? <==>
      exists i :: 0 <= i < |all| && AggregatorCandidate(all[i], dcCode) && UnreadableVersion(all[i].1) &&
        forall j :: 0 <= j < i ==> !IsAggregatorFor(all[j], dcCode, st)
  {
    var pre := (p: Listed) => AggregatorCandidate(p, dcCode);
    var post := (p: Listed) => NotFinalized(p.1, st);
    FindFirstFails(all, RowOf, pre, post);
    FindFirst(all, RowOf, pre, post)
  }

  /** The filters before the version: a visible report of `dcCode` whose aggregator id is the
      aggregator's database id. */
  predicate LinkCandidate(p: Listed, aggr: Listed, dcCode: string) {
    IsAggregated(p.1) && IsVisible(p.1) && AggregatorId(p.1) == Some(IntToString(aggr.0)) &&
    Code(p.1, DcCodeColumn) == dcCode
  }

  /** The reports linked to the aggregator: the visible reports whose aggregator id is the
      aggregator's database id, of `dcCode`, with a version above 0 and not finalized. */
  function LinkedReports(all: seq<Listed>, aggr: Listed, dcCode: string, st: Statuses): (r: Result<seq<Listed>, StreamError>)
    ensures r.Failure? <==> exists p :: p in all && LinkCandidate(p, aggr, dcCode) && UnreadableVersion(p.1)
    ensures r.Success? ==> forall p :: p in r.value <==>
      p in all && IsVisible(p.1) && AggregatorId(p.1) == Some(IntToString(aggr.0)) &&
      Code(p.1, DcCodeColumn) == dcCode && PositiveVersion(p.1) && NotFinalized(p.1, st)
    ensures r.Success? ==> forall p ::
      multiset(r.value)[p] ==
        if LinkCandidate(p, aggr, dcCode) && PositiveVersion(p.1) && NotFinalized(p.1, st)
        then multiset(all)[p] else 0
  {
    var pre := (p: Listed) => LinkCandidate(p, aggr, dcCode);
    var post := (p: Listed) => NotFinalized(p.1, st);
    CollectCount(all, RowOf, pre, post);
    Collect(all, RowOf, pre, post)
  }

  /** Without an aggregator: the reports of `dcCode` with a version above 0 that are
      neither finalized nor DRAFT. */
  function AmendedReports(all: seq<Listed>, dcCode: string, st: Statuses): (r: Result<seq<Listed>, StreamError>)
    ensures r.Failure? <==> exists p :: p in all && Code(p.1, DcCodeColumn) == dcCode && UnreadableVersion(p.1)
    ensures r.Success? ==> forall p :: p in r.value <==>
      p in all && Code(p.1, DcCodeColumn) == dcCode && PositiveVersion(p.1) && NotFinalized(p.1, st) &&
      RclStatus(p.1, st) != st.draft
    ensures r.Success? ==> forall p ::
      multiset(r.value)[p] ==
        if Code(p.1, DcCodeColumn) == dcCode && PositiveVersion(p.1) && NotFinalized(p.1, st) &&
           RclStatus(p.1, st) != st.draft
        then multiset(all)[p] else 0
  {
    var pre := (p: Listed) => Code(p.1, DcCodeColumn) == dcCode;
    var post := (p: Listed) => NotFinalized(p.1, st) && RclStatus(p.1, st) != st.draft;
    CollectCount(all, RowOf, pre, post);
    Collect(all, RowOf, pre, post)
  }

  // ---------------------------------------------------------------- gates

  /** `canAllBeSent()`. */
  predicate CanAllBeSent(reports: seq<Listed>, st: Statuses) {
    reports != [] && forall p :: p in reports ==> RclStatus(p.1, st) == st.locallyValidated
  }

  /** `canAllBeSubmitted()`. */
  predicate CanAllBeSubmitted(reports: seq<Listed>, st: Statuses) {
    reports != [] && forall p :: p in reports ==> st.canBeSubmitted(RclStatus(p.1, st))
  }

  /** `canRefreshStatus()`. */
  predicate CanRefreshStatus(reports: seq<Listed>, st: Statuses) {
    reports != [] && exists p :: p in reports && st.canBeRefreshed(RclStatus(p.1, st))
  }

  /** The report `sendReports()` sends: a new aggregator when several reports are listed,
      otherwise the loaded aggregator, otherwise the first report (an empty list fails on
      `reports.get(0)`). */
  function SendTarget(reports: seq<Listed>, aggregator: Option<Listed>, created: Listed): (r: Option<Listed>)
    ensures |reports| > 1 ==> r == Some(created)
    ensures |reports| <= 1 && aggregator.None? && reports != [] ==> r == Some(reports[0])
    ensures r.None? <==> reports == [] && aggregator.None?
  {
    if |reports| > 1 then Some(created)
    else if aggregator.Some? then aggregator
    else if reports == [] then None
    else Some(reports[0])
  }

  /** The list once the send has given the sent report its new status `after`: when no
      aggregator is sent, the report sent is `reports.get(0)` itself, so the first listed
      report carries that status; otherwise the list is unchanged. */
  function SentList(reports: seq<Listed>, aggregator: Option<Listed>, after: Row): (r: seq<Listed>)
    ensures |r| == |reports| && forall i :: 0 <= i < |r| ==> r[i].0 == reports[i].0
    ensures forall i :: 0 < i < |r| ==> r[i] == reports[i]
    ensures |reports| == 1 && aggregator.None? ==> r[0].1 == after
    ensures |reports| != 1 || aggregator.Some? ==> r == reports
  {
    if |reports| == 1 && aggregator.None? then [(reports[0].0, after)] else reports
  }

  // ---------------------------------------------------------------- versions of the aggregator

  /** The index of the first listed version whose version string is `v`. */
  function FirstOfVersion(versions: seq<Listed>, v: string): (r: Option<nat>)
    ensures r.Some? ==> r.value < |versions| && Code(versions[r.value].1, VersionColumn) == v
    ensures forall i :: 0 <= i < (if r.Some? then r.value else |versions|) ==>
      Code(versions[i].1, VersionColumn) != v
  {
    if versions == [] then None
    else if Code(versions[0].1, VersionColumn) == v then Some(0)
    else match FirstOfVersion(versions[1..], v)
      case None => None
      case Some(i) => Some(i + 1)
  }

  function Ids(items: seq<Listed>): (r: seq<int>)
    ensures |r| == |items| && forall i :: 0 <= i < |items| ==> r[i] == items[i].0
  {
    seq(|items|, i requires 0 <= i < |items| => items[i].0)
  }

  /** The versions the `peek` of `onSendReportComplete` deletes, as written: the stream
      stops at the first version equal to the sent one, so only the versions listed before
      it are peeked, and deleted. */
  function DroppedAsWritten(versions: seq<Listed>, v: string): seq<int> {
    match FirstOfVersion(versions, v)
    case Some(i) => Ids(versions[..i])
    case None => Ids(versions)
  }

  /** Every other version of the sent aggregator, which is what the deletion is for. */
  function Dropped(versions: seq<Listed>, v: string): (r: seq<int>)
    ensures forall k :: k in r <==> exists p :: p in versions && p.0 == k && Code(p.1, VersionColumn) != v
  {
    if versions == [] then []
    else if Code(versions[0].1, VersionColumn) != v then [versions[0].0] + Dropped(versions[1..], v)
    else Dropped(versions[1..], v)
  }

  /** As written, a version listed after the sent one survives: with the sent version
      "01" listed before the old version "00", nothing is deleted. */
  lemma DroppedAsWrittenMissesLaterVersions()
    ensures var versions := [(2, map[VersionColumn := "01"]), (1, map[VersionColumn := "00"])];
      DroppedAsWritten(versions, "01") == [] && Dropped(versions, "01") == [1]
  {
    var versions := [(2, map[VersionColumn := "01"]), (1, map[VersionColumn := "00"])];
    assert Code(versions[0].1, VersionColumn) == "01";
    assert Code(versions[1].1, VersionColumn) == "00";
    assert FirstOfVersion(versions, "01") == Some(0);
    assert Dropped(versions[1..], "01") == [1];
  }

  /** The versions deleted as written are always among those meant to be deleted. */
  lemma DroppedAsWrittenIsPart(versions: seq<Listed>, v: string)
    ensures forall k :: k in DroppedAsWritten(versions, v) ==> k in Dropped(versions, v)
  {
    var i := FirstOfVersion(versions, v);
    var n := if i.Some? then i.value else |versions|;
    var d := DroppedAsWritten(versions, v);
    assert versions[..|versions|] == versions;
    assert d == Ids(versions[..n]);
    forall k | k in d ensures k in Dropped(versions, v) {
      var j :| 0 <= j < |d| && d[j] == k;
      assert versions[..n][j] == versions[j];
      assert versions[j] in versions && versions[j].0 == k && Code(versions[j].1, VersionColumn) != v;
    }
  }

  // ---------------------------------------------------------------- writing the list back

  /** What a listed report takes: the sent aggregator's status and its database id as the
      aggregator id, or the submitted report's status. */
  datatype Change = Relink(status: string, aggregatorId: string) | Restatus(status: string)

  function Apply(c: Change, row: Row, st: Statuses): Row {
    match c
    case Relink(status, aggregatorId) => WithAggregatorId(WithStatus(row, st, status), Some(aggregatorId))
    case Restatus(status) => WithStatus(row, st, status)
  }

  /** The change as the lambda the callbacks pass to `forEach`. */
  function Applied(c: Change, st: Statuses): Row -> Row {
    row => Apply(c, row, st)
  }

  /** The listed reports once each has been changed in memory. */
  function Changed(reports: seq<Listed>, f: Row -> Row): seq<Listed> {
    if reports == [] then []
    else
      var last := reports[|reports| - 1];
      Changed(reports[..|reports| - 1], f) + [(last.0, f(last.1))]
  }

  /** The rows once every listed report, changed, has been written back in turn. */
  function WrittenBack(rows: map<int, Row>, reports: seq<Listed>, f: Row -> Row): (r: map<int, Row>)
    ensures r.Keys == rows.Keys
  {
    if reports == [] then rows
    else
      var last := reports[|reports| - 1];
      Updated(WrittenBack(rows, reports[..|reports| - 1], f), last.0, f(last.1))
  }

  /** Each listed report, when its id is listed once, is stored changed; the other rows
      are untouched. */
  lemma {:induction false} WrittenBackChangesTheList(rows: map<int, Row>, reports: seq<Listed>, f: Row -> Row)
    requires forall i, j :: 0 <= i < j < |reports| ==> reports[i].0 != reports[j].0
    ensures forall i :: 0 <= i < |reports| && reports[i].0 in rows ==>
      WrittenBack(rows, reports, f)[reports[i].0] == f(reports[i].1)
    ensures forall k :: k in rows && (forall i :: 0 <= i < |reports| ==> reports[i].0 != k) ==>
      WrittenBack(rows, reports, f)[k] == rows[k]
  {
    if reports != [] {
      var init := reports[..|reports| - 1];
      WrittenBackChangesTheList(rows, init, f);
      assert forall i :: 0 <= i < |init| ==> init[i] == reports[i];
    }
  }

  /** A printed database id is stored as it is. */
  lemma NormalizedId(n: int)
    ensures Normalized(Some(IntToString(n))) == Some(IntToString(n))
  {
    TrimIntToString(n);
    NormalizedTrimmed(IntToString(n));
  }

  /** After a relink, a report reads back the aggregator's status, its own former status
      as the previous one, and the aggregator's database id. */
  lemma RelinkedReport(row: Row, st: Statuses, status: string, aggrId: int)
    ensures var r := Apply(Relink(status, IntToString(aggrId)), row, st);
      Code(r, StatusColumn) == status && Code(r, PreviousStatusColumn) == RclStatus(row, st) &&
      AggregatorId(r) == Some(IntToString(aggrId))
  {
    var id := IntToString(aggrId);
    var w := WithStatus(row, st, status);
    var r := WithAggregatorId(w, Some(id));
    NormalizedId(aggrId);
    AggregatorIdRoundTrip(w, Some(id));
    assert Code(r, StatusColumn) == Code(w, StatusColumn) == status;
    assert Code(r, PreviousStatusColumn) == Code(w, PreviousStatusColumn);
  }

  /** The link the dialog writes is the aggregator's database id, while the refresh looks
      the aggregator up by dataset id: a report linked to the aggregator stored under id 7
      with dataset id "DS1" finds no aggregator when refreshed. */
  lemma LinkageKeysDiffer()
    ensures var st := Statuses(s => s, s => false, s => false, s => false, s => false, "", "");
      var child := Apply(Relink("", IntToString(7)), map[], st);
      IsAggregated(child) && AggregatorOf(map[7 := map[DatasetIdColumn := "DS1"]], [7], child).None?
  {
    var st := Statuses(s => s, s => false, s => false, s => false, s => false, "", "");
    RelinkedReport(map[], st, "", 7);
    assert IntToString(7) == "7";
    assert !Holds(map[7 := map[DatasetIdColumn := "DS1"]], 7, DatasetIdColumn, "7");
  }

  // ---------------------------------------------------------------- after a send and a submit

  /** The store and the failure, if any, that a callback leaves. */
  datatype Stored = Stored(rows: map<int, Row>, order: seq<int>, failure: Option<string>)

  /** `getAllVersions()` of a report: the stored reports that share its sender id. */
  function VersionsOf(rows: map<int, Row>, order: seq<int>, report: Row): seq<Listed> {
    AllReports(rows, Select(rows, order, SenderIdColumn, Code(report, SenderIdColumn)))
  }

  /** What `onSendReportComplete(report)` leaves in the store, with the deletion of every
      other version of a sent aggregator. */
  function SendCompleted(rows: map<int, Row>, order: seq<int>, listed: seq<Listed>, report: Row, st: Statuses): Stored {
    if TypeOf(report) != CollectionAggregation then Stored(rows, order, None)
    else
      var versions := VersionsOf(rows, order, report);
      var v := Code(report, VersionColumn);
      var gone := Dropped(versions, v);
      match FirstOfVersion(versions, v)
      case None => Stored(Deleted(rows, gone), Without(order, gone), Some("NoSuchElementException"))
      case Some(i) =>
        var aggr := versions[i];
        Stored(WrittenBack(Deleted(rows, gone), listed, Applied(Relink(RclStatus(aggr.1, st), IntToString(aggr.0)), st)),
               Without(order, gone), None)
  }

  /** Once an aggregator is sent, the only version of it left is the sent one. */
  lemma SentVersionIsTheOnlyOneLeft(rows: map<int, Row>, order: seq<int>, listed: seq<Listed>, report: Row, st: Statuses)
    requires TypeOf(report) == CollectionAggregation
    ensures var r := SendCompleted(rows, order, listed, report, st);
      forall k :: k in r.order && Holds(rows, k, SenderIdColumn, Code(report, SenderIdColumn)) ==>
        Code(rows[k], VersionColumn) == Code(report, VersionColumn)
  {
    var r := SendCompleted(rows, order, listed, report, st);
    var versions := VersionsOf(rows, order, report);
    var v := Code(report, VersionColumn);
    var gone := Dropped(versions, v);
    assert r.order == Without(order, gone);
    forall k | k in r.order && Holds(rows, k, SenderIdColumn, Code(report, SenderIdColumn))
      ensures Code(rows[k], VersionColumn) == v
    {
      assert k in Select(rows, order, SenderIdColumn, Code(report, SenderIdColumn));
      assert (k, rows[k]) in versions;
    }
  }

  /** Once an aggregator is sent, every listed report still stored carries its status and
      its database id, and keeps its own former status as the previous one. */
  lemma SentAggregatorRelinksTheList(rows: map<int, Row>, order: seq<int>, listed: seq<Listed>, report: Row,
                                     st: Statuses, i: int)
    requires TypeOf(report) == CollectionAggregation
    requires forall a, b :: 0 <= a < b < |listed| ==> listed[a].0 != listed[b].0
    requires 0 <= i < |listed|
    requires SendCompleted(rows, order, listed, report, st).failure.None?
    requires listed[i].0 in SendCompleted(rows, order, listed, report, st).rows
    ensures var row := SendCompleted(rows, order, listed, report, st).rows[listed[i].0];
      exists a :: a in VersionsOf(rows, order, report) && Code(a.1, VersionColumn) == Code(report, VersionColumn) &&
        Code(row, StatusColumn) == RclStatus(a.1, st) && AggregatorId(row) == Some(IntToString(a.0)) &&
        Code(row, PreviousStatusColumn) == RclStatus(listed[i].1, st)
  {
    var versions := VersionsOf(rows, order, report);
    var v := Code(report, VersionColumn);
    var gone := Dropped(versions, v);
    var j := FirstOfVersion(versions, v).value;
    var a := versions[j];
    var c := Relink(RclStatus(a.1, st), IntToString(a.0));
    WrittenBackChangesTheList(Deleted(rows, gone), listed, Applied(c, st));
    RelinkedReport(listed[i].1, st, RclStatus(a.1, st), a.0);
  }

  /** The report `submit()` submits: the aggregator the first report is linked to (looked
      up by database id), or the first report itself. */
  function SubmitTarget(rows: map<int, Row>, first: Listed): (r: Listed)
    ensures r == first || (IsAggregated(first.1) && r.0 in rows && r.1 == rows[r.0] &&
      ParseInt(AggregatorId(first.1).value) == Some(r.0))
    ensures !IsAggregated(first.1) ==> r == first
    ensures SubmitsFirstItself(rows, first) ==> r == first
    ensures !SubmitsFirstItself(rows, first) ==>
      var k := ParseInt(AggregatorId(first.1).value).value; r == (k, rows[k])
  {
    if IsAggregated(first.1) then
      match ParseInt(AggregatorId(first.1).value)
      case Some(k) => if k in rows then (k, rows[k]) else first
      case None => first
    else first
  }

  /** A report relinked by a send is submitted through its aggregator. */
  lemma RelinkedReportSubmitsItsAggregator(rows: map<int, Row>, row: Row, st: Statuses, status: string, aggrId: int)
    requires aggrId in rows
    requires IntMin <= aggrId <= IntMax
    ensures SubmitTarget(rows, (0, Apply(Relink(status, IntToString(aggrId)), row, st))) == (aggrId, rows[aggrId])
  {
    RelinkedReport(row, st, status, aggrId);
    IntToStringRoundTrip(aggrId);
  }

  /** The change the submit callback makes to every listed report: it takes the status the
      submitted report has after the submission. */
  function SubmitChange(rows: map<int, Row>, listed: seq<Listed>, st: Statuses, remote: Remote): Row -> Row
    requires listed != []
  {
    var target := SubmitTarget(rows, listed[0]);
    Applied(Restatus(RclStatus(AfterRefresh(target.1, st, remote), st)), st)
  }

  /** Whether `submit()` submits the first listed report object itself: it is not
      aggregated, or its aggregator is not found. */
  predicate SubmitsFirstItself(rows: map<int, Row>, first: Listed) {
    !IsAggregated(first.1) || ParseInt(AggregatorId(first.1).value).None? ||
    ParseInt(AggregatorId(first.1).value).value !in rows
  }

  /** The listed reports as the submit callback finds them: when the submitted report is the
      first listed object itself, the submission has already given that object its new status. */
  function SubmittedList(rows: map<int, Row>, listed: seq<Listed>, st: Statuses, remote: Remote): (r: seq<Listed>)
    requires listed != []
    ensures |r| == |listed| && forall i :: 0 <= i < |r| ==> r[i].0 == listed[i].0
    ensures forall i :: 0 < i < |r| ==> r[i] == listed[i]
    ensures SubmitsFirstItself(rows, listed[0]) ==> r[0].1 == AfterRefresh(listed[0].1, st, remote)
    ensures !SubmitsFirstItself(rows, listed[0]) ==> r == listed
  {
    if SubmitsFirstItself(rows, listed[0]) then [(listed[0].0, AfterRefresh(listed[0].1, st, remote))] + listed[1..]
    else listed
  }

  /** What the submit callback leaves in the store: every listed report takes the status
      the submitted report has after the submission. */
  function Submitted(rows: map<int, Row>, listed: seq<Listed>, st: Statuses, remote: Remote): map<int, Row> {
    if listed == [] then rows
    else WrittenBack(rows, SubmittedList(rows, listed, st, remote), SubmitChange(rows, listed, st, remote))
  }

  /** The list, the aggregator and the error that `loadAmendedMonthlyReports()` leaves, from
      the stored reports and the fields before it: an unreadable version met while looking
      for the aggregator changes nothing; one met while listing keeps the old list. */
  function Reloaded(all: seq<Listed>, dcCode: string, st: Statuses, reports: seq<Listed>, aggr: Option<Listed>)
    : (seq<Listed>, Option<Listed>, Option<StreamError>)
  {
    match FindAggregator(all, dcCode, st)
    case Failure(e) => (reports, aggr, Some(e))
    case Success(found) =>
      var listed := if found.Some? then LinkedReports(all, found.value, dcCode, st)
                    else AmendedReports(all, dcCode, st);
      if listed.Success? then (listed.value, found, None) else (reports, found, Some(listed.error))
  }

  /** After a submit, every listed report still stored has one and the same status. */
  lemma SubmitGivesOneStatus(rows: map<int, Row>, listed: seq<Listed>, st: Statuses, remote: Remote, i: int, j: int)
    requires forall a, b :: 0 <= a < b < |listed| ==> listed[a].0 != listed[b].0
    requires 0 <= i < |listed| && 0 <= j < |listed|
    requires listed[i].0 in rows && listed[j].0 in rows
    ensures Code(Submitted(rows, listed, st, remote)[listed[i].0], StatusColumn) ==
            Code(Submitted(rows, listed, st, remote)[listed[j].0], StatusColumn)
  {
    var target := SubmitTarget(rows, listed[0]);
    var c := Restatus(RclStatus(AfterRefresh(target.1, st, remote), st));
    WrittenBackChangesTheList(rows, SubmittedList(rows, listed, st, remote), Applied(c, st));
  }

  /** When the first listed report is the one submitted and the submission gives it a status,
      the callback sets that status on the same object a second time: the report is stored
      with the new status as its previous status too, and its former status is lost. */
  lemma SubmittedFirstLosesItsFormerStatus(rows: map<int, Row>, listed: seq<Listed>, st: Statuses, remote: Remote)
    requires forall a, b :: 0 <= a < b < |listed| ==> listed[a].0 != listed[b].0
    requires listed != [] && listed[0].0 in rows
    requires SubmitsFirstItself(rows, listed[0]) && remote(listed[0].1).status.Some?
    ensures var stored := Submitted(rows, listed, st, remote)[listed[0].0];
      var s := st.canonical(remote(listed[0].1).status.value);
      Code(stored, StatusColumn) == s && Code(stored, PreviousStatusColumn) == s
  {
    var target := SubmitTarget(rows, listed[0]);
    assert target == listed[0];
    var c := Restatus(RclStatus(AfterRefresh(target.1, st, remote), st));
    var sl := SubmittedList(rows, listed, st, remote);
    WrittenBackChangesTheList(rows, sl, Applied(c, st));
  }

  // ---------------------------------------------------------------- the dialog

  class AmendReportListDialog {
    const dcCode: string
    const st: Statuses
    const dao: ReportDao
    var reports: seq<Listed>
    var aggrReport: Option<Listed>

    /** The dialog loads its list as soon as it is made, starting from no list and no
        aggregator. */
    constructor (dcCode: string, st: Statuses, dao: ReportDao)
      ensures this.dcCode == dcCode && this.st == st && this.dao == dao
      ensures var r := Reloaded(AllReports(dao.rows, dao.order), dcCode, st, [], None);
        reports == r.0 && aggrReport == r.1
    {
      this.dcCode := dcCode;
      this.st := st;
      this.dao := dao;
      reports := [];
      aggrReport := None;
      new;
      var _ := LoadAmendedMonthlyReports();
    }

    /** `loadAmendedMonthlyReports()`; a NumberFormatException leaves the fields it had not
        yet assigned as they were. */
    method LoadAmendedMonthlyReports() returns (error: Option<StreamError>)
      modifies this
      ensures var all := AllReports(dao.rows, dao.order);
        match FindAggregator(all, dcCode, st)
        case Failure(e) =>
          error == Some(e) && reports == old(reports) && aggrReport == old(aggrReport)
        case Success(found) =>
          aggrReport == found &&
          var listed := if found.Some? then LinkedReports(all, found.value, dcCode, st)
                        else AmendedReports(all, dcCode, st);
          if listed.Success? then error.None? && reports == listed.value
          else error == Some(listed.error) && reports == old(reports)
      ensures (reports, aggrReport, error) ==
        Reloaded(AllReports(dao.rows, dao.order), dcCode, st, old(reports), old(aggrReport))
    {
      var all := AllReports(dao.rows, dao.order);
      var found := FindAggregator(all, dcCode, st);
      if found.Failure? {
        return Some(found.error);
      }
      aggrReport := found.value;
      var listed := if aggrReport.Some? then LinkedReports(all, aggrReport.value, dcCode, st)
                    else AmendedReports(all, dcCode, st);
      if listed.Failure? {
        return Some(listed.error);
      }
      reports := listed.value;
      return None;
    }

    /** The `forEach` of the callbacks: every listed report is changed and written back. */
    method WriteBack(f: Row -> Row)
      modifies this, dao
      ensures dao.rows == WrittenBack(old(dao.rows), old(reports), f)
      ensures dao.order == old(dao.order)
      ensures reports == Changed(old(reports), f) && aggrReport == old(aggrReport)
    {
      var listed := reports;
      for i := 0 to |listed|
        invariant dao.rows == WrittenBack(old(dao.rows), listed[..i], f)
        invariant dao.order == old(dao.order)
        invariant reports == old(reports) && aggrReport == old(aggrReport)
      {
        dao.Update(listed[i].0, f(listed[i].1));
        assert listed[..i + 1][..i] == listed[..i];
      }
      assert listed[..|listed|] == listed;
      reports := Changed(listed, f);
    }

    /** `daoService.delete` on each of `versions`. */
    method DeleteVersions(versions: seq<int>)
      modifies dao
      ensures dao.rows == Deleted(old(dao.rows), versions)
      ensures dao.order == Without(old(dao.order), versions)
    {
      var remaining := dao.rows;
      WithoutNothing(dao.order);
      for i := 0 to |versions|
        invariant dao.rows == Deleted(remaining, versions[..i])
        invariant dao.order == Without(old(dao.order), versions[..i])
      {
        WithoutTwice(old(dao.order), versions[..i], versions[i]);
        assert versions[..i + 1] == versions[..i] + [versions[i]];
        dao.Delete(versions[i]);
        assert dao.rows == Deleted(remaining, versions[..i + 1]);
      }
      assert versions[..|versions|] == versions;
    }

    /** `onSendReportComplete(report)`: for an aggregator, drops its other versions and
        links every listed report to it with its status; then reloads the list. */
    method OnSendReportComplete(report: Row) returns (error: Option<string>)
      modifies this, dao
      ensures var s := SendCompleted(old(dao.rows), old(dao.order), old(reports), report, st);
        dao.rows == s.rows && dao.order == s.order &&
        (s.failure.Some? ==> error == s.failure && reports == old(reports) && aggrReport == old(aggrReport))
    {
      if TypeOf(report) != CollectionAggregation {
        var e := LoadAmendedMonthlyReports();
        return if e.Some? then Some("NumberFormatException") else None;
      }
      var v := Code(report, VersionColumn);
      var versions := VersionsOf(dao.rows, dao.order, report);
      var first := FirstOfVersion(versions, v);
      DeleteVersions(Dropped(versions, v));
      if first.None? {
        return Some("NoSuchElementException");
      }
      var aggr := versions[first.value];
      WriteBack(Applied(Relink(RclStatus(aggr.1, st), IntToString(aggr.0)), st));
      var e := LoadAmendedMonthlyReports();
      return if e.Some? then Some("NumberFormatException") else None;
    }

    /** `sendReports()` followed by its completion callback: several reports are sent
        through the aggregator `created` for them, otherwise the loaded aggregator or the
        single report is sent; with nothing to send, `reports.get(0)` fails. The send
        records the status it gets back on the sent report, in memory and in the store,
        before the callback reads the versions of that report from the store. */
    method SendReports(created: Listed, send: Remote) returns (sent: Option<Listed>, error: Option<string>)
      modifies this, dao
      ensures sent == SendTarget(old(reports), old(aggrReport), created)
      ensures sent.None? ==>
        error == Some("IndexOutOfBoundsException") && dao.rows == old(dao.rows) && dao.order == old(dao.order)
      ensures sent.Some? ==>
        var after := AfterRefresh(sent.value.1, st, send);
        var s := SendCompleted(Updated(old(dao.rows), sent.value.0, after), old(dao.order),
                               SentList(old(reports), old(aggrReport), after), after, st);
        dao.rows == s.rows && dao.order == s.order && (s.failure.Some? ==> error == s.failure)
    {
      if |reports| > 1 {
        aggrReport := Some(created);
      }
      sent := SendTarget(reports, aggrReport, created);
      if sent.None? {
        return sent, Some("IndexOutOfBoundsException");
      }
      var after := AfterRefresh(sent.value.1, st, send);
      if aggrReport.Some? {
        aggrReport := Some((sent.value.0, after));
      } else {
        reports := SentList(reports, aggrReport, after);
      }
      dao.Update(sent.value.0, after);
      error := OnSendReportComplete(after);
    }

    /** `submit()`: nothing on an empty list; otherwise the target is submitted, every
        listed report takes its new status, and the list is reloaded. */
    method Submit(remote: Remote) returns (error: Option<string>)
      modifies this, dao
      ensures dao.rows == Submitted(old(dao.rows), old(reports), st, remote)
      ensures dao.order == old(dao.order)
      ensures old(reports) == [] ==> reports == old(reports) && error.None?
      ensures old(reports) != [] ==>
        var r := Reloaded(AllReports(dao.rows, dao.order), dcCode, st,
                          Changed(SubmittedList(old(dao.rows), old(reports), st, remote),
                                  SubmitChange(old(dao.rows), old(reports), st, remote)),
                          old(aggrReport));
        reports == r.0 && aggrReport == r.1 && (error.Some? <==> r.2.Some?)
    {
      if reports == [] {
        return None;
      }
      var f := SubmitChange(dao.rows, reports, st, remote);
      reports := SubmittedList(dao.rows, reports, st, remote);
      WriteBack(f);
      var e := LoadAmendedMonthlyReports();
      return if e.Some? then Some("NumberFormatException") else None;
    }
  }
}
