// Stream filters over lists of reports whose chain parses the report version with
// `Integer.parseInt` halfway: a row that reaches the parse with a version that is not a
// 32-bit integer raises NumberFormatException, which ends the whole stream.

module ReportFilters {
  import opened Wrappers
  import opened JavaStrings
  import opened Sequences
  import opened Reports

  datatype StreamError = NumberFormatException

  /** `Integer.parseInt(getVersion()) > 0`, when the version parses. */
  predicate PositiveVersion(row: Row) {
    var v := ParseInt(Code(row, VersionColumn));
    v.Some? && v.value > 0
  }

  predicate UnreadableVersion(row: Row) {
    ParseInt(Code(row, VersionColumn)).None?
  }

  /** `filter(pre).filter(version > 0).filter(post)` over the rows `rowOf` gives. */
  predicate Keeps<T>(rowOf: T -> Row, pre: T -> bool, post: T -> bool, x: T) {
    pre(x) && PositiveVersion(rowOf(x)) && post(x)
  }

  /** `... .collect(toList())`: every element goes through the chain, so the stream fails
      when any element that passes `pre` has an unreadable version; otherwise the result
      is exactly the elements that pass all filters, in their order. */
  function Collect<T(==,!new)>(items: seq<T>, rowOf: T -> Row, pre: T -> bool, post: T -> bool)
    : (r: Result<seq<T>, StreamError>)
    ensures r.Failure? <==>
      exists i :: 0 <= i < |items| && pre(items[i]) && UnreadableVersion(rowOf(items[i]))
    ensures r.Success? ==> IsSubsequence(r.value, items)
    ensures r.Success? ==> forall x :: x in r.value <==> x in items && Keeps(rowOf, pre, post, x)
  {
    if items == [] then Success([])
    else if pre(items[0]) && UnreadableVersion(rowOf(items[0])) then Failure(NumberFormatException)
    else
      match Collect(items[1..], rowOf, pre, post)
      case Failure(e) =>
        ghost var i :| 0 <= i < |items[1..]| && pre(items[1..][i]) && UnreadableVersion(rowOf(items[1..][i]));
        assert pre(items[i + 1]) && UnreadableVersion(rowOf(items[i + 1]));
        Failure(e)
      case Success(rest) =>
        assert items == [items[0]] + items[1..];
        if Keeps(rowOf, pre, post, items[0]) then Success([items[0]] + rest) else Success(rest)
  }

  /** `... .findAny()` on a sequential stream: the elements are taken in order until the
      first that passes all filters; an unreadable version met before it ends the stream. */
  function FindFirst<T(==,!new)>(items: seq<T>, rowOf: T -> Row, pre: T -> bool, post: T -> bool)
    : (r: Result<Option<T>, StreamError>)
    ensures r.Success? && r.value.Some? ==>
      exists i :: 0 <= i < |items| && items[i] == r.value.value && Keeps(rowOf, pre, post, items[i]) &&
        forall j :: 0 <= j < i ==> !Keeps(rowOf, pre, post, items[j])
    ensures r.Success? && r.value.None? ==> forall x :: x in items ==> !Keeps(rowOf, pre, post, x)
    ensures r.Failure? ==>
      exists i :: 0 <= i < |items| && pre(items[i]) && UnreadableVersion(rowOf(items[i])) &&
        forall j :: 0 <= j < i ==> !Keeps(rowOf, pre, post, items[j])
  {
    if items == [] then Success(None)
    else if pre(items[0]) && UnreadableVersion(rowOf(items[0])) then Failure(NumberFormatException)
    else if Keeps(rowOf, pre, post, items[0]) then Success(Some(items[0]))
    else
      var r := FindFirst(items[1..], rowOf, pre, post);
      assert items == [items[0]] + items[1..];
      if r.Success? && r.value.Some? then
        ghost var i :| 0 <= i < |items[1..]| && items[1..][i] == r.value.value &&
          Keeps(rowOf, pre, post, items[1..][i]) &&
          forall j :: 0 <= j < i ==> !Keeps(rowOf, pre, post, items[1..][j]);
        assert forall j :: 0 <= j < i + 1 ==> !Keeps(rowOf, pre, post, items[j]) by {
          forall j | 0 <= j < i + 1 ensures !Keeps(rowOf, pre, post, items[j]) {
            if j > 0 {
              assert items[j] == items[1..][j - 1];
            }
          }
        }
        assert items[i + 1] == r.value.value;
        r
      else if r.Failure? then
        ghost var i :| 0 <= i < |items[1..]| && pre(items[1..][i]) && UnreadableVersion(rowOf(items[1..][i])) &&
          forall j :: 0 <= j < i ==> !Keeps(rowOf, pre, post, items[1..][j]);
        assert forall j :: 0 <= j < i + 1 ==> !Keeps(rowOf, pre, post, items[j]) by {
          forall j | 0 <= j < i + 1 ensures !Keeps(rowOf, pre, post, items[j]) {
            if j > 0 {
              assert items[j] == items[1..][j - 1];
            }
          }
        }
        assert pre(items[i + 1]) && UnreadableVersion(rowOf(items[i + 1]));
        r
      else
        r
  }

  /** A collected list keeps every element that passes, as often as the input holds it,
      and nothing else. */
  lemma {:induction false} CollectCount<T(!new)>(items: seq<T>, rowOf: T -> Row, pre: T -> bool, post: T -> bool)
    ensures Collect(items, rowOf, pre, post).Success? ==> forall x ::
      multiset(Collect(items, rowOf, pre, post).value)[x] ==
        if Keeps(rowOf, pre, post, x) then multiset(items)[x] else 0
  {
    if items != [] && !(pre(items[0]) && UnreadableVersion(rowOf(items[0]))) {
      CollectCount(items[1..], rowOf, pre, post);
      assert items == [items[0]] + items[1..];
      assert multiset(items) == multiset([items[0]]) + multiset(items[1..]);
    }
  }

  /** `findAny` fails exactly when an element passing `pre` with an unreadable version comes
      before every element that passes all filters. */
  lemma {:induction false} FindFirstFails<T(!new)>(items: seq<T>, rowOf: T -> Row, pre: T -> bool, post: T -> bool)
    ensures FindFirst(items, rowOf, pre, post).Failure? <==>
      exists i :: 0 <= i < |items| && pre(items[i]) && UnreadableVersion(rowOf(items[i])) &&
        forall j :: 0 <= j < i ==> !Keeps(rowOf, pre, post, items[j])
  {
    if items != [] && !(pre(items[0]) && UnreadableVersion(rowOf(items[0]))) &&
       !Keeps(rowOf, pre, post, items[0]) {
      FindFirstFails(items[1..], rowOf, pre, post);
      if exists i :: 0 <= i < |items| && pre(items[i]) && UnreadableVersion(rowOf(items[i])) &&
           forall j :: 0 <= j < i ==> !Keeps(rowOf, pre, post, items[j]) {
        var i :| 0 <= i < |items| && pre(items[i]) && UnreadableVersion(rowOf(items[i])) &&
          forall j :: 0 <= j < i ==> !Keeps(rowOf, pre, post, items[j]);
        assert i > 0;
        assert items[1..][i - 1] == items[i];
        assert forall j :: 0 <= j < i - 1 ==> !Keeps(rowOf, pre, post, items[1..][j]) by {
          forall j | 0 <= j < i - 1 ensures !Keeps(rowOf, pre, post, items[1..][j]) {
            assert items[1..][j] == items[j + 1];
          }
        }
      }
    }
  }

  // ---------------------------------------------------------------- amended reports

  /** The report is of the data collection and LOCALLY_VALIDATED. */
  predicate AmendedCandidate(row: Row, dcCode: string, st: Statuses) {
    Code(row, DcCodeColumn) == dcCode && RclStatus(row, st) == st.locallyValidated
  }

  /** `GetAmendedReportsThread.filterReports(unfiltered, dcCode)`: the reports of the data
      collection that are LOCALLY_VALIDATED and have a version above 0. */
  function FilterReports(unfiltered: seq<Row>, dcCode: string, st: Statuses): (r: Result<seq<Row>, StreamError>)
    ensures r.Failure? <==>
      exists i :: 0 <= i < |unfiltered| && AmendedCandidate(unfiltered[i], dcCode, st) &&
        UnreadableVersion(unfiltered[i])
    ensures r.Success? ==> IsSubsequence(r.value, unfiltered)
    ensures r.Success? ==> forall row :: row in r.value <==>
      row in unfiltered && Code(row, DcCodeColumn) == dcCode && RclStatus(row, st) == st.locallyValidated &&
      PositiveVersion(row)
    ensures r.Success? ==> forall row ::
      multiset(r.value)[row] ==
        if AmendedCandidate(row, dcCode, st) && PositiveVersion(row) then multiset(unfiltered)[row] else 0
  {
    var rowOf := (row: Row) => row;
    var pre := (row: Row) => AmendedCandidate(row, dcCode, st);
    var post := (row: Row) => true;
    CollectCount(unfiltered, rowOf, pre, post);
    Collect(unfiltered, rowOf, pre, post)
  }
}
