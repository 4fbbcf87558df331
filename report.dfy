// A report is a row of the Report sheet: a map from column name to its stored code. The
// typed accessors read and write single columns of that map; the status keeps one level
// of history, the aggregator id is normalised by trimming and the type has a default.

module Reports {
  import opened Wrappers
  import opened JavaStrings
  import opened ReportTypes

  type Row = map<string, string>

  const MessageIdColumn := "reportMessageId"
  const LastMessageIdColumn := "reportLastMessageId"
  const LastModifyingMessageIdColumn := "reportLastModifyingMessageId"
  const LastValidationMessageIdColumn := "reportLastValidationMessageId"
  const DatasetIdColumn := "reportDatasetId"
  const VersionColumn := "reportVersion"
  const SenderIdColumn := "reportSenderId"
  const DcCodeColumn := "dcCode"
  const StatusColumn := "reportStatus"
  const PreviousStatusColumn := "reportPreviousStatus"
  const AggregatorIdColumn := "aggregatorId"
  const TypeColumn := "reportType"

  /** `getCode(column)`: the stored code, empty when the column holds nothing. */
  function Code(row: Row, column: string): string {
    if column in row then row[column] else ""
  }

  /** `put(column, value)`: a null value clears the column. */
  function Put(row: Row, column: string, value: Option<string>): (r: Row)
    ensures Code(r, column) == (if value.Some? then value.value else "")
    ensures forall c :: c != column ==> (c in r <==> c in row)
    ensures forall c :: c != column && c in row ==> r[c] == row[c]
  {
    match value
    case Some(v) => row[column := v]
    case None => row - {column}
  }

  /** The dataset statuses, which are not part of this model: `canonical` parses a stored
      code and prints it back (`fromString(code).getStatus()`), the predicates classify a
      canonical code, and `draft` and `locallyValidated` are the codes of those two
      statuses. */
  datatype Statuses = Statuses(
    canonical: string -> string,
    isFinalized: string -> bool,
    isEditable: string -> bool,
    canBeSubmitted: string -> bool,
    canBeRefreshed: string -> bool,
    draft: string,
    locallyValidated: string)

  // ---------------------------------------------------------------- status

  /** `getRCLStatus()`, as the canonical code of the parsed status. */
  function RclStatus(row: Row, st: Statuses): string {
    st.canonical(Code(row, StatusColumn))
  }

  /** `setRCLStatus(status)`: the current status moves to the previous-status column, then
      the new one is stored. */
  function WithStatus(row: Row, st: Statuses, status: string): (r: Row)
    ensures Code(r, StatusColumn) == status
    ensures Code(r, PreviousStatusColumn) == RclStatus(row, st)
    ensures forall c :: c != StatusColumn && c != PreviousStatusColumn ==>
      (c in r <==> c in row) && (c in row ==> r[c] == row[c])
  {
    Put(Put(row, PreviousStatusColumn, Some(RclStatus(row, st))), StatusColumn, Some(status))
  }

  /** `getPreviousStatus()`: null exactly when the previous-status column is empty. */
  function PreviousStatus(row: Row, st: Statuses): (r: Option<string>)
    ensures r.None? <==> Code(row, PreviousStatusColumn) == ""
    ensures r.Some? ==> r.value == st.canonical(Code(row, PreviousStatusColumn))
  {
    var code := Code(row, PreviousStatusColumn);
    if code == "" then None else Some(st.canonical(code))
  }

  /** `isEditable()`: what the status says about editing. */
  function IsEditable(row: Row, st: Statuses): bool {
    st.isEditable(RclStatus(row, st))
  }

  /** `makeEditable()`: the status becomes DRAFT through `setRCLStatus`. */
  function MadeEditable(row: Row, st: Statuses): Row {
    WithStatus(row, st, st.draft)
  }

  /** Two status changes in a row: the status is the last one, the previous status is the
      canonical form of the one before, every other column is as it was. */
  lemma StatusTwice(row: Row, st: Statuses, s1: string, s2: string)
    ensures var r := WithStatus(WithStatus(row, st, s1), st, s2);
      Code(r, StatusColumn) == s2 &&
      Code(r, PreviousStatusColumn) == st.canonical(s1) &&
      forall c :: c != StatusColumn && c != PreviousStatusColumn ==>
        (c in r <==> c in row) && (c in row ==> r[c] == row[c])
  {
  }

  /** History is exactly one level deep: after two status changes, nothing of the status
      the report had before them survives. */
  lemma {:induction false} HistoryIsOneLevel(row1: Row, row2: Row, st: Statuses, s1: string, s2: string)
    requires forall c :: c != StatusColumn && c != PreviousStatusColumn ==>
      (c in row1 <==> c in row2) && (c in row1 ==> row1[c] == row2[c])
    ensures WithStatus(WithStatus(row1, st, s1), st, s2) == WithStatus(WithStatus(row2, st, s1), st, s2)
  {
    var r1 := WithStatus(WithStatus(row1, st, s1), st, s2);
    var r2 := WithStatus(WithStatus(row2, st, s1), st, s2);
    StatusTwice(row1, st, s1, s2);
    StatusTwice(row2, st, s1, s2);
    assert r1.Keys == r2.Keys;
    assert forall c :: c in r1 ==> r1[c] == r2[c];
  }

  /** `makeEditable()` records the old status as the previous one and stores DRAFT; when
      DRAFT's code reads back as itself the report is DRAFT afterwards. */
  lemma MakeEditableKeepsOldStatus(row: Row, st: Statuses)
    ensures Code(MadeEditable(row, st), PreviousStatusColumn) == RclStatus(row, st)
    ensures Code(MadeEditable(row, st), StatusColumn) == st.draft
    ensures st.canonical(st.draft) == st.draft ==> RclStatus(MadeEditable(row, st), st) == st.draft
    ensures PreviousStatus(MadeEditable(row, st), st).None? <==> RclStatus(row, st) == ""
  {
  }

  /** `makeEditable()` leaves the report editable whenever DRAFT is an editable status that
      reads back as itself, whatever the report's status was. */
  lemma MadeEditableIsEditable(row: Row, st: Statuses)
    requires st.canonical(st.draft) == st.draft && st.isEditable(st.draft)
    ensures IsEditable(MadeEditable(row, st), st)
  {
    MakeEditableKeepsOldStatus(row, st);
  }

  // ---------------------------------------------------------------- aggregator

  /** The trimmed text, or null when the text is null or blank. */
  function Normalized(text: Option<string>): (r: Option<string>)
    ensures r.Some? ==> r.value != "" && Trim(r.value) == r.value
    ensures text.None? ==> r.None?
    ensures text.Some? && Trim(text.value) != "" ==> r == Some(Trim(text.value))
    ensures text.Some? && Trim(text.value) == "" ==> r.None?
  {
    if text.Some? && Trim(text.value) != "" then
      TrimIdempotent(text.value);
      Some(Trim(text.value))
    else None
  }

  /** A text with nothing to trim is stored as it is. */
  lemma NormalizedTrimmed(t: string)
    requires t != "" && Trim(t) == t
    ensures Normalized(Some(t)) == Some(t)
  {
  }

  /** `setAggregatorId(id)`. */
  function WithAggregatorId(row: Row, id: Option<string>): Row {
    Put(row, AggregatorIdColumn, Normalized(id))
  }

  /** `getAggregatorId()`. */
  function AggregatorId(row: Row): Option<string> {
    Normalized(Some(Code(row, AggregatorIdColumn)))
  }

  /** `isAggregated()`. */
  predicate IsAggregated(row: Row) {
    AggregatorId(row).Some?
  }

  /** What is stored is read back unchanged: the aggregator id after `setAggregatorId(id)`
      is `id` trimmed, or null when `id` is null or blank. */
  lemma AggregatorIdRoundTrip(row: Row, id: Option<string>)
    ensures AggregatorId(WithAggregatorId(row, id)) == Normalized(id)
    ensures IsAggregated(WithAggregatorId(row, id)) <==> id.Some? && Trim(id.value) != ""
  {
    var n := Normalized(id);
    if n.None? {
      assert Code(WithAggregatorId(row, id), AggregatorIdColumn) == "";
      assert Trim("") == "";
    }
  }

  // ---------------------------------------------------------------- type

  /** `setType(t)`: the constant's name, SIMPLE_MONTHLY for null. */
  function WithType(row: Row, t: Option<ReportType>): Row {
    Put(row, TypeColumn, Some(Name(if t.Some? then t.value else SimpleMonthly)))
  }

  /** `getType()`. */
  function TypeOf(row: Row): ReportType {
    GetOrDefault(Some(Code(row, TypeColumn)))
  }

  /** `isVisible()`: only simple monthly reports are shown. */
  predicate IsVisible(row: Row) {
    TypeOf(row) == SimpleMonthly
  }

  /** The type read back is the type set, SIMPLE_MONTHLY for null; visibility follows. */
  lemma TypeRoundTrip(row: Row, t: Option<ReportType>)
    ensures TypeOf(WithType(row, t)) == (if t.Some? then t.value else SimpleMonthly)
    ensures IsVisible(WithType(row, t)) <==> t.None? || t.value == SimpleMonthly
  {
    GetOrDefaultName(if t.Some? then t.value else SimpleMonthly);
  }

  // ---------------------------------------------------------------- plain fields

  /** The columns written by the plain setters. */
  datatype Field = MessageId | LastMessageId | LastModifyingMessageId | LastValidationMessageId
                 | DatasetId | Version | SenderId | DcCode

  function ColumnOf(f: Field): string {
    match f
    case MessageId => MessageIdColumn
    case LastMessageId => LastMessageIdColumn
    case LastModifyingMessageId => LastModifyingMessageIdColumn
    case LastValidationMessageId => LastValidationMessageIdColumn
    case DatasetId => DatasetIdColumn
    case Version => VersionColumn
    case SenderId => SenderIdColumn
    case DcCode => DcCodeColumn
  }

  /** The plain getter of a field (`getMessageId()`, `getVersion()`, `getDcCode()`, ...). */
  function Get(row: Row, f: Field): string {
    Code(row, ColumnOf(f))
  }

  /** The plain setter of a field (`setMessageId(id)`, `setVersion(v)`, ...). */
  function WithField(row: Row, f: Field, value: Option<string>): Row {
    Put(row, ColumnOf(f), value)
  }

  /** Every field has a column of its own, distinct from the columns of status, previous
      status, aggregator id and type. */
  lemma ColumnsAreDistinct(f: Field, g: Field)
    ensures f != g ==> ColumnOf(f) != ColumnOf(g)
    ensures ColumnOf(f) !in {StatusColumn, PreviousStatusColumn, AggregatorIdColumn, TypeColumn}
  {
  }

  /** A plain setter writes its own column and nothing else: every other field, the
      status, the previous status, the aggregator id and the type read as before. */
  lemma SetterTouchesOnlyItsColumn(row: Row, f: Field, value: Option<string>, st: Statuses)
    ensures forall g ::
      Get(WithField(row, f, value), g) == (if g == f then (if value.Some? then value.value else "") else Get(row, g))
    ensures RclStatus(WithField(row, f, value), st) == RclStatus(row, st)
    ensures PreviousStatus(WithField(row, f, value), st) == PreviousStatus(row, st)
    ensures AggregatorId(WithField(row, f, value)) == AggregatorId(row)
    ensures TypeOf(WithField(row, f, value)) == TypeOf(row)
  {
    forall g ensures Get(WithField(row, f, value), g) ==
      (if g == f then (if value.Some? then value.value else "") else Get(row, g))
    {
      ColumnsAreDistinct(f, g);
    }
    ColumnsAreDistinct(f, f);
    var r := WithField(row, f, value);
    assert Code(r, StatusColumn) == Code(row, StatusColumn);
    assert Code(r, PreviousStatusColumn) == Code(row, PreviousStatusColumn);
    assert Code(r, AggregatorIdColumn) == Code(row, AggregatorIdColumn);
    assert Code(r, TypeColumn) == Code(row, TypeColumn);
  }

  // ---------------------------------------------------------------- the record

  /** A report object: its setters `put` into the row's column map. */
  class Report {
    var columns: Row

    constructor (columns: Row)
      ensures this.columns == columns
    {
      this.columns := columns;
    }

    /** `setRCLStatus(status)`: two puts in sequence. */
    method SetRclStatus(st: Statuses, status: string)
      modifies this
      ensures columns == WithStatus(old(columns), st, status)
    {
      columns := Put(columns, PreviousStatusColumn, Some(RclStatus(columns, st)));
      columns := Put(columns, StatusColumn, Some(status));
    }

    method MakeEditable(st: Statuses)
      modifies this
      ensures columns == MadeEditable(old(columns), st)
    {
      SetRclStatus(st, st.draft);
    }

    method SetAggregatorId(id: Option<string>)
      modifies this
      ensures columns == WithAggregatorId(old(columns), id)
    {
      var stored: Option<string> := None;
      if id.Some? {
        var trimmed := Trim(id.value);
        if trimmed != "" {
          stored := Some(trimmed);
        }
      }
      columns := Put(columns, AggregatorIdColumn, stored);
    }

    method SetType(t: Option<ReportType>)
      modifies this
      ensures columns == WithType(old(columns), t)
    {
      var val := if t.Some? then t.value else SimpleMonthly;
      columns := Put(columns, TypeColumn, Some(Name(val)));
    }

    method Set(f: Field, value: Option<string>)
      modifies this
      ensures columns == WithField(old(columns), f, value)
    {
      columns := Put(columns, ColumnOf(f), value);
    }
  }
}
