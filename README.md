# EFSA reporting core, modelled in Dafny

This project models the logic at the core of the EFSA reporting tools (the EFSA report
common library, the TSE reporting tool, the DCF web-service framework and the catalogue
browser) and proves what that logic promises:

- **Formula engine** (`function_formula.dfy`, `formula.dfy`, `dependencies.dfy`,
  `formula_solver.dfy`):
  - the built-in functions `NAME(op1,...)`: compiling the call text with Java's `split`,
    and solving ZERO_PADDING, LEFT_TRIM, RIGHT_TRIM, IF, IF_NOT_NULL, SUM, HASH, AND, OR
    and NEXT;
  - the substitution pipeline of a column formula (keywords, row keywords, columns,
    relations, comparisons, functions) and the trimmed solution it stores;
  - the dependency count of a column, memoised in a cache keyed by (sheet, column,
    header);
  - the batch solver: a stable sort by dependency count, then solving in that order and
    writing every non-empty solution into the row.
- **Reports** (`report.dfy`, `report_type.dfy`, `report_store.dfy`, `report_filters.dfy`,
  `trx_code.dfy`, `data_collections.dfy`):
  - the report row with one level of status history, the normalised aggregator id, the
    type with its default and the plain column setters;
  - the string-to-enum parsers `ReportType.getOrDefault` and `TrxCode.fromString`;
  - the Report table as a map from database id to row, with a listing order;
  - the amended-report filter and the data-collection codes and filter.
- **Aggregated reports** (`refresh_status.dfy`, `amend_report_list.dfy`):
  - refreshing a report's status, directly or through its aggregator, with the fan-out
    of the status, the clearing of links and the deletion of the aggregator's versions;
  - the amend-report list: loading it, gating send, submit and refresh, sending (with the
    completion callback) and submitting.
- **DCF responses** (`dcf_ack_log.dfy`, `dcf_log.dfy`, `pending_request_dao_mock.dfy`):
  - the fields of an acknowledgement log and the reduction of its errors by priority;
  - the failing nodes of a DCF log;
  - the in-memory pending-request store used by the tests.
- **Scope notes** (`scopenotes.dfy`): the word count and the word bounds around a caret.

Shared pieces:
- `java_strings.dfy` holds `trim`, `toUpperCase`, `Integer.valueOf`/`parseInt`,
  `String.valueOf(int)`, `split` and `replace`, with their properties;
- `sequences.dfy` holds the subsequence relation;
- `wrappers.dfy` holds `Option` and `Result`.

Collaborators that the code calls but that are not part of this model are parameters:
- the fragment finders of the pipeline;
- `BooleanValue` truthiness, the message digest of HASH and the UUID of NEXT;
- the `RCLDatasetStatus` parser and predicates;
- the DCF refresh call;
- the enum parsers and `priorTo` of the acknowledgement codes;
- `LogNode.isOperationCorrect` and the log code of a pending request;
- the current year and the fetched data-collection list.

Some places where the code and its description differ:

- **The amend dialog compares an int with a String.** Line 96 of `AmendReportListDialog`
  compares the aggregator id with the aggregator's database id. The model compares the
  aggregator id with the database id printed in decimal, and line 320 stores that printed id.
- **The link is keyed differently in two places.** The dialog links a report to its
  aggregator by the aggregator's database id. `RefreshStatusThread` looks the aggregator
  up by dataset id. Both are modelled as written, and `AmendReportList.LinkageKeysDiffer`
  shows that a report linked by the dialog finds no aggregator when refreshed (the third
  row under "## Findings").
- **Versions sharing a sender id.** `getAllVersions` is a lookup by sender id, so it
  returns every stored report that shares the aggregator's sender id.

## Model

| member | source | states |
|---|---|---|
| FunctionFormula.Compile | efsa-rcl/src/main/java/formula/FunctionFormula.java:60-88 | the call compiles to the first '(' piece as name and the comma pieces as operands, with ')' removed from the last one only; any other number of '(' pieces is WrongFunctionFormula |
| FunctionFormula.CompileCallText | efsa-rcl/src/main/java/formula/FunctionFormula.java:60-88 | compiling the text `name(a1,...,an)` gives back exactly that name and those operands (round trip) |
| FunctionFormula.CompileRejectsMissingBracket | efsa-rcl/src/main/java/formula/FunctionFormula.java:63-67 | a text without '(' is rejected |
| FunctionFormula.CompileRejectsNesting | efsa-rcl/src/main/java/formula/FunctionFormula.java:63-67 | a call nested in another one is rejected |
| FunctionFormula.CompileIgnoresMissingClose | efsa-rcl/src/main/java/formula/FunctionFormula.java:73-87 | the closing bracket is not checked: `NAME(a,b` compiles like `NAME(a,b)` |
| FunctionFormula.CompileNextHasOneEmptyOperand | efsa-rcl/src/main/java/formula/FunctionFormula.java:73-87 | `NEXT()` compiles to one empty operand, because split drops trailing empty pieces |
| FunctionFormula.Zeros | efsa-rcl/src/main/java/formula/FunctionFormula.java:164-171 | n zero characters |
| FunctionFormula.PaddedShape | efsa-rcl/src/main/java/formula/FunctionFormula.java:145-174 | padding gives length max(width, \|text\|), keeps the whole text as a suffix, adds only zeros and never truncates |
| FunctionFormula.SolvePadding | efsa-rcl/src/main/java/formula/FunctionFormula.java:145-174 | two operands with an int width are needed, otherwise WrongNumberOfParameters or WrongParameters; the result is the text padded to the width |
| FunctionFormula.PaddingExamples | efsa-rcl/src/main/java/formula/FunctionFormula.java:145-174 | ZERO_PADDING of "5" to 3 is "005", of "12345" to 3 is "12345" |
| FunctionFormula.SolveRightTrim | efsa-rcl/src/main/java/formula/FunctionFormula.java:181-214 | two operands with a parsable n >= 0 give the last min(n, \|text\|) characters; any other number of operands is WrongNumberOfParameters, an unparsable n WrongParameters, a negative n the index exception |
| FunctionFormula.SolveLeftTrim | efsa-rcl/src/main/java/formula/FunctionFormula.java:216-249 | two operands with a parsable n >= 0 give the first min(n, \|text\|) characters; any other number of operands is WrongNumberOfParameters, an unparsable n WrongParameters, a negative n the index exception |
| FunctionFormula.SolveIf | efsa-rcl/src/main/java/formula/FunctionFormula.java:251-270 | success iff there are three operands; the second when the first is true, the third otherwise |
| FunctionFormula.SolveIfNotNull | efsa-rcl/src/main/java/formula/FunctionFormula.java:272-291 | success iff there are three operands; the second when the first is non-empty, the third otherwise |
| FunctionFormula.SumScan | efsa-rcl/src/main/java/formula/FunctionFormula.java:300-317 | the left-to-right scan fails only with WrongParameters |
| FunctionFormula.SumScanAllNumbers | efsa-rcl/src/main/java/formula/FunctionFormula.java:300-317 | operands that are all numbers sum to their total |
| FunctionFormula.SumScanEmptyOperand | efsa-rcl/src/main/java/formula/FunctionFormula.java:302-306 | an empty operand after numbers only gives "" whatever follows it |
| FunctionFormula.SumScanBadOperand | efsa-rcl/src/main/java/formula/FunctionFormula.java:308-316 | a non-numeric operand after numbers only throws whatever follows it |
| FunctionFormula.SumExamples | efsa-rcl/src/main/java/formula/FunctionFormula.java:293-332 | SUM(1,2) is "3" and SUM(1,2,) is "" |
| FunctionFormula.SolveSum | efsa-rcl/src/main/java/formula/FunctionFormula.java:293-332 | at least two operands are needed; the loop gives the scan's outcome, the total printed without a decimal part |
| FunctionFormula.SumSaturatesAsWritten | efsa-rcl/src/main/java/formula/FunctionFormula.java:324 | as written, SUM(2147483647,1) prints 2147483647, not the total 2147483648 |
| FunctionFormula.SolveHash | efsa-rcl/src/main/java/formula/FunctionFormula.java:339-363 | not two operands is WrongNumberOfParameters; with two, a known algorithm gives exactly the digest of the text and an unknown one is NoSuchAlgorithm |
| FunctionFormula.SolveAnd | efsa-rcl/src/main/java/formula/FunctionFormula.java:370-390 | at least two operands are needed; the true text iff every operand is true |
| FunctionFormula.SolveOr | efsa-rcl/src/main/java/formula/FunctionFormula.java:392-413 | at least two operands are needed; the true text iff some operand is true |
| FunctionFormula.Solve | efsa-rcl/src/main/java/formula/FunctionFormula.java:91-133 | dispatch on the upper-cased name to the function's rules |
| FunctionFormula.DispatchKnowsExactlyTheLibrary | efsa-rcl/src/main/java/formula/FunctionFormula.java:95-128 | FunctionNotSupported iff the upper-cased name is none of the ten known names |
| FunctionFormula.EvaluateCallText | efsa-rcl/src/main/java/formula/FunctionFormula.java:60-133 | evaluating the text of a call solves that call |
| FunctionFormula.EvaluateIfCall | efsa-rcl/src/main/java/formula/FunctionFormula.java:251-270 | `IF(c,a,b)` written in any letter case evaluates to a when c is true, b otherwise |
| FunctionFormula.EvaluatePaddingCall | efsa-rcl/src/main/java/formula/FunctionFormula.java:145-174 | `ZERO_PADDING(text,width)` written as text pads text to width |
| FunctionFormula.EvaluateAndOrCalls | efsa-rcl/src/main/java/formula/FunctionFormula.java:370-413 | `AND(...)` and `OR(...)` written as text agree with "all true" and "some true" |
| Formula.TableRow.Update | efsa-rcl/src/main/java/formula/FormulaSolver.java:90 | the column takes the value and no other column changes |
| Formula.TableRow.constructor | efsa-rcl/src/main/java/formula/FormulaSolver.java:32-34 | the row holds the given values |
| Formula.ReplaceFormulasWithSolution | efsa-rcl/src/main/java/formula/Formula.java:248-262 | the loop replaces the fragments in turn, as the fragment fold specifies |
| Formula.ReplaceInertFragments | efsa-rcl/src/main/java/formula/Formula.java:248-262 | fragments that are null or stand for their own text leave the text unchanged |
| Formula.ReplaceStopsAtException | efsa-rcl/src/main/java/formula/Formula.java:248-262 | the first fragment whose solution throws decides the outcome |
| Formula.NullFragmentsSkipped | efsa-rcl/src/main/java/formula/Formula.java:253-256 | a fragment with a null solution changes nothing: removing all of them gives the same outcome |
| Formula.CompileAll | efsa-rcl/src/main/java/formula/Formula.java:139-175 | all found calls compile iff each does, and then each compiled call is that call's compilation |
| Formula.CallFragments | efsa-rcl/src/main/java/formula/Formula.java:139-175 | one fragment per compiled call |
| Formula.SolveText | efsa-rcl/src/main/java/formula/Formula.java:95-125 | a solution is always trimmed |
| Formula.Stored | efsa-rcl/src/main/java/formula/Formula.java:95-124 | the stored solution changes only to a successful solution, always does for a non-empty formula that solved, and never for a null or empty formula |
| Formula.EmptyFormulaRunsNoStage | efsa-rcl/src/main/java/formula/Formula.java:95-98 | a null or empty formula solves to "" whatever the row, finders and functions |
| Formula.NoFunctionCalls | efsa-rcl/src/main/java/formula/Formula.java:139-175 | with no call found, the function stage changes nothing |
| Formula.SolveWithInertFragments | efsa-rcl/src/main/java/formula/Formula.java:100-124 | when no stage changes the text, the solution is the formula trimmed |
| Formula.StageStep | efsa-rcl/src/main/java/formula/Formula.java:100-119 | each stage runs on the previous stage's output, and an exception stops the rest |
| Formula.Formula.constructor | efsa-rcl/src/main/java/formula/Formula.java:41-61 | the formula is the column's field, and the dependency count is evaluated and stored in the cache |
| Formula.Formula.SolveKeywords | efsa-rcl/src/main/java/formula/Formula.java:220-223 | the keyword fragments of the text are replaced |
| Formula.Formula.SolveRowKeywords | efsa-rcl/src/main/java/formula/Formula.java:232-235 | the row-keyword fragments are replaced using the row |
| Formula.Formula.SolveColumnsFormula | efsa-rcl/src/main/java/formula/Formula.java:177-187 | the column fragments are replaced using the row |
| Formula.Formula.SolveRelationFormula | efsa-rcl/src/main/java/formula/Formula.java:189-199 | the relation fragments are replaced using the row |
| Formula.Formula.SolveLogicalOperators | efsa-rcl/src/main/java/formula/Formula.java:201-218 | the EQUAL comparisons, then the DISEQUAL ones, both found on the same text, are replaced |
| Formula.Formula.SolveFunctionsFormula | efsa-rcl/src/main/java/formula/Formula.java:139-175 | the functions are reduced in the order AND, OR, SUM, ZERO_PADDING, RIGHT_TRIM, LEFT_TRIM, IF, IF_NOT_NULL, HASH, NEXT |
| Formula.Formula.Solve | efsa-rcl/src/main/java/formula/Formula.java:95-125 | the result is the pipeline's, and the trimmed solution is stored only for a non-empty formula that solved |
| Dependencies.IsDependentBy | efsa-rcl/src/main/java/formula/Formula.java:276-290 | the loop counts the non-overlapping `%id.code` and `%id.label` references; a null formula gives 0 |
| Dependencies.CountRefsZeroIff | efsa-rcl/src/main/java/formula/Formula.java:276-290 | the count is 0 iff the text mentions neither reference |
| Dependencies.CountRefsLeading | efsa-rcl/src/main/java/formula/Formula.java:276-290 | each leading reference counts one |
| Dependencies.DepCountZeroIff | efsa-rcl/src/main/java/formula/Formula.java:300-340 | the dependency count is 0 iff the formula references no other column (its own references never count) |
| Dependencies.DepCountGrowsAlongReferences | efsa-rcl/src/main/java/formula/Formula.java:300-340 | a column that references another has a larger count than it |
| Dependencies.DependencyCache.EvalDependencies | efsa-rcl/src/main/java/formula/Formula.java:298-340 | the count is the sum over the other columns of occurrences plus, for each referenced column, its own count; it is stored under (sheet, column, header), earlier entries are kept and the cache stays sound |
| Dependencies.DependencyCache.constructor | efsa-rcl/src/main/java/formula/Formula.java:43-44 | a new cache is empty |
| FormulaSolver.Compare | efsa-rcl/src/main/java/formula/FormulaSolver.java:107-118 | -1, 0 or 1, negative iff fewer dependencies and positive iff more |
| FormulaSolver.CompareIsTotalOrder | efsa-rcl/src/main/java/formula/FormulaSolver.java:104-119 | the comparator is antisymmetric, transitive and consistent on ties |
| FormulaSolver.SortByCountIsStableSort | efsa-rcl/src/main/java/formula/FormulaSolver.java:74-77 | the sort is ordered by count, a permutation, and keeps the parser's order among equal counts |
| FormulaSolver.ReferencedColumnsSolvedFirst | efsa-rcl/src/main/java/formula/FormulaSolver.java:74-77 | after sorting, a formula referencing another column comes after that column's formula |
| FormulaSolver.SolveAllFromSubsequence | efsa-rcl/src/main/java/formula/FormulaSolver.java:81-96 | the returned formulas are a subsequence of the sorted ones, in solve order |
| FormulaSolver.SolveAllFromWrites | efsa-rcl/src/main/java/formula/FormulaSolver.java:86-90 | no value is removed from the row, and every new value belongs to a returned formula |
| FormulaSolver.EmptySolutionsChangeNothing | efsa-rcl/src/main/java/formula/FormulaSolver.java:84-88 | formulas that all solve to "" on the row, whatever their text and whatever solves them, write nothing and return nothing |
| FormulaSolver.EmptyFormulasChangeNothing | efsa-rcl/src/main/java/formula/FormulaSolver.java:84-88 | in particular, null or empty formula texts write nothing and return nothing |
| FormulaSolver.SolveAllFromSnoc | efsa-rcl/src/main/java/formula/FormulaSolver.java:81-94 | solving a list grown at its end is solving the list, then the last formula, which is skipped once an exception stopped the run |
| FormulaSolver.SolvedUpToShape | efsa-rcl/src/main/java/formula/FormulaSolver.java:81-94 | while nothing has thrown, the formulas returned so far are exactly those whose solution on the row of that moment was non-empty, in order, and the row has gained exactly their columns |
| FormulaSolver.SolvedUpToValues | efsa-rcl/src/main/java/formula/FormulaSolver.java:86-90 | with one formula per column, each written column holds its formula's solution on the row of that moment, and every column no formula wrote keeps its value |
| FormulaSolver.StoppedStaysStopped | efsa-rcl/src/main/java/formula/FormulaSolver.java:84 | once an exception stopped the run, no later formula changes the row or the list |
| FormulaSolver.SolveAllFromStops | efsa-rcl/src/main/java/formula/FormulaSolver.java:84 | the first formula whose solving throws ends the run with its exception; the values written and the formulas collected before it stay |
| FormulaSolver.SortByCountDistinct | efsa-rcl/src/main/java/formula/FormulaSolver.java:77 | sorting lists no formula twice when the parser did not |
| FormulaSolver.FormulaSolver.Solve | efsa-rcl/src/main/java/formula/FormulaSolver.java:47-55 | the parsed formula is solved and returned, or the exception is passed on; the formula stores the trimmed solution when its text is non-empty and it solved, and otherwise keeps what it held |
| FormulaSolver.FormulaSolver.SolveAll | efsa-rcl/src/main/java/formula/FormulaSolver.java:67-97 | the row and the result are those of solving the sorted list in order; an exception is passed on and keeps the values already written; each formula reached stores what its own solving gave, each formula after the exception keeps its old solution |
| FormulaSolver.FormulaSolver.constructor | efsa-rcl/src/main/java/formula/FormulaSolver.java:32-34 | the solver works on the given row |
| FormulaSolver.FormulaSolver.SolveInto | efsa-rcl/src/main/java/formula/FormulaSolver.java:84-90 | one turn of the loop: the formula is solved on the current row and stores its solution; its column takes the solution only when it is non-empty |
| FormulaSolver.FormulaSolver.SolveInOrder | efsa-rcl/src/main/java/formula/FormulaSolver.java:81-96 | the loop over the sorted formulas: row, result and stored solutions as for SolveAll |
| JavaStrings.TrimIsTrimmedInfix | efsa-rcl/src/main/java/report/Report.java:204-213 | trim removes exactly the leading and trailing characters up to ' ' |
| JavaStrings.TrimIdempotent | efsa-rcl/src/main/java/report/Report.java:208-213 | trimming twice is trimming once |
| JavaStrings.IntToStringRoundTrip | efsa-rcl/src/main/java/formula/FunctionFormula.java:155-162 | parsing a printed int gives it back |
| JavaStrings.SplitJoin | efsa-rcl/src/main/java/formula/FunctionFormula.java:63-74 | split undoes a join of pieces without the separator whose last piece is non-empty |
| JavaStrings.ToUpperProperties | efsa-rcl/src/main/java/report/ReportType.java:13-15 | upper-casing keeps the length, is idempotent and leaves upper-case text alone |
| Reports.Put | efsa-rcl/src/main/java/report/Report.java:39-100 | the column reads the value (empty for null) and every other column is unchanged |
| Reports.PreviousStatus | efsa-rcl/src/main/java/report/Report.java:125-132 | null iff the previous-status column is empty, otherwise the parsed code |
| Reports.WithStatus | efsa-rcl/src/main/java/report/Report.java:112-115 | the status column holds the new status, the previous-status column the old status, and every other column is unchanged |
| Reports.StatusTwice | efsa-rcl/src/main/java/report/Report.java:112-115 | after two status changes the previous status is the first new one; other columns keep their values |
| Reports.HistoryIsOneLevel | efsa-rcl/src/main/java/report/Report.java:112-115 | two rows that differ only in status and previous status are equal after two status changes |
| Reports.MakeEditableKeepsOldStatus | efsa-rcl/src/main/java/report/Report.java:157-159 | making a report editable stores DRAFT and keeps the old status as the previous one |
| Reports.MadeEditableIsEditable | efsa-rcl/src/main/java/report/Report.java:157-168 | after makeEditable the report is editable whenever DRAFT is an editable status |
| Reports.Normalized | efsa-rcl/src/main/java/report/Report.java:204-213 | a non-blank id is stored trimmed; a null or blank id is stored as null; what is stored is non-empty and has nothing left to trim |
| Reports.AggregatorIdRoundTrip | efsa-rcl/src/main/java/report/Report.java:204-217 | reading the aggregator id back gives the normalised value, and the report is aggregated iff the id was non-blank |
| Reports.TypeRoundTrip | efsa-rcl/src/main/java/report/Report.java:117-119 | getType after setType(t) is t, or SIMPLE_MONTHLY for null; visible iff that is SIMPLE_MONTHLY |
| Reports.ColumnsAreDistinct | efsa-rcl/src/main/java/report/Report.java:35-100 | every plain field has a column of its own |
| Reports.SetterTouchesOnlyItsColumn | efsa-rcl/src/main/java/report/Report.java:39-100 | a plain setter changes its field only; status, previous status, aggregator id and type read as before |
| Reports.Report.SetRclStatus | efsa-rcl/src/main/java/report/Report.java:112-115 | the row becomes the status change |
| Reports.Report.MakeEditable | efsa-rcl/src/main/java/report/Report.java:157-159 | the row becomes the DRAFT status change |
| Reports.Report.SetAggregatorId | efsa-rcl/src/main/java/report/Report.java:204-206 | the row stores the normalised id |
| Reports.Report.SetType | efsa-rcl/src/main/java/report/Report.java:227-230 | the row stores the type's name, SIMPLE_MONTHLY for null |
| Reports.Report.Set | efsa-rcl/src/main/java/report/Report.java:219-221 | the row takes the plain field's value |
| ReportTypes.GetOrDefault | efsa-rcl/src/main/java/report/ReportType.java:13-20 | the type whose name is the upper-cased text; null or an unknown name gives SIMPLE_MONTHLY |
| ReportTypes.GetOrDefaultName | efsa-rcl/src/main/java/report/ReportType.java:13-15 | getOrDefault(t.name()) is t |
| ReportTypes.GetOrDefaultIgnoresCase | efsa-rcl/src/main/java/report/ReportType.java:13-15 | matching ignores letter case |
| TrxCodes.HeaderName | efsa-rcl/src/main/java/message/TrxCode.java:4-6 | every header name the constants are built with is five upper-case letters |
| TrxCodes.HeaderNamesDistinct | efsa-rcl/src/main/java/message/TrxCode.java:4-6 | two different constants never have header names equal ignoring case, so `fromString` cannot confuse them |
| TrxCodes.FirstMatch | efsa-rcl/src/main/java/message/TrxCode.java:32-40 | the first code whose header name equals the text ignoring case, none when there is no such code |
| TrxCodes.FromString | efsa-rcl/src/main/java/message/TrxCode.java:32-40 | the result's header name matches the text, or the result is OTHER |
| TrxCodes.FromHeaderName | efsa-rcl/src/main/java/message/TrxCode.java:32-40 | fromString(c.getHeaderName()) is c |
| TrxCodes.FromStringIgnoresCase | efsa-rcl/src/main/java/message/TrxCode.java:35 | matching ignores letter case |
| TrxCodes.UnmatchedIsOther | efsa-rcl/src/main/java/message/TrxCode.java:34-40 | null or unmatched text gives OTHER |
| DataCollections.GetCodes | efsa-rcl/src/main/java/data_collection/GetAvailableDataCollections.java:22-45 | the test code first, then one code per year from the current year down to the starting year; 1 + max(0, current - start + 1) codes |
| DataCollections.KeepValid | efsa-rcl/src/main/java/data_collection/GetAvailableDataCollections.java:51-59 | exactly the recursive filter of the fetched list by valid code: fetched order, every repeated collection kept |
| DataCollections.GetAvailableDcList | efsa-rcl/src/main/java/data_collection/GetAvailableDataCollections.java:47-62 | exactly the filter of the fetched list by "test code or code of a year in range": fetched order, every repeated collection kept |
| DataCollections.FilteredShape | efsa-rcl/src/main/java/data_collection/GetAvailableDataCollections.java:54-59 | the filter keeps the fetched order, keeps each accepted collection as many times as it is fetched and drops every other one |
| DataCollections.FilteredIsSubsequence | efsa-rcl/src/main/java/data_collection/GetAvailableDataCollections.java:54-59 | the filter keeps the fetched order |
| DataCollections.FilteredCount | efsa-rcl/src/main/java/data_collection/GetAvailableDataCollections.java:54-59 | each accepted collection is kept as often as fetched, any other never |
| DataCollections.FilteredAgree | efsa-rcl/src/main/java/data_collection/GetAvailableDataCollections.java:51-59 | two tests that agree on every fetched collection keep the same list |
| ReportFilters.Collect | efsa-rcl/src/main/java/report/GetAmendedReportsThread.java:62-66 | an order-preserving filter with a version above 0; a NumberFormatException iff a row passing the first filters has a non-numeric version |
| ReportFilters.FindFirst | tse-reporting-tool/src/main/java/tse_amend_report/AmendReportListDialog.java:80-88 | the first element that passes, none when none passes, or the exception of an unreadable version met before it |
| ReportFilters.CollectCount | efsa-rcl/src/main/java/report/GetAmendedReportsThread.java:62-66 | a collected list holds every passing element exactly as often as the input does, and no other element |
| ReportFilters.FindFirstFails | tse-reporting-tool/src/main/java/tse_amend_report/AmendReportListDialog.java:80-88 | `findAny` throws exactly when an element passing the first filters with an unreadable version comes before every element that passes all filters |
| ReportFilters.FilterReports | efsa-rcl/src/main/java/report/GetAmendedReportsThread.java:56-67 | exactly the rows of the code, LOCALLY_VALIDATED and with a version above 0, in order and each as often as in the input; a non-numeric version on a row that passed the first two filters throws |
| ReportStore.Select | efsa-rcl/src/main/java/report/Report.java:191-194 | the listed ids whose row holds the value in the column, in listing order |
| ReportStore.Updated | tse-reporting-tool/src/main/java/tse_report/RefreshStatusThread.java:83 | the row is written under its id and the others are unchanged |
| ReportStore.Without | tse-reporting-tool/src/main/java/tse_report/RefreshStatusThread.java:86-91 | the listing without the deleted ids, in order |
| ReportStore.WithoutTwice | tse-reporting-tool/src/main/java/tse_report/RefreshStatusThread.java:86-91 | deleting one by one is deleting all |
| ReportStore.ReportDao.Update | tse-reporting-tool/src/main/java/tse_report/RefreshStatusThread.java:83 | the table becomes the update |
| ReportStore.ReportDao.Delete | tse-reporting-tool/src/main/java/tse_report/RefreshStatusThread.java:89 | the row and its listing go |
| ReportStore.ReportDao.constructor | tse-reporting-tool/src/main/java/tse_report/RefreshStatusThread.java:24-27 | the store holds the given rows in the given listing order |
| RefreshStatus.VersionLessTransitive | tse-reporting-tool/src/main/java/tse_report/RefreshStatusThread.java:58 | the version order is transitive |
| RefreshStatus.VersionLessTotal | tse-reporting-tool/src/main/java/tse_report/RefreshStatusThread.java:58 | the version order is total and asymmetric |
| RefreshStatus.MaxByVersion | tse-reporting-tool/src/main/java/tse_report/RefreshStatusThread.java:55-59 | a listed report whose version no other exceeds, the first such in listing order |
| RefreshStatus.AggregatorOf | tse-reporting-tool/src/main/java/tse_report/RefreshStatusThread.java:55-63 | the report with the highest version among those whose dataset id is the aggregator id; none when not aggregated or none listed |
| RefreshStatus.DirectRefreshTouchesOnlyTheReport | tse-reporting-tool/src/main/java/tse_report/RefreshStatusThread.java:35-63 | without an aggregator only the report's row changes and the message is its own refresh's |
| RefreshStatus.LinkedReportsTakeTheStatus | tse-reporting-tool/src/main/java/tse_report/RefreshStatusThread.java:74-84 | every linked report takes the aggregator's status and keeps its old one as previous; a final status clears the link; other reports keep their row |
| RefreshStatus.FinalStatusDeletesTheVersions | tse-reporting-tool/src/main/java/tse_report/RefreshStatusThread.java:86-91 | a final status deletes exactly the reports with the aggregator's sender id; otherwise nothing is deleted |
| RefreshStatus.RefreshStatusThread.RefreshReport | tse-reporting-tool/src/main/java/tse_report/RefreshStatusThread.java:39 | the refreshed status is recorded on the report, and the message is the refresh's |
| RefreshStatus.RefreshStatusThread.Run | tse-reporting-tool/src/main/java/tse_report/RefreshStatusThread.java:35-48 | the table and the result are the refresh's outcome |
| RefreshStatus.RefreshStatusThread.RefreshAggregatedReport | tse-reporting-tool/src/main/java/tse_report/RefreshStatusThread.java:54-93 | the table and the message are the outcome of refreshing through the aggregator |
| RefreshStatus.RefreshStatusThread.Propagate | tse-reporting-tool/src/main/java/tse_report/RefreshStatusThread.java:74-84 | every linked report is rewritten with the status, without its link when final |
| RefreshStatus.RefreshStatusThread.DeleteAll | tse-reporting-tool/src/main/java/tse_report/RefreshStatusThread.java:86-91 | all the versions are deleted |
| RefreshStatus.RefreshStatusThread.constructor | tse-reporting-tool/src/main/java/tse_report/RefreshStatusThread.java:22-28 | the thread holds the report and the store, and has no result yet |
| AmendReportList.AllReports | tse-reporting-tool/src/main/java/tse_amend_report/AmendReportListDialog.java:80 | a listed report is an id of the listing order together with the row stored under it |
| AmendReportList.AllReportsFollowsTheOrder | tse-reporting-tool/src/main/java/tse_amend_report/AmendReportListDialog.java:80 | the listed ids follow the listing order |
| AmendReportList.AllReportsCountsTheOrder | tse-reporting-tool/src/main/java/tse_amend_report/AmendReportListDialog.java:80 | every stored id of the listing order is listed as often as the order holds it, and no other id |
| AmendReportList.FindAggregator | tse-reporting-tool/src/main/java/tse_amend_report/AmendReportListDialog.java:80-88 | the first listed COLLECTION_AGGREGATION report of the code with a version above 0 that is not finalized, or none when no report qualifies; a NumberFormatException exactly when an aggregation report of the code with a non-numeric version comes before every qualifying one |
| AmendReportList.LinkedReports | tse-reporting-tool/src/main/java/tse_amend_report/AmendReportListDialog.java:90-102 | exactly the visible reports linked to the aggregator, of the code, with a version above 0 and not finalized, each as often as listed; a NumberFormatException exactly when a linked visible report of the code has a non-numeric version |
| AmendReportList.AmendedReports | tse-reporting-tool/src/main/java/tse_amend_report/AmendReportListDialog.java:104-112 | exactly the reports of the code with a version above 0 that are neither finalized nor DRAFT, each as often as listed; a NumberFormatException exactly when a report of the code has a non-numeric version |
| AmendReportList.SendTarget | tse-reporting-tool/src/main/java/tse_amend_report/AmendReportListDialog.java:284-289 | a new aggregator when more than one report is listed; otherwise the loaded aggregator or the single report; nothing only on an empty list without an aggregator |
| AmendReportList.FirstOfVersion | tse-reporting-tool/src/main/java/tse_amend_report/AmendReportListDialog.java:312-315 | the index of the first version equal to the sent one |
| AmendReportList.Dropped | tse-reporting-tool/src/main/java/tse_amend_report/AmendReportListDialog.java:305-311 | exactly the versions that differ from the sent one |
| AmendReportList.DroppedAsWrittenMissesLaterVersions | tse-reporting-tool/src/main/java/tse_amend_report/AmendReportListDialog.java:307-316 | as written, a version listed after the sent one is not deleted |
| AmendReportList.DroppedAsWrittenIsPart | tse-reporting-tool/src/main/java/tse_amend_report/AmendReportListDialog.java:307-316 | what is deleted as written is always meant to be deleted |
| AmendReportList.WrittenBackChangesTheList | tse-reporting-tool/src/main/java/tse_amend_report/AmendReportListDialog.java:318-322 | each listed report is stored changed and the other rows are untouched |
| AmendReportList.RelinkedReport | tse-reporting-tool/src/main/java/tse_amend_report/AmendReportListDialog.java:319-320 | a relinked report reads back the aggregator's status, its old status as previous, and the aggregator's database id |
| AmendReportList.LinkageKeysDiffer | tse-reporting-tool/src/main/java/tse_amend_report/AmendReportListDialog.java:320 | a report linked by the dialog finds no aggregator when refreshed by dataset id |
| AmendReportList.SentVersionIsTheOnlyOneLeft | tse-reporting-tool/src/main/java/tse_amend_report/AmendReportListDialog.java:305-316 | after an aggregator is sent, no other version of it is listed |
| AmendReportList.SentAggregatorRelinksTheList | tse-reporting-tool/src/main/java/tse_amend_report/AmendReportListDialog.java:318-322 | after the send, each listed report carries the sent aggregator's status and id |
| AmendReportList.SubmitTarget | tse-reporting-tool/src/main/java/tse_amend_report/AmendReportListDialog.java:376-382 | a first report that is not aggregated, or whose aggregator id names no stored report, is submitted itself; otherwise the stored report under that id is submitted |
| AmendReportList.RelinkedReportSubmitsItsAggregator | tse-reporting-tool/src/main/java/tse_amend_report/AmendReportListDialog.java:376-382 | a report relinked by a send is submitted through its aggregator |
| AmendReportList.SubmitGivesOneStatus | tse-reporting-tool/src/main/java/tse_amend_report/AmendReportListDialog.java:384-392 | after a submit every listed report has the same status |
| AmendReportList.AmendReportListDialog.constructor | tse-reporting-tool/src/main/java/tse_amend_report/AmendReportListDialog.java:66-77 | the fields are set and the list and aggregator are loaded at once, as the loader leaves them starting from no list and no aggregator |
| AmendReportList.AmendReportListDialog.LoadAmendedMonthlyReports | tse-reporting-tool/src/main/java/tse_amend_report/AmendReportListDialog.java:79-114 | the aggregator and the list as the filters define them; an unreadable version met while looking for the aggregator leaves both fields, one met while listing leaves the list |
| AmendReportList.AmendReportListDialog.WriteBack | tse-reporting-tool/src/main/java/tse_amend_report/AmendReportListDialog.java:318-322 | every listed report is changed and written back |
| AmendReportList.AmendReportListDialog.DeleteVersions | tse-reporting-tool/src/main/java/tse_amend_report/AmendReportListDialog.java:309-311 | the versions are deleted |
| AmendReportList.AmendReportListDialog.OnSendReportComplete | tse-reporting-tool/src/main/java/tse_amend_report/AmendReportListDialog.java:299-326 | the store is what the send completion leaves |
| AmendReportList.AmendReportListDialog.SendReports | tse-reporting-tool/src/main/java/tse_amend_report/AmendReportListDialog.java:284-297 | the report sent is the send target; the send gives it its new status in memory (the aggregator field, or the first listed report when that is what is sent) and in the store, and the store is then what the completion leaves, reading the versions and the listed reports as the send left them |
| AmendReportList.SentList | tse-reporting-tool/src/main/java/tse_amend_report/AmendReportListDialog.java:289-296 | when `reports.get(0)` itself is sent, the first listed report carries the send's status and the rest of the list is unchanged; otherwise the list is unchanged |
| AmendReportList.AmendReportListDialog.Submit | tse-reporting-tool/src/main/java/tse_amend_report/AmendReportListDialog.java:372-397 | nothing on an empty list; otherwise every listed report takes the submitted report's status, the first one starting from its state after the submission when it is itself the submitted object, and the list and aggregator are then reloaded from the changed store, with an error iff the reload met an unreadable version |
| AmendReportList.SubmittedList | tse-reporting-tool/src/main/java/tse_amend_report/AmendReportListDialog.java:378-382 | the list the submit callback walks: the first report already carries the submission's status when it is itself the submitted object, and the list is otherwise unchanged |
| AmendReportList.SubmittedFirstLosesItsFormerStatus | tse-reporting-tool/src/main/java/tse_amend_report/AmendReportListDialog.java:378-391 | when the first listed report is submitted itself and gets a new status, it is stored with that status as its previous status too |
| DcfAckLogs.BestErrorIsListed | dcf-webservice-framework/src/main/java/ack/DcfAckLog.java:111-126 | the error settled on is NONE or one of the listed errors |
| DcfAckLogs.BestErrorHasPriority | dcf-webservice-framework/src/main/java/ack/DcfAckLog.java:111-126 | for a strict priority order, no listed error takes priority over the one settled on |
| DcfAckLogs.DcfAckLog.GetNodesText | dcf-webservice-framework/src/main/java/ack/DcfAckLog.java:168-179 | the texts of the nodes with the tag, in document order |
| DcfAckLogs.DcfAckLog.constructor | dcf-webservice-framework/src/main/java/ack/DcfAckLog.java:24-26 | the log is the given document |
| DcfAckLogs.DcfAckLog.FirstNodeText | dcf-webservice-framework/src/main/java/ack/DcfAckLog.java:187-200 | null iff no node has the tag, otherwise the first node's text |
| DcfAckLogs.DcfAckLog.CodeOf | dcf-webservice-framework/src/main/java/ack/DcfAckLog.java:54-77 | null iff the text is missing or empty, otherwise the parsed text |
| DcfAckLogs.DcfAckLog.DcCode | dcf-webservice-framework/src/main/java/ack/DcfAckLog.java:42-47 | null iff there is no dcCode node, otherwise the first one's text |
| DcfAckLogs.DcfAckLog.MessageValResText | dcf-webservice-framework/src/main/java/ack/DcfAckLog.java:129-131 | null iff there is no messageValResText node, otherwise the first one's text |
| DcfAckLogs.DcfAckLog.DetailedAckResId | dcf-webservice-framework/src/main/java/ack/DcfAckLog.java:134-136 | null iff there is no detailedAckResId node, otherwise the first one's text |
| DcfAckLogs.DcfAckLog.DatasetId | dcf-webservice-framework/src/main/java/ack/DcfAckLog.java:143-145 | null iff there is no datasetId node, otherwise the first one's text |
| DcfAckLogs.DcfAckLog.MessageValResCode | dcf-webservice-framework/src/main/java/ack/DcfAckLog.java:54-62 | null iff the first messageValResCode text is missing or empty, otherwise that text parsed |
| DcfAckLogs.DcfAckLog.OpResCode | dcf-webservice-framework/src/main/java/ack/DcfAckLog.java:69-77 | null iff the first opResCode text is missing or empty, otherwise that text parsed |
| DcfAckLogs.DcfAckLog.DatasetStatus | dcf-webservice-framework/src/main/java/ack/DcfAckLog.java:152-160 | null iff the first datasetStatus text is missing or empty, otherwise that text parsed |
| DcfAckLogs.DcfAckLog.OpResLog | dcf-webservice-framework/src/main/java/ack/DcfAckLog.java:97-99 | the texts of the opResLog nodes; non-empty iff some opResLog node is present |
| DcfAckLogs.DcfAckLog.IsOk | dcf-webservice-framework/src/main/java/ack/DcfAckLog.java:80-88 | true iff the operation result code is present and OK |
| DcfAckLogs.DcfAckLog.HasErrors | dcf-webservice-framework/src/main/java/ack/DcfAckLog.java:102-104 | true iff some opResLog node is present |
| DcfAckLogs.DcfAckLog.GetOpResError | dcf-webservice-framework/src/main/java/ack/DcfAckLog.java:111-126 | the loop settles on the error the reduction defines; NONE without errors |
| DcfLogs.FailingShape | dcf-webservice-framework/src/main/java/dcf_log/DcfLog.java:151-162 | an order-preserving subsequence holding exactly the failing nodes |
| DcfLogs.FailingCount | dcf-webservice-framework/src/main/java/dcf_log/DcfLog.java:146-165 | the failing nodes kept are as many as the failing positions |
| DcfLogs.DcfLog.constructor | dcf-webservice-framework/src/main/java/dcf_log/DcfLog.java:46-64 | every field is its constructor argument |
| DcfLogs.DcfLog.IsMacroOperationCorrect | dcf-webservice-framework/src/main/java/dcf_log/DcfLog.java:127-129 | true iff the macro result is present and OK |
| DcfLogs.DcfLog.GetLogNodesWithErrors | dcf-webservice-framework/src/main/java/dcf_log/DcfLog.java:146-165 | the failing log nodes then the failing validation errors, each in order; their number is the sum of the failing counts |
| PendingRequests.KeptShape | dcf-webservice-framework/src/test/java/pending_request/PendingRequestDaoMock.java:31-41 | an order-preserving subsequence holding exactly the requests with another log code |
| PendingRequests.KeptShrinks | dcf-webservice-framework/src/test/java/pending_request/PendingRequestDaoMock.java:27-44 | removal never grows the list, and shrinks it iff some request has the code |
| PendingRequests.PendingRequestDaoMock.constructor | dcf-webservice-framework/src/test/java/pending_request/PendingRequestDaoMock.java:16-18 | a new store is empty |
| PendingRequests.PendingRequestDaoMock.Insert | dcf-webservice-framework/src/test/java/pending_request/PendingRequestDaoMock.java:21-24 | the request is appended and 0 returned |
| PendingRequests.PendingRequestDaoMock.Remove | dcf-webservice-framework/src/test/java/pending_request/PendingRequestDaoMock.java:27-44 | every request with the code is removed and the rest keep their order; true iff one was removed |
| PendingRequests.PendingRequestDaoMock.GetUserPendingRequests | dcf-webservice-framework/src/test/java/pending_request/PendingRequestDaoMock.java:52-60 | every stored request is appended to the output, in order |
| PendingRequests.PendingRequestDaoMock.GetByResultSet | dcf-webservice-framework/src/test/java/pending_request/PendingRequestDaoMock.java:47-49 | always null |
| ScopenotesWords.NoWordStartsBlank | catalogue-browser/src/main/java/ui_term_properties/ScopenotesWithLinks.java:380-396 | no word iff every character is a space, newline or tab |
| ScopenotesWords.WordSelectedCount | catalogue-browser/src/main/java/ui_term_properties/ScopenotesWithLinks.java:380-396 | the number of maximal runs of non-delimiters; 0 iff the text is blank |
| ScopenotesWords.RetrieveWordOnTheRight | catalogue-browser/src/main/java/ui_term_properties/ScopenotesWithLinks.java:406-435 | the position at the end of the text, one before a space, otherwise the last character of the word |
| ScopenotesWords.RetrieveWordOnTheLeft | catalogue-browser/src/main/java/ui_term_properties/ScopenotesWithLinks.java:445-477 | the start of the word ending at the position, within [0, position], the position itself after a space |
| ScopenotesWords.GetWordBounds | catalogue-browser/src/main/java/ui_term_properties/ScopenotesWithLinks.java:487-523 | 0 <= b0 <= caret <= b1 <= len, no space inside, bounded by spaces or the ends; at the end the right bound is the caret |

## Left out

- HASH and NEXT: the message digest and the random UUID are parameters; digest algorithms are not modelled.
- FunctionFormula.SolveSum: SUM is modelled over integer operands. Java parses them with `Double.valueOf` and prints a non-integral total with a decimal part; floating point is not modelled. The operand parser accepts only an optional sign followed by digits, so an operand Java accepts in another form (`1.0`, ` 1 `, `1e3`, `NaN`, `Infinity`) is WrongParameters in the model; the same holds for FunctionFormula.SumScan and FunctionFormula.SumScanBadOperand.
- FunctionFormula.Solve: SUM gives the corrected total (the second Findings row), not the saturated one that line 324 prints, and so do FunctionFormula.SolveSpec, FunctionFormula.Evaluate, Formula.Formula.Solve and the formula solver built on them.
- JavaStrings.ParseInt: accepts an optional sign and ASCII digits `0`-`9` only; Java's `Integer.parseInt` also accepts the other Unicode decimal digits (Arabic-Indic, full-width and so on). JavaStrings.ParseDecimal, ReportFilters.PositiveVersion, the width of ZERO_PADDING, the counts of LEFT_TRIM and RIGHT_TRIM, and AmendReportList.SubmitTarget inherit this.
- JavaStrings.ToUpper: upper-cases ASCII letters only and keeps the length; Java's locale-dependent `toUpperCase` also maps other letters ('ı' to 'I', "ß" to "SS"). JavaStrings.ToUpperProperties, JavaStrings.EqualsIgnoreCase, ReportTypes.GetOrDefault, TrxCodes.FromString and the name dispatch of FunctionFormula.Solve inherit this.
- Formula fragment finders (`FormulaFinder`, `FormulaParser` and the keyword, relation and comparator fragments) are parameters, not modelled.
- Dependencies.DependencyCache.EvalDependencies: the cache is modelled as a map keyed by (sheet, column, header). `Cell` defines `equals` but not `hashCode`, so real lookups may miss; that is not modelled. A cyclic reference between columns recurses without end in Java; the model requires an acyclic ranking instead.
- The static sharing of the dependency cache between threads is not modelled.
- Reports.RclStatus: `RCLDatasetStatus` is not part of this model; its parser and predicates are parameters.
- `deleteAllVersions` on a report is not modelled; the deletions of the refresh thread and of the dialog are.
- AmendReportList.AmendReportListDialog.SendReports: `createAggregatedReport` is a parameter (the new aggregator), and its own writes to the store are not modelled. The send itself (`TseReportActions.send`, which is not part of this model) is the `Remote` parameter; the model records the status it returns on the sent report and writes that report back under its database id (nothing when it is not stored), and whatever else the send writes is not modelled.
- The dialog's `refreshStatuses`, widgets, menus and UI updates are not modelled.
- AmendReportList.AmendReportListDialog.OnSendReportComplete: the reload after the callback is modelled, but its outcome is stated only when the callback fails.
- AmendReportList.AmendReportListDialog.OnSendReportComplete: deletes every other version of the sent aggregator (the corrected `Dropped` of the first Findings row), not only those listed before the first version equal to it, as the stream at lines 307-316 does. AmendReportList.SendCompleted and AmendReportList.AmendReportListDialog.SendReports share this.
- AmendReportList.AmendReportListDialog.constructor: an unreadable version met by the first load throws out of Java's constructor, so no dialog is made; the model's constructor, which has no way to return the error, finishes with the fields that load leaves.
- AmendReportList.AmendReportListDialog.Submit: the submission itself (`TseReportActions.perform`, which is not part of this model) is the `Remote` parameter; whatever it writes to the store on its own is not modelled, only the status it gives the submitted report in memory and the callback's writes.
- AmendReportList.SubmitTarget: `getById` receives the aggregator id as text; the model reads it as a decimal database id, and a text that is not one finds no report, like an id with no row.
- FormulaSolver.FormulaSolver.SolveAll: the parsed formulas are required to be distinct objects, as the parser builds one new formula per column.
- Dependencies.IsDependentBy: the column id is put into the regular expression unquoted (line 281); the model matches it literally, so an id holding a regular-expression metacharacter is not modelled.
- Report's `setYear` and `setMonth` store a value looked up in the year and month catalogues (`getTableColumnValue`); the catalogues are not part of this model.
- The report service calls `refreshStatus` and `submit` are a parameter (`Remote`) giving the new status and the message.
- ScopenotesWords.GetWordBounds: a caret outside the text throws StringIndexOutOfBoundsException in Java; the model requires the caret to be within the text.
- ScopenotesWords.RetrieveWordOnTheRight and ScopenotesWords.RetrieveWordOnTheLeft: the position is required to be within the text, as the caret is.
- DcfLogs.DcfLog.constructor: the dates are modelled as optional integers; the getters are the fields.
- DcfAckLogs.DcfAckLog: the XML document is modelled as the node texts by tag.
- The remote call of `getAvailableDcList` and the current year are parameters.
- Logging, threads and listeners are not modelled.

## Findings

| source | as written | input that shows it | evidently intended | confidence | as-written member | corrected member |
|---|---|---|---|---|---|---|
| tse-reporting-tool/src/main/java/tse_amend_report/AmendReportListDialog.java:307-316 | the `peek` that deletes the other versions runs before `filter(...).findAny()`; the stream stops at the first version equal to the sent one, so later versions are never peeked | versions listed as ("01", id 2), ("00", id 1) with "01" sent: nothing is deleted | delete every version other than the sent one | not executed | AmendReportList.DroppedAsWrittenMissesLaterVersions | AmendReportList.Dropped |
| efsa-rcl/src/main/java/formula/FunctionFormula.java:324 | an integral total is printed as `(int) totalSum`, which saturates at the 32-bit bounds | SUM(2147483647,1) gives "2147483647" | print the total, 2147483648 | not executed | FunctionFormula.SumSaturatesAsWritten | FunctionFormula.SolveSum |
| tse-reporting-tool/src/main/java/tse_amend_report/AmendReportListDialog.java:320 | the dialog stores the aggregator's database id as each child's aggregator id, while `RefreshStatusThread` (lines 35-45) looks the aggregator up by that id among the dataset ids | a child linked to the aggregator with database id 7 and dataset id "DS1": refreshing the child finds no aggregator and refreshes the child alone | one key on both sides; looked up by database id, as `submit()` does at lines 376-382, a relinked child finds its aggregator | not executed; the source does not show which of the two sites is meant to change, so the refresh thread is modelled as written | AmendReportList.LinkageKeysDiffer | AmendReportList.RelinkedReportSubmitsItsAggregator |
