/**
 * A formula of a table column, solved by a fixed pipeline of literal substitutions:
 * keywords, row keywords, column values, relations, comparisons and finally the built-in
 * functions. Each stage asks a finder for the fragments of the current text and replaces every
 * occurrence of each fragment's text with its solution. The finders are parameters.
 */
module Formula {
  import opened Wrappers
  import opened JavaStrings
  import opened FunctionFormula
  import opened Dependencies

  /** The values of a table row, by column id. */
  type Row = map<string, string>

  /** A table row shared by all the formulas parsed from it. */
  class TableRow {
    var values: Row

    constructor(values: Row)
      ensures this.values == values
    {
      this.values := values;
    }

    /** `row.update(column, value, header)`: the column takes the value. */
    method Update(columnId: string, value: string)
      modifies this
      ensures values == old(values)[columnId := value]
    {
      values := values[columnId := value];
    }
  }

  /** What solving a fragment gives: a text, null, or an exception. */
  datatype Solution = Solved(text: string) | Null | Raises(error: FormulaError)

  /** A fragment found in the text: the exact text it stands for and its solution. */
  datatype Fragment = Fragment(unsolved: string, solution: Solution)

  datatype Comparator = Equal | Disequal

  /** The fragment finders of the pipeline. Those of the row-dependent stages see the row's
      values; the function finder gives the call texts of one function. */
  datatype Finders = Finders(
    keywords: string -> seq<Fragment>,
    rowKeywords: (Row, string) -> seq<Fragment>,
    columns: (Row, string) -> seq<Fragment>,
    relations: (Row, string) -> seq<Fragment>,
    comparators: (string, Comparator) -> seq<Fragment>,
    functions: (string, string) -> seq<string>)

  datatype Stage = Keywords | RowKeywords | Columns | Relations | LogicalOperators | Functions

  /** The order in which `solve` runs the stages. */
  const StageOrder: seq<Stage> := [Keywords, RowKeywords, Columns, Relations, LogicalOperators, Functions]

  /** The order in which the function stage reduces the functions. */
  const FunctionsOrder: seq<string> := [And, Or, Sum, ZeroPadding, RightTrim, LeftTrim, If, IfNotNull, Hash, Next]

  // ---------------------------------------------------------------- replacing fragments

  /** Replaces each fragment in turn: a null solution leaves the text as it is, an exception
      stops everything. */
  function ReplaceFragments(fragments: seq<Fragment>, text: string): Result<string, FormulaError>
  {
    if fragments == [] then Success(text)
    else match fragments[0].solution
      case Raises(e) => Failure(e)
      case Null => ReplaceFragments(fragments[1..], text)
      case Solved(s) => ReplaceFragments(fragments[1..], ReplaceAll(text, fragments[0].unsolved, s))
  }

  /** `replaceFormulasWithSolution`. */
  method ReplaceFormulasWithSolution(fragments: seq<Fragment>, text: string) returns (r: Result<string, FormulaError>)
    ensures r == ReplaceFragments(fragments, text)
  {
    var command := text;
    for i := 0 to |fragments|
      invariant ReplaceFragments(fragments, text) == ReplaceFragments(fragments[i..], command)
    {
      var f := fragments[i];
      assert fragments[i..][1..] == fragments[i + 1..];
      match f.solution {
        case Raises(e) =>
          return Failure(e);
        case Null =>
        case Solved(solved) =>
          command := ReplaceAll(command, f.unsolved, solved);
      }
    }
    r := Success(command);
  }

  /** A fragment that leaves any text as it is: null, or solved to its own text. */
  predicate Inert(f: Fragment) {
    f.solution.Null? || f.solution == Solved(f.unsolved)
  }

  /** Inert fragments leave the text unchanged. */
  lemma {:induction false} ReplaceInertFragments(fragments: seq<Fragment>, text: string)
    requires forall k :: 0 <= k < |fragments| ==> Inert(fragments[k])
    ensures ReplaceFragments(fragments, text) == Success(text)
  {
    if fragments != [] {
      if fragments[0].solution.Solved? {
        ReplaceWithItself(text, fragments[0].unsolved);
      }
      ReplaceInertFragments(fragments[1..], text);
    }
  }

  /** The first fragment that raises an exception decides the outcome, whatever follows it. */
  lemma {:induction false} ReplaceStopsAtException(fragments: seq<Fragment>, text: string, k: nat)
    requires k < |fragments| && fragments[k].solution.Raises?
    requires forall j :: 0 <= j < k ==> !fragments[j].solution.Raises?
    ensures ReplaceFragments(fragments, text) == Failure(fragments[k].solution.error)
  {
    if k > 0 {
      var next := if fragments[0].solution.Solved? then ReplaceAll(text, fragments[0].unsolved, fragments[0].solution.text) else text;
      ReplaceStopsAtException(fragments[1..], next, k - 1);
    }
  }

  function WithoutNull(fragments: seq<Fragment>): seq<Fragment> {
    if fragments == [] then []
    else (if fragments[0].solution.Null? then [] else [fragments[0]]) + WithoutNull(fragments[1..])
  }

  /** Fragments with a null solution play no part. */
  lemma {:induction false} NullFragmentsSkipped(fragments: seq<Fragment>, text: string)
    ensures ReplaceFragments(fragments, text) == ReplaceFragments(WithoutNull(fragments), text)
  {
    if fragments != [] {
      var rest := WithoutNull(fragments[1..]);
      if fragments[0].solution.Null? {
        assert WithoutNull(fragments) == rest;
        NullFragmentsSkipped(fragments[1..], text);
      } else {
        assert ([fragments[0]] + rest)[0] == fragments[0] && ([fragments[0]] + rest)[1..] == rest;
        if fragments[0].solution.Solved? {
          NullFragmentsSkipped(fragments[1..], ReplaceAll(text, fragments[0].unsolved, fragments[0].solution.text));
        }
      }
    }
  }

  // ---------------------------------------------------------------- the stages

  /** Each found function text builds a `FunctionFormula`, which compiles it. */
  function CompileAll(texts: seq<string>): (r: Result<seq<FunctionCall>, FormulaError>)
    ensures r.Success? <==> forall k :: 0 <= k < |texts| ==> CompileSpec(texts[k]).Success?
    ensures r.Success? ==> |r.value| == |texts| && forall k :: 0 <= k < |texts| ==> CompileSpec(texts[k]) == Success(r.value[k])
  {
    if texts == [] then Success([])
    else match CompileSpec(texts[0])
      case Failure(e) => Failure(e)
      case Success(call) =>
        match CompileAll(texts[1..])
        case Failure(e) => Failure(e)
        case Success(calls) => Success([call] + calls)
  }

  /** A compiled call as a fragment: its text and what `solve` gives for it. */
  function CallFragments(calls: seq<FunctionCall>, env: Env): (fs: seq<Fragment>)
    ensures |fs| == |calls|
  {
    seq(|calls|, k requires 0 <= k < |calls| =>
      Fragment(calls[k].formula, match SolveSpec(calls[k], env) {
        case Success(v) => Solved(v)
        case Failure(e) => Raises(e)
      }))
  }

  /** `solveFunctionsFormula`: for each function in turn, the calls found in the current text
      are replaced by their values; a function with no call changes nothing. */
  function SolveFunctions(names: seq<string>, text: string, finders: Finders, env: Env): Result<string, FormulaError>
  {
    if names == [] then Success(text)
    else
      var texts := finders.functions(text, names[0]);
      if texts == [] then SolveFunctions(names[1..], text, finders, env)
      else match CompileAll(texts)
        case Failure(e) => Failure(e)
        case Success(calls) =>
          match ReplaceFragments(CallFragments(calls, env), text)
          case Failure(e) => Failure(e)
          case Success(t) => SolveFunctions(names[1..], t, finders, env)
  }

  function RunStage(stage: Stage, text: string, row: Row, finders: Finders, env: Env): Result<string, FormulaError> {
    match stage
    case Keywords => ReplaceFragments(finders.keywords(text), text)
    case RowKeywords => ReplaceFragments(finders.rowKeywords(row, text), text)
    case Columns => ReplaceFragments(finders.columns(row, text), text)
    case Relations => ReplaceFragments(finders.relations(row, text), text)
    case LogicalOperators => ReplaceFragments(finders.comparators(text, Equal) + finders.comparators(text, Disequal), text)
    case Functions => SolveFunctions(FunctionsOrder, text, finders, env)
  }

  /** Runs the stages in order, each on the text the previous one produced. */
  function RunStages(stages: seq<Stage>, text: string, row: Row, finders: Finders, env: Env): Result<string, FormulaError> {
    if stages == [] then Success(text)
    else match RunStage(stages[0], text, row, finders, env)
      case Failure(e) => Failure(e)
      case Success(t) => RunStages(stages[1..], t, row, finders, env)
  }

  /** `solve`: a null or empty formula gives "" without running any stage; otherwise the
      output of the stages, trimmed. */
  function SolveText(formula: Option<string>, row: Row, finders: Finders, env: Env): (r: Result<string, FormulaError>)
    ensures r.Success? ==> Trim(r.value) == r.value
  {
    if formula.None? || formula.value == "" then Success("")
    else match RunStages(StageOrder, formula.value, row, finders, env)
      case Failure(e) => Failure(e)
      case Success(v) => TrimIdempotent(v); Success(Trim(v))
  }

  /** The solution a formula holds after `solve` gave `r`: a successful solution of a non-empty
      formula replaces the one it held, anything else leaves it. */
  function Stored(previous: Option<string>, formula: Option<string>, r: Result<string, FormulaError>): (stored: Option<string>)
    ensures stored != previous ==> r.Success? && stored == Some(r.value)
    ensures r.Success? && formula.Some? && formula.value != "" ==> stored == Some(r.value)
    ensures (formula.None? || formula == Some("")) ==> stored == previous
  {
    if r.Success? && formula.Some? && formula.value != "" then Some(r.value) else previous
  }

  /** A null or empty formula runs no stage: its solution depends on nothing else. */
  lemma EmptyFormulaRunsNoStage(formula: Option<string>, row1: Row, finders1: Finders, env1: Env, row2: Row, finders2: Finders, env2: Env)
    requires formula.None? || formula == Some("")
    ensures SolveText(formula, row1, finders1, env1) == SolveText(formula, row2, finders2, env2) == Success("")
  {
  }

  /** Finders that find only inert fragments and no function call. */
  ghost predicate InertFinders(finders: Finders, row: Row) {
    && (forall t, k :: 0 <= k < |finders.keywords(t)| ==> Inert(finders.keywords(t)[k]))
    && (forall t, k :: 0 <= k < |finders.rowKeywords(row, t)| ==> Inert(finders.rowKeywords(row, t)[k]))
    && (forall t, k :: 0 <= k < |finders.columns(row, t)| ==> Inert(finders.columns(row, t)[k]))
    && (forall t, k :: 0 <= k < |finders.relations(row, t)| ==> Inert(finders.relations(row, t)[k]))
    && (forall t, c, k :: 0 <= k < |finders.comparators(t, c)| ==> Inert(finders.comparators(t, c)[k]))
    && (forall t, name :: finders.functions(t, name) == [])
  }

  lemma {:induction false} NoFunctionCalls(names: seq<string>, text: string, finders: Finders, env: Env)
    requires forall t, name :: finders.functions(t, name) == []
    ensures SolveFunctions(names, text, finders, env) == Success(text)
  {
    if names != [] {
      NoFunctionCalls(names[1..], text, finders, env);
    }
  }

  /** When nothing found changes the text, the solution is the formula trimmed. */
  lemma SolveWithInertFragments(formula: string, row: Row, finders: Finders, env: Env)
    requires InertFinders(finders, row)
    ensures SolveText(Some(formula), row, finders, env) == Success(Trim(formula))
  {
    if formula != "" {
      var t := formula;
      ReplaceInertFragments(finders.keywords(t), t);
      ReplaceInertFragments(finders.rowKeywords(row, t), t);
      ReplaceInertFragments(finders.columns(row, t), t);
      ReplaceInertFragments(finders.relations(row, t), t);
      var cmp := finders.comparators(t, Equal) + finders.comparators(t, Disequal);
      forall k | 0 <= k < |cmp| ensures Inert(cmp[k]) {
        if k < |finders.comparators(t, Equal)| {
          assert cmp[k] == finders.comparators(t, Equal)[k];
        } else {
          assert cmp[k] == finders.comparators(t, Disequal)[k - |finders.comparators(t, Equal)|];
        }
      }
      ReplaceInertFragments(cmp, t);
      NoFunctionCalls(FunctionsOrder, t, finders, env);
      assert RunStages(StageOrder[5..], t, row, finders, env) == Success(t);
      assert RunStages(StageOrder[4..], t, row, finders, env) == Success(t);
      assert RunStages(StageOrder[3..], t, row, finders, env) == Success(t);
      assert RunStages(StageOrder[2..], t, row, finders, env) == Success(t);
      assert RunStages(StageOrder[1..], t, row, finders, env) == Success(t);
    }
  }

  /** Running the stages from the `k`-th on: the `k`-th stage, then the rest on its output. */
  lemma StageStep(k: nat, text: string, row: Row, finders: Finders, env: Env)
    requires k < |StageOrder|
    ensures var next := RunStage(StageOrder[k], text, row, finders, env);
      RunStages(StageOrder[k..], text, row, finders, env) ==
        if next.Failure? then Failure(next.error) else RunStages(StageOrder[k + 1..], next.value, row, finders, env)
  {
    assert StageOrder[k..][0] == StageOrder[k] && StageOrder[k..][1..] == StageOrder[k + 1..];
    if k + 1 == |StageOrder| {
      assert StageOrder[k + 1..] == [];
    }
  }

  // ---------------------------------------------------------------- the formula object

  /** A formula of one column of a row, under one field header. */
  class Formula {
    const row: TableRow
    const column: TableColumn
    const fieldHeader: string
    const formula: Option<string>
    const dependenciesCount: nat
    var solvedFormula: Option<string>

    /** Reads the column's field and evaluates its dependency count through the cache. */
    constructor(row: TableRow, sheet: string, schema: seq<TableColumn>, column: TableColumn, fieldHeader: string,
                cache: DependencyCache, ghost rank: map<string, nat>)
      requires Ranked(schema, fieldHeader, rank) && UniqueIds(schema) && column in schema
      requires cache.Sound(sheet, schema, fieldHeader, rank)
      modifies cache
      ensures this.row == row && this.column == column && this.fieldHeader == fieldHeader
      ensures formula == FieldOf(column, fieldHeader) && solvedFormula.None?
      ensures dependenciesCount == DepCount(schema, fieldHeader, rank, column)
      ensures cache.Sound(sheet, schema, fieldHeader, rank)
      ensures Cell(sheet, column.id, fieldHeader) in cache.entries
    {
      var count := cache.EvalDependencies(sheet, schema, fieldHeader, rank, column);
      this.row := row;
      this.column := column;
      this.fieldHeader := fieldHeader;
      this.formula := FieldOf(column, fieldHeader);
      this.dependenciesCount := count;
      this.solvedFormula := None;
    }

    method SolveKeywords(finders: Finders, value: string) returns (r: Result<string, FormulaError>)
      ensures r == ReplaceFragments(finders.keywords(value), value)
    {
      r := ReplaceFormulasWithSolution(finders.keywords(value), value);
    }

    method SolveRowKeywords(finders: Finders, value: string) returns (r: Result<string, FormulaError>)
      ensures r == ReplaceFragments(finders.rowKeywords(row.values, value), value)
    {
      r := ReplaceFormulasWithSolution(finders.rowKeywords(row.values, value), value);
    }

    method SolveColumnsFormula(finders: Finders, value: string) returns (r: Result<string, FormulaError>)
      ensures r == ReplaceFragments(finders.columns(row.values, value), value)
    {
      r := ReplaceFormulasWithSolution(finders.columns(row.values, value), value);
    }

    method SolveRelationFormula(finders: Finders, value: string) returns (r: Result<string, FormulaError>)
      ensures r == ReplaceFragments(finders.relations(row.values, value), value)
    {
      r := ReplaceFormulasWithSolution(finders.relations(row.values, value), value);
    }

    /** All EQUAL comparisons of the text, then all DISEQUAL ones, both found on the same text. */
    method SolveLogicalOperators(finders: Finders, value: string) returns (r: Result<string, FormulaError>)
      ensures r == ReplaceFragments(finders.comparators(value, Equal) + finders.comparators(value, Disequal), value)
    {
      var comparisonFormulas := finders.comparators(value, Equal);
      comparisonFormulas := comparisonFormulas + finders.comparators(value, Disequal);
      r := ReplaceFormulasWithSolution(comparisonFormulas, value);
    }

    method SolveFunctionsFormula(finders: Finders, env: Env, value: string) returns (r: Result<string, FormulaError>)
      ensures r == SolveFunctions(FunctionsOrder, value, finders, env)
    {
      var command := value;
      for i := 0 to |FunctionsOrder|
        invariant SolveFunctions(FunctionsOrder, value, finders, env) == SolveFunctions(FunctionsOrder[i..], command, finders, env)
      {
        assert FunctionsOrder[i..][1..] == FunctionsOrder[i + 1..];
        var list := finders.functions(command, FunctionsOrder[i]);
        if list != [] {
          var calls := CompileAll(list);
          if calls.Failure? {
            return Failure(calls.error);
          }
          var step := ReplaceFormulasWithSolution(CallFragments(calls.value, env), command);
          if step.Failure? {
            return Failure(step.error);
          }
          command := step.value;
        }
      }
      r := Success(command);
    }

    /** `solve`: runs the stages in order and stores the trimmed result. */
    method Solve(finders: Finders, env: Env) returns (r: Result<string, FormulaError>)
      modifies this
      ensures r == SolveText(formula, row.values, finders, env)
      ensures solvedFormula == Stored(old(solvedFormula), formula, r)
    {
      if formula.None? || formula.value == "" {
        return Success("");
      }
      var value := formula.value;
      ghost var rowValues := row.values;
      ghost var whole := RunStages(StageOrder, value, rowValues, finders, env);
      assert StageOrder[0..] == StageOrder;
      var step := SolveKeywords(finders, value);
      StageStep(0, value, rowValues, finders, env);
      if step.Failure? {
        return Failure(step.error);
      }
      var text := step.value;
      assert whole == RunStages(StageOrder[1..], text, rowValues, finders, env);
      step := SolveRowKeywords(finders, text);
      StageStep(1, text, rowValues, finders, env);
      if step.Failure? {
        return Failure(step.error);
      }
      text := step.value;
      assert whole == RunStages(StageOrder[2..], text, rowValues, finders, env);
      step := SolveColumnsFormula(finders, text);
      StageStep(2, text, rowValues, finders, env);
      if step.Failure? {
        return Failure(step.error);
      }
      text := step.value;
      assert whole == RunStages(StageOrder[3..], text, rowValues, finders, env);
      step := SolveRelationFormula(finders, text);
      StageStep(3, text, rowValues, finders, env);
      if step.Failure? {
        return Failure(step.error);
      }
      text := step.value;
      assert whole == RunStages(StageOrder[4..], text, rowValues, finders, env);
      step := SolveLogicalOperators(finders, text);
      StageStep(4, text, rowValues, finders, env);
      if step.Failure? {
        return Failure(step.error);
      }
      text := step.value;
      assert whole == RunStages(StageOrder[5..], text, rowValues, finders, env);
      step := SolveFunctionsFormula(finders, env, text);
      StageStep(5, text, rowValues, finders, env);
      if step.Failure? {
        return Failure(step.error);
      }
      assert whole == Success(step.value);
      solvedFormula := Some(Trim(step.value));
      r := Success(Trim(step.value));
    }
  }
}
