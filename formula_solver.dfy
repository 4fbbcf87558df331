/**
 * Solving all the formulas of a row: the formulas are sorted by dependency count, then solved
 * one after the other, and every non-empty result is written into the row before the next
 * formula is solved, so that a formula sees the values of the columns it refers to.
 */
module FormulaSolver {
  import opened Wrappers
  import opened JavaStrings
  import opened FunctionFormula
  import opened Dependencies
  import opened Formula
  import opened Sequences

  /** `DependenciesSorter.compare` on two dependency counts. */
  function Compare(dep0: nat, dep1: nat): (r: int)
    ensures r == -1 || r == 0 || r == 1
    ensures r < 0 <==> dep0 < dep1
    ensures r > 0 <==> dep0 > dep1
  {
    if dep0 == dep1 then 0 else if dep0 < dep1 then -1 else 1
  }

  /** The comparator is a total order: antisymmetric and transitive. */
  lemma CompareIsTotalOrder(a: nat, b: nat, c: nat)
    ensures Compare(a, b) == -Compare(b, a)
    ensures Compare(a, b) <= 0 && Compare(b, c) <= 0 ==> Compare(a, c) <= 0
    ensures Compare(a, b) == 0 ==> Compare(a, c) == Compare(b, c)
  {
  }

  // ---------------------------------------------------------------- the stable sort

  predicate SortedByCount(s: seq<Formula>) {
    forall i, j :: 0 <= i < j < |s| ==> s[i].dependenciesCount <= s[j].dependenciesCount
  }

  /** Inserts `f` after every formula whose count is not larger. */
  function InsertByCount(sorted: seq<Formula>, f: Formula): seq<Formula> {
    if sorted == [] || Compare(f.dependenciesCount, sorted[0].dependenciesCount) < 0 then [f] + sorted
    else [sorted[0]] + InsertByCount(sorted[1..], f)
  }

  /** `Collections.sort` with the dependency comparator: a stable sort by count. */
  function SortByCount(s: seq<Formula>): seq<Formula> {
    if s == [] then [] else InsertByCount(SortByCount(s[..|s| - 1]), s[|s| - 1])
  }

  /** The formulas of `s` whose count is `k`, in order. */
  function WithCount(s: seq<Formula>, k: nat): seq<Formula> {
    if s == [] then [] else (if s[0].dependenciesCount == k then [s[0]] else []) + WithCount(s[1..], k)
  }

  lemma {:induction false} WithCountAppend(a: seq<Formula>, b: seq<Formula>, k: nat)
    ensures WithCount(a + b, k) == WithCount(a, k) + WithCount(b, k)
  {
    if a != [] {
      WithCountAppend(a[1..], b, k);
      assert (a + b)[1..] == a[1..] + b;
    } else {
      assert a + b == b;
    }
  }

  lemma {:induction false} InsertByCountMultiset(sorted: seq<Formula>, f: Formula)
    ensures multiset(InsertByCount(sorted, f)) == multiset(sorted) + multiset{f}
  {
    if sorted != [] && f.dependenciesCount >= sorted[0].dependenciesCount {
      InsertByCountMultiset(sorted[1..], f);
      assert sorted == [sorted[0]] + sorted[1..];
    }
  }

  /** Inserting keeps a lower bound that `f` and every element of `sorted` meet. */
  lemma {:induction false} InsertByCountBound(sorted: seq<Formula>, f: Formula, b: nat)
    requires b <= f.dependenciesCount && forall j :: 0 <= j < |sorted| ==> b <= sorted[j].dependenciesCount
    ensures forall j :: 0 <= j < |InsertByCount(sorted, f)| ==> b <= InsertByCount(sorted, f)[j].dependenciesCount
  {
    if sorted != [] && f.dependenciesCount >= sorted[0].dependenciesCount {
      InsertByCountBound(sorted[1..], f, b);
    }
  }

  lemma {:induction false} InsertByCountSorted(sorted: seq<Formula>, f: Formula)
    requires SortedByCount(sorted)
    ensures SortedByCount(InsertByCount(sorted, f))
  {
    if sorted != [] && f.dependenciesCount >= sorted[0].dependenciesCount {
      InsertByCountSorted(sorted[1..], f);
      InsertByCountBound(sorted[1..], f, sorted[0].dependenciesCount);
      var rest := InsertByCount(sorted[1..], f);
      assert ([sorted[0]] + rest)[1..] == rest;
    }
  }

  lemma {:induction false} InsertByCountWithCount(sorted: seq<Formula>, f: Formula, k: nat)
    requires SortedByCount(sorted)
    ensures WithCount(InsertByCount(sorted, f), k) == WithCount(sorted, k) + (if f.dependenciesCount == k then [f] else [])
  {
    if sorted == [] || f.dependenciesCount < sorted[0].dependenciesCount {
      assert ([f] + sorted)[1..] == sorted;
      if f.dependenciesCount == k {
        WithCountAbove(sorted, k);
      }
    } else {
      InsertByCountWithCount(sorted[1..], f, k);
      var rest := InsertByCount(sorted[1..], f);
      assert ([sorted[0]] + rest)[1..] == rest;
    }
  }

  /** In a sorted list whose first count is above `k`, nothing has count `k`. */
  lemma {:induction false} WithCountAbove(sorted: seq<Formula>, k: nat)
    requires SortedByCount(sorted)
    requires sorted == [] || k < sorted[0].dependenciesCount
    ensures WithCount(sorted, k) == []
  {
    if sorted != [] {
      if |sorted| > 1 {
        assert sorted[0].dependenciesCount <= sorted[1].dependenciesCount;
      }
      WithCountAbove(sorted[1..], k);
    }
  }

  /** The sort orders by count, keeps every formula, and keeps the parser's order among equal
      counts. */
  lemma {:induction false} SortByCountIsStableSort(s: seq<Formula>)
    ensures SortedByCount(SortByCount(s))
    ensures multiset(SortByCount(s)) == multiset(s)
    ensures forall k :: WithCount(SortByCount(s), k) == WithCount(s, k)
  {
    if s != [] {
      var init, last := s[..|s| - 1], s[|s| - 1];
      SortByCountIsStableSort(init);
      assert s == init + [last];
      forall k ensures WithCount(SortByCount(s), k) == WithCount(s, k) {
        InsertByCountWithCount(SortByCount(init), last, k);
        WithCountAppend(init, [last], k);
      }
      InsertByCountSorted(SortByCount(init), last);
      InsertByCountMultiset(SortByCount(init), last);
    }
  }

  // ---------------------------------------------------------------- solving in order


  /** What solving a list of formulas leaves: the row's values, the list of formulas with a
      non-empty solution, and the exception that stopped it, if any. */
  datatype Outcome = Outcome(values: Row, solved: seq<Formula>, error: Option<FormulaError>)

  /** How each formula's text is solved on a row's values. */
  type FormulaOutcome = (Option<string>, Row) -> Result<string, FormulaError>

  /** The formula pipeline with these finders and function collaborators. */
  function TextSolver(finders: Finders, env: Env): FormulaOutcome {
    (formula, values) => SolveText(formula, values, finders, env)
  }

  /** Solves `fs` in order on a row holding `values`, after `solved` has been collected. */
  function SolveAllFrom(fs: seq<Formula>, values: Row, solved: seq<Formula>, solve: FormulaOutcome): Outcome
  {
    if fs == [] then Outcome(values, solved, None)
    else match solve(fs[0].formula, values)
      case Failure(e) => Outcome(values, solved, Some(e))
      case Success(v) =>
        if v == "" then SolveAllFrom(fs[1..], values, solved, solve)
        else SolveAllFrom(fs[1..], values[fs[0].column.id := v], solved + [fs[0]], solve)
  }

  /** The formulas returned are, in order, some of the formulas solved, after those collected
      before. */
  lemma {:induction false} SolveAllFromSubsequence(fs: seq<Formula>, values: Row, solved: seq<Formula>, solve: FormulaOutcome)
    ensures var o := SolveAllFrom(fs, values, solved, solve);
      |o.solved| >= |solved| && o.solved[..|solved|] == solved && IsSubsequence(o.solved[|solved|..], fs)
  {
    if fs != [] {
      var step := solve(fs[0].formula, values);
      if step.Success? && step.value == "" {
        SolveAllFromSubsequence(fs[1..], values, solved, solve);
        var o := SolveAllFrom(fs[1..], values, solved, solve);
        if o.solved[|solved|..] != [] {
          assert IsSubsequence(o.solved[|solved|..], fs[1..]);
        }
      } else if step.Success? {
        var values' := values[fs[0].column.id := step.value];
        SolveAllFromSubsequence(fs[1..], values', solved + [fs[0]], solve);
        var o := SolveAllFrom(fs[1..], values', solved + [fs[0]], solve);
        assert o.solved[|solved|..][0] == fs[0];
        assert o.solved[|solved|..][1..] == o.solved[|solved| + 1..];
      }
    }
  }

  /** The row keeps its columns and gains only the columns of formulas returned. */
  lemma {:induction false} SolveAllFromWrites(fs: seq<Formula>, values: Row, solved: seq<Formula>, solve: FormulaOutcome)
    ensures var o := SolveAllFrom(fs, values, solved, solve);
      && values.Keys <= o.values.Keys && |o.solved| >= |solved|
      && forall id :: id in o.values && id !in values ==> exists f :: f in o.solved[|solved|..] && f.column.id == id
  {
    SolveAllFromSubsequence(fs, values, solved, solve);
    if fs != [] {
      var step := solve(fs[0].formula, values);
      if step.Success? && step.value == "" {
        SolveAllFromWrites(fs[1..], values, solved, solve);
      } else if step.Success? {
        var values' := values[fs[0].column.id := step.value];
        SolveAllFromWrites(fs[1..], values', solved + [fs[0]], solve);
        SolveAllFromSubsequence(fs[1..], values', solved + [fs[0]], solve);
        var o := SolveAllFrom(fs[1..], values', solved + [fs[0]], solve);
        assert o.solved[|solved|..][0] == fs[0];
        forall id | id in o.values && id !in values
          ensures exists f :: f in o.solved[|solved|..] && f.column.id == id
        {
          if id == fs[0].column.id {
            assert fs[0] in o.solved[|solved|..];
          } else {
            var f :| f in o.solved[|solved| + 1..] && f.column.id == id;
            assert o.solved[|solved| + 1..] == o.solved[|solved|..][1..];
          }
        }
      }
    }
  }

  /** Formulas that all solve to "" on the row write nothing and return nothing, whatever
      solves them. */
  lemma {:induction false} EmptySolutionsChangeNothing(fs: seq<Formula>, values: Row, solved: seq<Formula>, solve: FormulaOutcome)
    requires forall k :: 0 <= k < |fs| ==> solve(fs[k].formula, values) == Success("")
    ensures SolveAllFrom(fs, values, solved, solve) == Outcome(values, solved, None)
  {
    if fs != [] {
      EmptySolutionsChangeNothing(fs[1..], values, solved, solve);
    }
  }

  /** In particular, null or empty formula texts write nothing and return nothing. */
  lemma EmptyFormulasChangeNothing(fs: seq<Formula>, values: Row, solved: seq<Formula>, finders: Finders, env: Env)
    requires forall k :: 0 <= k < |fs| ==> fs[k].formula.None? || fs[k].formula == Some("")
    ensures SolveAllFrom(fs, values, solved, TextSolver(finders, env)) == Outcome(values, solved, None)
  {
    EmptySolutionsChangeNothing(fs, values, solved, TextSolver(finders, env));
  }

  // ---------------------------------------------------------------- one formula at a time

  /** One more formula solved after the outcome `o`: nothing happens once an exception stopped
      the run; otherwise a non-empty solution is written into the row and the formula kept. */
  function SolveNext(o: Outcome, f: Formula, solve: FormulaOutcome): Outcome {
    if o.error.Some? then o
    else match solve(f.formula, o.values)
      case Failure(e) => Outcome(o.values, o.solved, Some(e))
      case Success(v) => if v == "" then o else Outcome(o.values[f.column.id := v], o.solved + [f], None)
  }

  /** Solving a list that grows at its end is solving the list, then the last formula. */
  lemma {:induction false} SolveAllFromSnoc(fs: seq<Formula>, f: Formula, values: Row, solved: seq<Formula>, solve: FormulaOutcome)
    ensures SolveAllFrom(fs + [f], values, solved, solve) == SolveNext(SolveAllFrom(fs, values, solved, solve), f, solve)
  {
    if fs == [] {
      assert fs + [f] == [f] && [f][1..] == [];
    } else {
      assert (fs + [f])[0] == fs[0] && (fs + [f])[1..] == fs[1..] + [f];
      match solve(fs[0].formula, values)
      case Failure(e) =>
      case Success(v) =>
        if v == "" {
          SolveAllFromSnoc(fs[1..], f, values, solved, solve);
        } else {
          SolveAllFromSnoc(fs[1..], f, values[fs[0].column.id := v], solved + [fs[0]], solve);
        }
    }
  }

  /** The outcome once the first `k` formulas are solved: the row the `k`-th formula is solved on. */
  function SolvedUpTo(fs: seq<Formula>, values: Row, solved: seq<Formula>, solve: FormulaOutcome, k: nat): Outcome
    requires k <= |fs|
  {
    SolveAllFrom(fs[..k], values, solved, solve)
  }

  /** The solution of the `k`-th formula on the row of that moment. */
  function SolutionAt(fs: seq<Formula>, values: Row, solved: seq<Formula>, solve: FormulaOutcome, k: nat): Result<string, FormulaError>
    requires k < |fs|
  {
    solve(fs[k].formula, SolvedUpTo(fs, values, solved, solve, k).values)
  }

  /** The `k`-th formula solved to a non-empty text, which is then written into the row. */
  predicate Written(fs: seq<Formula>, values: Row, solved: seq<Formula>, solve: FormulaOutcome, k: nat)
    requires k < |fs|
  {
    var s := SolutionAt(fs, values, solved, solve, k);
    s.Success? && s.value != ""
  }

  lemma SolvedUpToStep(fs: seq<Formula>, values: Row, solved: seq<Formula>, solve: FormulaOutcome, k: nat)
    requires k < |fs|
    ensures SolvedUpTo(fs, values, solved, solve, k + 1) == SolveNext(SolvedUpTo(fs, values, solved, solve, k), fs[k], solve)
  {
    assert fs[..k + 1] == fs[..k] + [fs[k]];
    SolveAllFromSnoc(fs[..k], fs[k], values, solved, solve);
  }

  lemma SolvedUpToAll(fs: seq<Formula>, values: Row, solved: seq<Formula>, solve: FormulaOutcome)
    ensures SolvedUpTo(fs, values, solved, solve, |fs|) == SolveAllFrom(fs, values, solved, solve)
  {
    assert fs[..|fs|] == fs;
  }

  /** While every formula so far has solved, the run has not stopped, the formulas returned are
      exactly those written, in order after the ones collected before, and the row has gained
      exactly the columns of the formulas written. */
  lemma {:induction false} SolvedUpToShape(fs: seq<Formula>, values: Row, solved: seq<Formula>, solve: FormulaOutcome, k: nat)
    requires k <= |fs|
    requires forall j :: 0 <= j < k ==> SolutionAt(fs, values, solved, solve, j).Success?
    ensures var o := SolvedUpTo(fs, values, solved, solve, k);
      && o.error.None?
      && |o.solved| >= |solved| && o.solved[..|solved|] == solved
      && (forall f :: f in o.solved[|solved|..] <==>
            exists j :: 0 <= j < k && fs[j] == f && Written(fs, values, solved, solve, j))
      && (forall id :: id in o.values <==>
            id in values || exists j :: 0 <= j < k && fs[j].column.id == id && Written(fs, values, solved, solve, j))
  {
    if k > 0 {
      SolvedUpToShape(fs, values, solved, solve, k - 1);
      SolvedUpToStep(fs, values, solved, solve, k - 1);
      var before := SolvedUpTo(fs, values, solved, solve, k - 1);
      var o := SolvedUpTo(fs, values, solved, solve, k);
      if Written(fs, values, solved, solve, k - 1) {
        assert o.solved == before.solved + [fs[k - 1]];
        assert o.solved[|solved|..] == before.solved[|solved|..] + [fs[k - 1]];
      } else {
        assert o == before;
      }
    } else {
      assert SolvedUpTo(fs, values, solved, solve, 0) == Outcome(values, solved, None);
    }
  }

  /** No two formulas are of the same column. */
  predicate DistinctColumns(fs: seq<Formula>) {
    forall i, j :: 0 <= i < j < |fs| ==> fs[i].column.id != fs[j].column.id
  }

  /** While every formula so far has solved, and no two are of the same column, a column written
      holds its formula's solution, and every other column keeps its value. */
  lemma {:induction false} SolvedUpToValues(fs: seq<Formula>, values: Row, solved: seq<Formula>, solve: FormulaOutcome, k: nat)
    requires k <= |fs| && DistinctColumns(fs)
    requires forall j :: 0 <= j < k ==> SolutionAt(fs, values, solved, solve, j).Success?
    ensures var o := SolvedUpTo(fs, values, solved, solve, k);
      && (forall j :: 0 <= j < k && Written(fs, values, solved, solve, j) ==>
            fs[j].column.id in o.values && o.values[fs[j].column.id] == SolutionAt(fs, values, solved, solve, j).value)
      && (forall id :: id in values && NotWrittenBefore(fs, values, solved, solve, k, id) ==>
            id in o.values && o.values[id] == values[id])
  {
    if k > 0 {
      SolvedUpToValues(fs, values, solved, solve, k - 1);
      SolvedUpToStep(fs, values, solved, solve, k - 1);
      SolvedUpToShape(fs, values, solved, solve, k - 1);
    } else {
      assert SolvedUpTo(fs, values, solved, solve, 0) == Outcome(values, solved, None);
    }
  }

  /** No formula among the first `k` has written column `id`. */
  predicate NotWrittenBefore(fs: seq<Formula>, values: Row, solved: seq<Formula>, solve: FormulaOutcome, k: nat, id: string)
    requires k <= |fs|
  {
    forall j :: 0 <= j < k && Written(fs, values, solved, solve, j) ==> fs[j].column.id != id
  }

  /** Once an exception stopped the run, nothing changes any more. */
  lemma {:induction false} StoppedStaysStopped(fs: seq<Formula>, values: Row, solved: seq<Formula>, solve: FormulaOutcome, k: nat, m: nat)
    requires k <= m <= |fs| && SolvedUpTo(fs, values, solved, solve, k).error.Some?
    ensures SolvedUpTo(fs, values, solved, solve, m) == SolvedUpTo(fs, values, solved, solve, k)
    decreases m - k
  {
    if k < m {
      SolvedUpToStep(fs, values, solved, solve, k);
      StoppedStaysStopped(fs, values, solved, solve, k + 1, m);
    }
  }

  /** The first formula whose solving throws stops the run with that exception: the row and the
      formulas returned are those reached before it. */
  lemma SolveAllFromStops(fs: seq<Formula>, values: Row, solved: seq<Formula>, solve: FormulaOutcome, k: nat)
    requires k < |fs| && SolutionAt(fs, values, solved, solve, k).Failure?
    requires forall j :: 0 <= j < k ==> SolutionAt(fs, values, solved, solve, j).Success?
    ensures var o := SolvedUpTo(fs, values, solved, solve, k);
      SolveAllFrom(fs, values, solved, solve) == Outcome(o.values, o.solved, Some(SolutionAt(fs, values, solved, solve, k).error))
  {
    SolvedUpToShape(fs, values, solved, solve, k);
    SolvedUpToStep(fs, values, solved, solve, k);
    StoppedStaysStopped(fs, values, solved, solve, k + 1, |fs|);
    SolvedUpToAll(fs, values, solved, solve);
  }

  /** Every formula is built by the `Formula` constructor for this schema and header. */
  predicate BuiltFor(parsed: seq<Formula>, schema: seq<TableColumn>, header: string, rank: map<string, nat>)
    requires Ranked(schema, header, rank)
  {
    forall f :: f in parsed ==>
      f.column in schema && f.formula == FieldOf(f.column, header)
      && f.dependenciesCount == DepCount(schema, header, rank, f.column)
  }

  /** After sorting, a formula that refers to another column comes after that column's formula:
      referenced values are written into the row before they are needed. */
  lemma ReferencedColumnsSolvedFirst(schema: seq<TableColumn>, header: string, rank: map<string, nat>,
                                     parsed: seq<Formula>, i: nat, j: nat)
    requires Ranked(schema, header, rank) && BuiltFor(parsed, schema, header, rank)
    requires i < |SortByCount(parsed)| && j < |SortByCount(parsed)|
    requires var sorted := SortByCount(parsed);
      sorted[j].column.id != sorted[i].column.id && Occurrences(sorted[j].column.id, sorted[i].formula) > 0
    ensures j < i
  {
    var sorted := SortByCount(parsed);
    SortByCountIsStableSort(parsed);
    assert sorted[i] in multiset(parsed) && sorted[j] in multiset(parsed);
    DepCountGrowsAlongReferences(schema, header, rank, sorted[i].column, sorted[j].column);
  }

  /** After the `i`-th formula throws, the run ends with its exception and every later formula
      is past the end of the run. */
  lemma StoppedAfter(fs: seq<Formula>, values: Row, solve: FormulaOutcome, i: nat)
    requires i < |fs| && SolvedUpTo(fs, values, [], solve, i).error.None? && SolutionAt(fs, values, [], solve, i).Failure?
    ensures var o := SolvedUpTo(fs, values, [], solve, i);
      SolveAllFrom(fs, values, [], solve) == Outcome(o.values, o.solved, Some(SolutionAt(fs, values, [], solve, i).error))
    ensures forall j :: i < j <= |fs| ==> SolvedUpTo(fs, values, [], solve, j).error.Some?
  {
    SolvedUpToStep(fs, values, [], solve, i);
    forall j | i < j <= |fs| ensures SolvedUpTo(fs, values, [], solve, j).error.Some? {
      StoppedStaysStopped(fs, values, [], solve, i + 1, j);
    }
    StoppedStaysStopped(fs, values, [], solve, i + 1, |fs|);
    SolvedUpToAll(fs, values, [], solve);
  }

  /** The solution the `k`-th formula holds after `solveAll`, given the one it held before:
      a formula past the exception keeps it, any other stores what `Formula.solve` gave. */
  function StoredBySolveAll(fs: seq<Formula>, values: Row, solve: FormulaOutcome, k: nat, previous: Option<string>): Option<string>
    requires k < |fs|
  {
    if SolvedUpTo(fs, values, [], solve, k).error.Some? then previous
    else Stored(previous, fs[k].formula, SolutionAt(fs, values, [], solve, k))
  }

  /** One iteration of `solveAll`, reached with the row `v` and the list `sol` and no exception
      yet: what the `i`-th formula's solution `result` makes of the run and of what it stores. */
  lemma SolveAllStep(fs: seq<Formula>, values: Row, solve: FormulaOutcome, i: nat, v: Row, sol: seq<Formula>, result: Result<string, FormulaError>)
    requires i < |fs| && SolvedUpTo(fs, values, [], solve, i) == Outcome(v, sol, None)
    requires result == solve(fs[i].formula, v)
    ensures result == SolutionAt(fs, values, [], solve, i)
    ensures forall previous :: StoredBySolveAll(fs, values, solve, i, previous) == Stored(previous, fs[i].formula, result)
    ensures result.Success? && result.value == "" ==> SolvedUpTo(fs, values, [], solve, i + 1) == Outcome(v, sol, None)
    ensures result.Success? && result.value != "" ==>
      SolvedUpTo(fs, values, [], solve, i + 1) == Outcome(v[fs[i].column.id := result.value], sol + [fs[i]], None)
  {
    SolvedUpToStep(fs, values, [], solve, i);
  }

  /** A list rewritten from the front: the first `i` entries are already `expected`, the rest
      are still `before`; setting the `i`-th to its expected value moves the boundary by one. */
  lemma RewriteStep<T>(now: seq<T>, expected: seq<T>, before: seq<T>, i: nat, x: T)
    requires |now| == |expected| == |before| && i < |now|
    requires now[..i] == expected[..i] && now[i..] == before[i..] && x == expected[i]
    ensures now[i := x][..i + 1] == expected[..i + 1] && now[i := x][i + 1..] == before[i + 1..]
  {
    assert now[i := x][..i + 1] == now[..i] + [x];
    assert expected[..i + 1] == expected[..i] + [expected[i]];
  }

  /** The rewrite is complete once the entries not rewritten already had their expected value. */
  lemma RewriteDone<T>(now: seq<T>, expected: seq<T>, before: seq<T>, i: nat)
    requires |now| == |expected| == |before| && i <= |now|
    requires now[..i] == expected[..i] && now[i..] == before[i..]
    requires forall j :: i <= j < |now| ==> expected[j] == before[j]
    ensures now == expected
  {
    forall j | 0 <= j < |now| ensures now[j] == expected[j] {
      if j < i {
        assert now[..i][j] == expected[..i][j];
      } else {
        assert now[i..][j - i] == before[i..][j - i];
      }
    }
  }

  /** No formula object is listed twice. */
  predicate Distinct(s: seq<Formula>) {
    forall i, j :: 0 <= i < j < |s| ==> s[i] != s[j]
  }

  lemma {:induction false} InsertByCountDistinct(sorted: seq<Formula>, f: Formula)
    requires Distinct(sorted) && f !in sorted
    ensures Distinct(InsertByCount(sorted, f))
  {
    if sorted != [] && f.dependenciesCount >= sorted[0].dependenciesCount {
      InsertByCountDistinct(sorted[1..], f);
      InsertByCountMultiset(sorted[1..], f);
      var rest := InsertByCount(sorted[1..], f);
      assert sorted[0] !in multiset(sorted[1..]) + multiset{f};
      assert sorted[0] !in rest;
    }
  }

  /** The sort lists no formula twice when the parser did not. */
  lemma {:induction false} SortByCountDistinct(s: seq<Formula>)
    requires Distinct(s)
    ensures Distinct(SortByCount(s))
  {
    if s != [] {
      var init, last := s[..|s| - 1], s[|s| - 1];
      SortByCountDistinct(init);
      SortByCountIsStableSort(init);
      assert last !in multiset(init);
      InsertByCountDistinct(SortByCount(init), last);
    }
  }

  /** The solver of one row. */
  class FormulaSolver {
    const row: TableRow

    constructor(row: TableRow)
      ensures this.row == row
    {
      this.row := row;
    }

    /** `solve(column, header)`: solves the formula the parser built and returns it. */
    method Solve(parsed: Formula, finders: Finders, env: Env) returns (r: Result<Formula, FormulaError>)
      requires parsed.row == row
      modifies parsed
      ensures var s := SolveText(parsed.formula, row.values, finders, env);
        && (r == if s.Failure? then Failure(s.error) else Success(parsed))
        && parsed.solvedFormula == Stored(old(parsed.solvedFormula), parsed.formula, s)
    {
      var solved := parsed.Solve(finders, env);
      if solved.Failure? {
        return Failure(solved.error);
      }
      r := Success(parsed);
    }

    /** One turn of the loop of `solveAll`: solves the formula on the row and, when the solution
        is not empty, writes it into the formula's column. */
    method SolveInto(formula: Formula, finders: Finders, env: Env) returns (s: Result<string, FormulaError>)
      requires formula.row == row
      modifies row, formula
      ensures s == TextSolver(finders, env)(formula.formula, old(row.values))
      ensures formula.solvedFormula == Stored(old(formula.solvedFormula), formula.formula, s)
      ensures row.values == if s.Success? && s.value != "" then old(row.values)[formula.column.id := s.value] else old(row.values)
    {
      s := formula.Solve(finders, env);
      if s.Success? && s.value != "" {
        row.Update(formula.column.id, s.value);
      }
    }

    /** `solveAll`: sorts the formulas the parser built for the row by dependency count, solves
        them in that order, writes every non-empty result into the row before solving the next,
        and returns the formulas with a non-empty result. An exception stops it; the values
        already written stay. */
    method SolveAll(parsed: seq<Formula>, finders: Finders, env: Env) returns (r: Result<seq<Formula>, FormulaError>)
      requires forall f :: f in parsed ==> f.row == row
      requires Distinct(parsed)
      modifies row, set f | f in parsed
      ensures forall k :: 0 <= k < |SortByCount(parsed)| ==> SortByCount(parsed)[k] in parsed
      ensures var o := SolveAllFrom(SortByCount(parsed), old(row.values), [], TextSolver(finders, env));
        row.values == o.values && r == if o.error.Some? then Failure(o.error.value) else Success(o.solved)
      ensures var sorted, solve := SortByCount(parsed), TextSolver(finders, env);
        forall k :: 0 <= k < |sorted| ==>
          sorted[k].solvedFormula == StoredBySolveAll(sorted, old(row.values), solve, k, old(sorted[k].solvedFormula))
    {
      var formulas := SortByCount(parsed);
      SortByCountIsStableSort(parsed);
      SortByCountDistinct(parsed);
      forall k | 0 <= k < |formulas| ensures formulas[k] in parsed {
        assert formulas[k] in multiset(parsed);
      }
      r := SolveInOrder(formulas, finders, env);
    }

    /** The loop of `solveAll` over the sorted formulas. */
    method SolveInOrder(formulas: seq<Formula>, finders: Finders, env: Env) returns (r: Result<seq<Formula>, FormulaError>)
      requires forall f :: f in formulas ==> f.row == row
      requires Distinct(formulas)
      modifies row, set f | f in formulas
      ensures var o := SolveAllFrom(formulas, old(row.values), [], TextSolver(finders, env));
        row.values == o.values && r == if o.error.Some? then Failure(o.error.value) else Success(o.solved)
      ensures var solve := TextSolver(finders, env);
        forall k :: 0 <= k < |formulas| ==>
          formulas[k].solvedFormula == StoredBySolveAll(formulas, old(row.values), solve, k, old(formulas[k].solvedFormula))
    {
      ghost var values0 := row.values;
      ghost var solve := TextSolver(finders, env);
      ghost var before := seq(|formulas|, j requires 0 <= j < |formulas| reads formulas => formulas[j].solvedFormula);
      ghost var expected := seq(|formulas|, j requires 0 <= j < |formulas| => StoredBySolveAll(formulas, values0, solve, j, before[j]));
      ghost var now := before;
      var solvedFormulas: seq<Formula> := [];
      for i := 0 to |formulas|
        invariant SolvedUpTo(formulas, values0, [], solve, i) == Outcome(row.values, solvedFormulas, None)
        invariant |now| == |formulas|
        invariant forall j :: 0 <= j < |formulas| ==> formulas[j].solvedFormula == now[j]
        invariant now[..i] == expected[..i] && now[i..] == before[i..]
      {
        var formula := formulas[i];
        ghost var previous := formula.solvedFormula;
        assert previous == now[i] == before[i];
        ghost var reached := row.values;
        var solution := SolveInto(formula, finders, env);
        SolveAllStep(formulas, values0, solve, i, reached, solvedFormulas, solution);
        assert expected[i] == Stored(previous, formula.formula, solution);
        RewriteStep(now, expected, before, i, formula.solvedFormula);
        now := now[i := formula.solvedFormula];
        forall j | 0 <= j < |formulas| ensures formulas[j].solvedFormula == now[j] {
          if j != i {
            assert formulas[j] != formula;
          }
        }
        if solution.Failure? {
          StoppedAfter(formulas, values0, solve, i);
          RewriteDone(now, expected, before, i + 1);
          return Failure(solution.error);
        }
        if solution.value != "" {
          solvedFormulas := solvedFormulas + [formula];
        }
      }
      RewriteDone(now, expected, before, |formulas|);
      SolvedUpToAll(formulas, values0, [], solve);
      r := Success(solvedFormulas);
    }
  }
}
