/**
 * The built-in functions of the formula language, written `NAME(op1,op2,...)`:
 * compiling the call text into a name and operands, and solving it.
 * Truthiness, the message digest and the fresh identifier come from outside (`Env`).
 */
module FunctionFormula {
  import opened Wrappers
  import opened JavaStrings

  const ZeroPadding: string := "ZERO_PADDING"
  const RightTrim: string := "RIGHT_TRIM"
  const LeftTrim: string := "LEFT_TRIM"
  const If: string := "IF"
  const IfNotNull: string := "IF_NOT_NULL"
  const Sum: string := "SUM"
  const Hash: string := "HASH"
  const And: string := "AND"
  const Or: string := "OR"
  const Next: string := "NEXT"

  /** What solving a formula can throw. All but the last are FormulaException; the last is the
      StringIndexOutOfBoundsException a trim with a negative count runs into. */
  datatype FormulaError =
    | WrongFunctionFormula      // the call text does not split into exactly two pieces around '('
    | FunctionNotSupported      // unknown function name
    | WrongNumberOfParameters
    | WrongParameters           // an operand that should be a number is not one
    | NoSuchAlgorithm           // HASH with an algorithm the platform does not know
    | FragmentError             // raised by a fragment kind this model does not define
    | IndexOutOfBounds

  /** Collaborators of the function library: `BooleanValue.isTrue`, its true and false texts,
      `MessageDigest` with hex printing (None for an unknown algorithm) and `UUID.randomUUID`. */
  datatype Env = Env(
    isTrue: string -> bool,
    trueValue: string,
    falseValue: string,
    digest: (string, string) -> Option<string>,
    nextId: string)

  /** A compiled call: its own text, the function name as written, and the operands. */
  datatype FunctionCall = FunctionCall(formula: string, functionName: string, operands: seq<string>)

  // ---------------------------------------------------------------- compile

  /** The comma-split pieces become the operands; only the last one loses its ')' characters. */
  function OperandsOf(pieces: seq<string>): (ops: seq<string>)
  {
    seq(|pieces|, k requires 0 <= k < |pieces| =>
      if k == |pieces| - 1 then ReplaceAll(pieces[k], ")", "") else pieces[k])
  }

  function CompileSpec(formula: string): Result<FunctionCall, FormulaError> {
    var parts := Split(formula, '(');
    if |parts| != 2 then Failure(WrongFunctionFormula)
    else Success(FunctionCall(formula, parts[0], OperandsOf(Split(parts[1], ','))))
  }

  /** `compile`: split on '(' (exactly two pieces, otherwise FormulaException), the name is the
      first piece and the operands are the comma-split of the second. */
  method Compile(formula: string) returns (r: Result<FunctionCall, FormulaError>)
    ensures r == CompileSpec(formula)
  {
    var parts := Split(formula, '(');
    if |parts| != 2 {
      return Failure(WrongFunctionFormula);
    }
    var pieces := Split(parts[1], ',');
    var operands: seq<string> := [];
    var i := 0;
    while i < |pieces|
      invariant 0 <= i <= |pieces|
      invariant operands == OperandsOf(pieces)[..i]
    {
      var operand := pieces[i];
      if i == |pieces| - 1 {
        operand := ReplaceAll(operand, ")", "");
      }
      operands := operands + [operand];
      i := i + 1;
    }
    assert operands == OperandsOf(pieces);
    r := Success(FunctionCall(formula, parts[0], operands));
  }

  /** The text of a call `name(a1,...,an)`. */
  function CallText(name: string, args: seq<string>): string
    requires |args| >= 1
  {
    name + "(" + Join(args, ',') + ")"
  }

  predicate PlainOperand(a: string) {
    '(' !in a && ',' !in a && ')' !in a
  }

  /** Compiling the text of a call gives back its name and operands. */
  lemma CompileCallText(name: string, args: seq<string>)
    requires '(' !in name && |args| >= 1
    requires forall k :: 0 <= k < |args| ==> PlainOperand(args[k])
    ensures CompileSpec(CallText(name, args)) == Success(FunctionCall(CallText(name, args), name, args))
  {
    var pieces := Closed(args);
    ClosedPieces(args);
    ClosedOperands(args);
    NoCharInJoin(pieces, ',', '(');
    JoinLastNonEmpty(pieces, ',');
    SplitAtBracket(name, Join(pieces, ','));
    assert CallText(name, args) == name + "(" + Join(pieces, ',');
    SplitJoin(pieces, ',');
  }

  /** The operands with the closing bracket glued to the last one, as the comma-split sees them. */
  function Closed(args: seq<string>): seq<string>
    requires |args| >= 1
  {
    args[..|args| - 1] + [args[|args| - 1] + ")"]
  }

  lemma ClosedPieces(args: seq<string>)
    requires |args| >= 1
    requires forall k :: 0 <= k < |args| ==> PlainOperand(args[k])
    ensures var p := Closed(args);
      && |p| == |args| && p[|p| - 1] != []
      && (forall k :: 0 <= k < |p| ==> ',' !in p[k] && '(' !in p[k])
      && Join(p, ',') == Join(args, ',') + ")"
  {
    var p := Closed(args);
    forall k | 0 <= k < |p| ensures ',' !in p[k] && '(' !in p[k] {
      if k < |args| - 1 {
        assert p[k] == args[k];
      }
    }
    JoinReplaceLast(args, ")", ',');
  }

  lemma ClosedOperands(args: seq<string>)
    requires |args| >= 1 && ')' !in args[|args| - 1]
    ensures OperandsOf(Closed(args)) == args
  {
    var last := args[|args| - 1];
    NoCharRemoved(last, ')');
    RemoveCharacter(last + ")", ')');
    RemoveAllAppend(last, ")", ')');
    assert ReplaceAll(last + ")", ")", "") == last;
  }

  lemma {:induction false} JoinReplaceLast(args: seq<string>, suffix: string, c: char)
    requires |args| >= 1
    ensures Join(args[..|args| - 1] + [args[|args| - 1] + suffix], c) == Join(args, c) + suffix
  {
    if |args| > 1 {
      JoinReplaceLast(args[1..], suffix, c);
      var p := args[..|args| - 1] + [args[|args| - 1] + suffix];
      assert p[1..] == args[1..][..|args[1..]| - 1] + [args[1..][|args[1..]| - 1] + suffix];
    }
  }

  lemma {:induction false} NoCharInJoin(pieces: seq<string>, c: char, d: char)
    requires |pieces| >= 1 && c != d
    requires forall k :: 0 <= k < |pieces| ==> d !in pieces[k]
    ensures d !in Join(pieces, c)
  {
    if |pieces| > 1 {
      NoCharInJoin(pieces[1..], c, d);
    }
  }

  lemma {:induction false} NoCharRemoved(s: string, c: char)
    requires c !in s
    ensures RemoveAll(s, c) == s
  {
    if s != [] {
      NoCharRemoved(s[1..], c);
      assert s == [s[0]] + s[1..];
    }
  }

  lemma {:induction false} RemoveAllAppend(a: string, b: string, c: char)
    ensures RemoveAll(a + b, c) == RemoveAll(a, c) + RemoveAll(b, c)
  {
    if a != [] {
      RemoveAllAppend(a[1..], b, c);
      assert (a + b)[1..] == a[1..] + b;
    } else {
      assert a + b == b;
    }
  }

  /** A text without '(' is rejected. */
  lemma CompileRejectsMissingBracket(formula: string)
    requires '(' !in formula
    ensures CompileSpec(formula) == Failure(WrongFunctionFormula)
  {
  }

  /** A call nested inside another one is rejected: there are three pieces around '('. */
  lemma CompileRejectsNesting(outer: string, firstArgs: string, innerRest: string)
    requires '(' !in outer && '(' !in firstArgs && '(' !in innerRest && innerRest != []
    ensures CompileSpec(outer + "(" + firstArgs + "(" + innerRest) == Failure(WrongFunctionFormula)
  {
    var text := outer + "(" + firstArgs + "(" + innerRest;
    var pieces := [outer, firstArgs, innerRest];
    assert pieces[1..] == [firstArgs, innerRest] && pieces[1..][1..] == [innerRest];
    assert Join(pieces[1..], '(') == firstArgs + "(" + innerRest;
    assert text == Join(pieces, '(');
    SplitJoin([outer, firstArgs, innerRest], '(');
  }

  /** The closing bracket is not checked: `NAME(a,b` compiles like `NAME(a,b)`. */
  lemma CompileIgnoresMissingClose(name: string, args: seq<string>)
    requires '(' !in name && |args| >= 1 && args[|args| - 1] != []
    requires forall k :: 0 <= k < |args| ==> PlainOperand(args[k])
    ensures CompileSpec(name + "(" + Join(args, ',')) == Success(FunctionCall(name + "(" + Join(args, ','), name, args))
  {
    var inner := Join(args, ',');
    NoCharInJoin(args, ',', '(');
    JoinLastNonEmpty(args, ',');
    SplitAtBracket(name, inner);
    SplitJoin(args, ',');
    OperandsOfPlain(args);
  }

  /** A name and a bracket-free, non-empty rest split into exactly these two pieces. */
  lemma SplitAtBracket(name: string, inner: string)
    requires '(' !in name && '(' !in inner && inner != []
    ensures Split(name + "(" + inner, '(') == [name, inner]
  {
    assert [name, inner][1..] == [inner];
    assert name + "(" + inner == Join([name, inner], '(');
    SplitJoin([name, inner], '(');
  }

  /** Operands whose last one holds no ')' are kept as they are. */
  lemma OperandsOfPlain(args: seq<string>)
    requires |args| >= 1 && ')' !in args[|args| - 1]
    ensures OperandsOf(args) == args
  {
    var last := args[|args| - 1];
    NoCharRemoved(last, ')');
    RemoveCharacter(last, ')');
    assert ")" == [')'] && "" == [];
  }

  lemma {:induction false} JoinLastNonEmpty(args: seq<string>, c: char)
    requires |args| >= 1
    ensures |Join(args, c)| >= |args[|args| - 1]|
  {
    if |args| > 1 {
      JoinLastNonEmpty(args[1..], c);
    }
  }

  /** `NEXT()` compiles to a single empty operand. */
  lemma CompileNextHasOneEmptyOperand()
    ensures CompileSpec("NEXT()") == Success(FunctionCall("NEXT()", "NEXT", [""]))
  {
    var parts := Split("NEXT()", '(');
    assert "NEXT()" == Join(["NEXT", ")"], '(');
    SplitJoin(["NEXT", ")"], '(');
    assert parts == ["NEXT", ")"];
    assert ',' !in ")";
    RemoveCharacter(")", ')');
    assert OperandsOf([")"]) == [""];
  }

  // ---------------------------------------------------------------- the functions

  function Zeros(n: nat): (z: string)
    ensures |z| == n && forall i :: 0 <= i < n ==> z[i] == '0'
  {
    if n == 0 then [] else "0" + Zeros(n - 1)
  }

  /** The text left-padded with zeros up to `width` characters; never shortened. */
  function Padded(text: string, width: int): string {
    if width > |text| then Zeros(width - |text|) + text else text
  }

  /** Padding reaches the width, keeps the whole text as a suffix and adds only zeros. */
  lemma PaddedShape(text: string, width: int)
    ensures var p := Padded(text, width);
      && |p| == (if width > |text| then width else |text|)
      && p[|p| - |text|..] == text
      && forall i :: 0 <= i < |p| - |text| ==> p[i] == '0'
  {
  }

  function PaddingResult(ops: seq<string>): Result<string, FormulaError> {
    if |ops| != 2 then Failure(WrongNumberOfParameters)
    else match ParseInt(ops[1])
      case None => Failure(WrongParameters)
      case Some(width) => Success(Padded(ops[0], width))
  }

  /** `solvePadding`: prepends one zero at a time. */
  method SolvePadding(ops: seq<string>) returns (r: Result<string, FormulaError>)
    ensures r == PaddingResult(ops)
  {
    if |ops| != 2 {
      return Failure(WrongNumberOfParameters);
    }
    var text := ops[0];
    var parsed := ParseInt(ops[1]);
    if parsed.None? {
      return Failure(WrongParameters);
    }
    var requiredPadding := parsed.value;
    if requiredPadding > |text| {
      var paddingCount := requiredPadding - |text|;
      var i := 0;
      while i < paddingCount
        invariant 0 <= i <= paddingCount
        invariant text == Zeros(i) + ops[0]
      {
        text := "0" + text;
        i := i + 1;
      }
    }
    r := Success(text);
  }

  /** `ZERO_PADDING("5", 3)` is "005" and `ZERO_PADDING("12345", 3)` is "12345". */
  lemma PaddingExamples()
    ensures PaddingResult(["5", "3"]) == Success("005")
    ensures PaddingResult(["12345", "3"]) == Success("12345")
  {
    assert ParseDecimal("3") == Some(3);
    assert ParseInt("3") == Some(3);
    assert Zeros(2) == "00";
    assert Padded("5", 3) == "005";
    assert Padded("12345", 3) == "12345";
  }

  /** `solveRightTrim`: the last `n` characters, at most the whole text; a negative `n` makes
      `substring` throw. */
  function SolveRightTrim(ops: seq<string>): (r: Result<string, FormulaError>)
    ensures |ops| != 2 ==> r == Failure(WrongNumberOfParameters)
    ensures |ops| == 2 && ParseInt(ops[1]).None? ==> r == Failure(WrongParameters)
    ensures |ops| == 2 && ParseInt(ops[1]).Some? && ParseInt(ops[1]).value < 0 ==> r == Failure(IndexOutOfBounds)
    ensures |ops| == 2 && ParseInt(ops[1]).Some? && ParseInt(ops[1]).value >= 0 ==>
      r.Success? &&
      var n, text := ParseInt(ops[1]).value, ops[0];
      |r.value| == (if n < |text| then n else |text|) && r.value == text[|text| - |r.value|..]
  {
    if |ops| != 2 then Failure(WrongNumberOfParameters)
    else match ParseInt(ops[1])
      case None => Failure(WrongParameters)
      case Some(n) =>
        var text := ops[0];
        var charNum := if n > |text| then |text| else n;
        if charNum < 0 then Failure(IndexOutOfBounds) else Success(text[|text| - charNum..])
  }

  /** `solveLeftTrim`: the first `n` characters, at most the whole text; a negative `n` makes
      `substring` throw. */
  function SolveLeftTrim(ops: seq<string>): (r: Result<string, FormulaError>)
    ensures |ops| != 2 ==> r == Failure(WrongNumberOfParameters)
    ensures |ops| == 2 && ParseInt(ops[1]).None? ==> r == Failure(WrongParameters)
    ensures |ops| == 2 && ParseInt(ops[1]).Some? && ParseInt(ops[1]).value < 0 ==> r == Failure(IndexOutOfBounds)
    ensures |ops| == 2 && ParseInt(ops[1]).Some? && ParseInt(ops[1]).value >= 0 ==>
      r.Success? &&
      var n, text := ParseInt(ops[1]).value, ops[0];
      |r.value| == (if n < |text| then n else |text|) && r.value == text[..|r.value|]
  {
    if |ops| != 2 then Failure(WrongNumberOfParameters)
    else match ParseInt(ops[1])
      case None => Failure(WrongParameters)
      case Some(n) =>
        var text := ops[0];
        var charNum := if n > |text| then |text| else n;
        if charNum < 0 then Failure(IndexOutOfBounds) else Success(text[..charNum])
  }

  /** `solveIf`: three operands; the second when the first is true, the third otherwise. */
  function SolveIf(env: Env, ops: seq<string>): (r: Result<string, FormulaError>)
    ensures r.Success? <==> |ops| == 3
    ensures r.Success? ==> r.value == ops[1] || r.value == ops[2]
    ensures r.Success? && env.isTrue(ops[0]) ==> r.value == ops[1]
    ensures r.Success? && !env.isTrue(ops[0]) ==> r.value == ops[2]
  {
    if |ops| != 3 then Failure(WrongNumberOfParameters)
    else Success(if env.isTrue(ops[0]) then ops[1] else ops[2])
  }

  /** `solveIfNotNull`: three operands; the second when the first is non-empty, the third
      otherwise. */
  function SolveIfNotNull(ops: seq<string>): (r: Result<string, FormulaError>)
    ensures r.Success? <==> |ops| == 3
    ensures r.Success? ==> r.value == (if ops[0] != "" then ops[1] else ops[2])
  {
    if |ops| != 3 then Failure(WrongNumberOfParameters)
    else Success(if ops[0] != "" then ops[1] else ops[2])
  }

  /** Adds the operands from left to right onto `acc`: an empty operand ends the scan with no
      total (None), a non-numeric one throws. */
  function SumScan(ops: seq<string>, acc: int): (r: Result<Option<int>, FormulaError>)
    ensures r.Failure? ==> r.error == WrongParameters
  {
    if ops == [] then Success(Some(acc))
    else if ops[0] == "" then Success(None)
    else match ParseDecimal(ops[0])
      case None => Failure(WrongParameters)
      case Some(v) => SumScan(ops[1..], acc + v)
  }

  /** The sum of operands that are all numbers. */
  function Total(ops: seq<string>): int
    requires forall i :: 0 <= i < |ops| ==> ParseDecimal(ops[i]).Some?
  {
    if ops == [] then 0 else ParseDecimal(ops[0]).value + Total(ops[1..])
  }

  /** `solveSum` as intended: an integral total printed without a decimal part. */
  function SumResult(ops: seq<string>): Result<string, FormulaError> {
    if |ops| < 2 then Failure(WrongNumberOfParameters)
    else match SumScan(ops, 0)
      case Failure(e) => Failure(e)
      case Success(None) => Success("")
      case Success(Some(total)) => Success(IntToString(total))
  }

  /** `(int) total` on a double: values outside the 32-bit range saturate. */
  function Saturate(n: int): int {
    if n > IntMax then IntMax else if n < IntMin then IntMin else n
  }

  /** `solveSum` as written: the integral total goes through `(int)` before printing. */
  function SumResultAsWritten(ops: seq<string>): Result<string, FormulaError> {
    if |ops| < 2 then Failure(WrongNumberOfParameters)
    else match SumScan(ops, 0)
      case Failure(e) => Failure(e)
      case Success(None) => Success("")
      case Success(Some(total)) => Success(IntToString(Saturate(total)))
  }

  /** `SUM(2147483647,1)` prints 2147483647 as written, not the total 2147483648. */
  lemma SumSaturatesAsWritten()
    ensures var ops := [IntToString(IntMax), "1"];
      && SumResultAsWritten(ops) == Success(IntToString(IntMax))
      && SumResult(ops) == Success(IntToString(IntMax + 1))
      && IntToString(IntMax) != IntToString(IntMax + 1)
  {
    var big := IntToString(IntMax);
    var ops := [big, "1"];
    IntToStringRoundTrip(IntMax);
    IntToStringRoundTrip(IntMax + 1);
    IntToStringChars(IntMax);
    assert ParseDecimal("1") == Some(1);
    assert ops[0] == big && big != "" && ops[1..] == ["1"];
    assert SumScan(["1"], IntMax) == Success(Some(IntMax + 1)) by {
      assert ["1"][1..] == [];
    }
    assert SumScan(ops, 0) == SumScan(["1"], IntMax);
  }

  /** Operands that are all numbers sum to their total. */
  lemma {:induction false} SumScanAllNumbers(ops: seq<string>, acc: int)
    requires forall i :: 0 <= i < |ops| ==> ops[i] != "" && ParseDecimal(ops[i]).Some?
    ensures SumScan(ops, acc) == Success(Some(acc + Total(ops)))
  {
    if ops != [] {
      SumScanAllNumbers(ops[1..], acc + ParseDecimal(ops[0]).value);
    }
  }

  /** An empty operand after numbers only makes the result empty, whatever follows it. */
  lemma {:induction false} SumScanEmptyOperand(ops: seq<string>, acc: int, k: nat)
    requires k < |ops| && ops[k] == ""
    requires forall i :: 0 <= i < k ==> ops[i] != "" && ParseDecimal(ops[i]).Some?
    ensures SumScan(ops, acc) == Success(None)
  {
    if k > 0 {
      SumScanEmptyOperand(ops[1..], acc + ParseDecimal(ops[0]).value, k - 1);
    }
  }

  /** A non-numeric operand after numbers only throws, whatever follows it. */
  lemma {:induction false} SumScanBadOperand(ops: seq<string>, acc: int, k: nat)
    requires k < |ops| && ops[k] != "" && ParseDecimal(ops[k]).None?
    requires forall i :: 0 <= i < k ==> ops[i] != "" && ParseDecimal(ops[i]).Some?
    ensures SumScan(ops, acc) == Failure(WrongParameters)
  {
    if k > 0 {
      SumScanBadOperand(ops[1..], acc + ParseDecimal(ops[0]).value, k - 1);
    }
  }

  /** `SUM(1,2)` is "3" and `SUM(1,2,)` is "". */
  lemma SumExamples()
    ensures SumResult(["1", "2"]) == Success("3")
    ensures SumResult(["1", "2", ""]) == Success("")
  {
    assert ParseDecimal("1") == Some(1);
    assert ParseDecimal("2") == Some(2);
    assert ["1", "2"][1..] == ["2"];
    assert ["1", "2", ""][1..] == ["2", ""];
    assert ["2", ""][1..] == [""];
  }

  /** `solveSum`: adds the operands left to right, stopping at the first empty one. */
  method SolveSum(ops: seq<string>) returns (r: Result<string, FormulaError>)
    ensures r == SumResult(ops)
  {
    if |ops| < 2 {
      return Failure(WrongNumberOfParameters);
    }
    var totalSum := 0;
    var i := 0;
    while i < |ops|
      invariant 0 <= i <= |ops|
      invariant SumScan(ops, 0) == SumScan(ops[i..], totalSum)
    {
      var operand := ops[i];
      assert ops[i..][0] == operand && ops[i..][1..] == ops[i + 1..];
      if operand == "" {
        return Success("");
      }
      var number := ParseDecimal(operand);
      if number.None? {
        return Failure(WrongParameters);
      }
      totalSum := totalSum + number.value;
      i := i + 1;
    }
    r := Success(IntToString(totalSum));
  }

  /** `solveHash`: two operands, the algorithm and the value. */
  function SolveHash(env: Env, ops: seq<string>): (r: Result<string, FormulaError>)
    ensures r.Success? ==> |ops| == 2 && env.digest(ops[0], ops[1]) == Some(r.value)
    ensures |ops| == 2 && env.digest(ops[0], ops[1]).None? ==> r == Failure(NoSuchAlgorithm)
    ensures |ops| == 2 && env.digest(ops[0], ops[1]).Some? ==> r == Success(env.digest(ops[0], ops[1]).value)
    ensures |ops| != 2 ==> r == Failure(WrongNumberOfParameters)
  {
    if |ops| != 2 then Failure(WrongNumberOfParameters)
    else match env.digest(ops[0], ops[1])
      case None => Failure(NoSuchAlgorithm)
      case Some(h) => Success(h)
  }

  /** `AND(...)`: at least two operands; the true text iff every operand is true. */
  function AndResult(env: Env, ops: seq<string>): Result<string, FormulaError> {
    if |ops| < 2 then Failure(WrongNumberOfParameters)
    else Success(if forall k :: 0 <= k < |ops| ==> env.isTrue(ops[k]) then env.trueValue else env.falseValue)
  }

  /** `OR(...)`: at least two operands; the true text iff some operand is true. */
  function OrResult(env: Env, ops: seq<string>): Result<string, FormulaError> {
    if |ops| < 2 then Failure(WrongNumberOfParameters)
    else Success(if exists k :: 0 <= k < |ops| && env.isTrue(ops[k]) then env.trueValue else env.falseValue)
  }

  /** `solveAnd`: folds `&&` over the operands. */
  method SolveAnd(env: Env, ops: seq<string>) returns (r: Result<string, FormulaError>)
    ensures r == AndResult(env, ops)
  {
    if |ops| < 2 {
      return Failure(WrongNumberOfParameters);
    }
    var result := true;
    var i := 0;
    while i < |ops|
      invariant 0 <= i <= |ops|
      invariant result <==> forall k :: 0 <= k < i ==> env.isTrue(ops[k])
    {
      result := result && env.isTrue(ops[i]);
      i := i + 1;
    }
    r := Success(if result then env.trueValue else env.falseValue);
  }

  /** `solveOr`: folds `||` over the operands. */
  method SolveOr(env: Env, ops: seq<string>) returns (r: Result<string, FormulaError>)
    ensures r == OrResult(env, ops)
  {
    if |ops| < 2 {
      return Failure(WrongNumberOfParameters);
    }
    var result := false;
    var i := 0;
    while i < |ops|
      invariant 0 <= i <= |ops|
      invariant result <==> exists k :: 0 <= k < i && env.isTrue(ops[k])
    {
      result := result || env.isTrue(ops[i]);
      i := i + 1;
    }
    r := Success(if result then env.trueValue else env.falseValue);
  }

  // ---------------------------------------------------------------- dispatch

  /** `solve`: dispatch on the upper-cased name. */
  function SolveSpec(call: FunctionCall, env: Env): Result<string, FormulaError> {
    var name := ToUpper(call.functionName);
    var ops := call.operands;
    if name == ZeroPadding then PaddingResult(ops)
    else if name == RightTrim then SolveRightTrim(ops)
    else if name == LeftTrim then SolveLeftTrim(ops)
    else if name == If then SolveIf(env, ops)
    else if name == IfNotNull then SolveIfNotNull(ops)
    else if name == Sum then SumResult(ops)
    else if name == Hash then SolveHash(env, ops)
    else if name == And then AndResult(env, ops)
    else if name == Or then OrResult(env, ops)
    else if name == Next then Success(env.nextId)
    else Failure(FunctionNotSupported)
  }

  method Solve(call: FunctionCall, env: Env) returns (r: Result<string, FormulaError>)
    ensures r == SolveSpec(call, env)
  {
    var name := ToUpper(call.functionName);
    var ops := call.operands;
    if name == ZeroPadding {
      r := SolvePadding(ops);
    } else if name == RightTrim {
      r := SolveRightTrim(ops);
    } else if name == LeftTrim {
      r := SolveLeftTrim(ops);
    } else if name == If {
      r := SolveIf(env, ops);
    } else if name == IfNotNull {
      r := SolveIfNotNull(ops);
    } else if name == Sum {
      r := SolveSum(ops);
    } else if name == Hash {
      r := SolveHash(env, ops);
    } else if name == And {
      r := SolveAnd(env, ops);
    } else if name == Or {
      r := SolveOr(env, ops);
    } else if name == Next {
      r := Success(env.nextId);
    } else {
      r := Failure(FunctionNotSupported);
    }
  }

  /** Building a `FunctionFormula` from its text and solving it. */
  function Evaluate(text: string, env: Env): Result<string, FormulaError> {
    match CompileSpec(text)
    case Failure(e) => Failure(e)
    case Success(call) => SolveSpec(call, env)
  }

  /** The names the dispatcher knows, in any letter case, are never "not supported";
      every other name is. */
  lemma DispatchKnowsExactlyTheLibrary(call: FunctionCall, env: Env)
    ensures SolveSpec(call, env) == Failure(FunctionNotSupported) <==>
      ToUpper(call.functionName) !in [ZeroPadding, RightTrim, LeftTrim, If, IfNotNull, Sum, Hash, And, Or, Next]
  {
    var ops := call.operands;
    assert PaddingResult(ops) != Failure(FunctionNotSupported);
    assert SumResult(ops) != Failure(FunctionNotSupported);
    assert AndResult(env, ops) != Failure(FunctionNotSupported);
    assert OrResult(env, ops) != Failure(FunctionNotSupported);
    assert SolveHash(env, ops) != Failure(FunctionNotSupported);
  }

  /** Evaluating the text of a call solves the call with the name and operands written. */
  lemma EvaluateCallText(name: string, args: seq<string>, env: Env)
    requires '(' !in name && |args| >= 1
    requires forall k :: 0 <= k < |args| ==> PlainOperand(args[k])
    ensures Evaluate(CallText(name, args), env) == SolveSpec(FunctionCall(CallText(name, args), name, args), env)
  {
    CompileCallText(name, args);
  }

  /** `IF(c,a,b)` written out as text evaluates to `a` when `c` is true and `b` otherwise,
      whatever the letter case of the name. */
  lemma EvaluateIfCall(name: string, c: string, a: string, b: string, env: Env)
    requires ToUpper(name) == If && '(' !in name
    requires PlainOperand(c) && PlainOperand(a) && PlainOperand(b)
    ensures Evaluate(CallText(name, [c, a, b]), env) == Success(if env.isTrue(c) then a else b)
  {
    EvaluateCallText(name, [c, a, b], env);
  }

  /** `ZERO_PADDING(text,width)` written out as text pads `text` with zeros to `width`. */
  lemma EvaluatePaddingCall(name: string, text: string, width: int, env: Env)
    requires ToUpper(name) == ZeroPadding && '(' !in name
    requires PlainOperand(text) && IntMin <= width <= IntMax
    ensures Evaluate(CallText(name, [text, IntToString(width)]), env) == Success(Padded(text, width))
  {
    IntToStringRoundTrip(width);
    IntToStringChars(width);
    var w := IntToString(width);
    EvaluateCallText(name, [text, w], env);
    assert PaddingResult([text, w]) == Success(Padded(text, width));
  }

  /** `AND(...)` and `OR(...)` written out as text agree with "all true" and "some true". */
  lemma EvaluateAndOrCalls(andName: string, orName: string, args: seq<string>, env: Env)
    requires ToUpper(andName) == And && ToUpper(orName) == Or && '(' !in andName && '(' !in orName
    requires |args| >= 2 && forall k :: 0 <= k < |args| ==> PlainOperand(args[k])
    ensures Evaluate(CallText(andName, args), env) ==
      Success(if forall k :: 0 <= k < |args| ==> env.isTrue(args[k]) then env.trueValue else env.falseValue)
    ensures Evaluate(CallText(orName, args), env) ==
      Success(if exists k :: 0 <= k < |args| && env.isTrue(args[k]) then env.trueValue else env.falseValue)
  {
    EvaluateCallText(andName, args, env);
    EvaluateCallText(orName, args, env);
  }
}
