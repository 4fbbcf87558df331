// The log of a DCF operation as downloaded from the DCF web interface: the operation's
// details, its overall result, and the nodes that report on each single operation.

module DcfLogs {
  import opened Wrappers
  import opened Sequences

  /** The nodes of `nodes` whose operation failed, in their order. */
  function Failing<N(==)>(nodes: seq<N>, isOperationCorrect: N -> bool): seq<N> {
    if nodes == [] then []
    else
      var last := nodes[|nodes| - 1];
      Failing(nodes[..|nodes| - 1], isOperationCorrect) + (if isOperationCorrect(last) then [] else [last])
  }

  /** The failing nodes form an order-preserving subsequence holding exactly the nodes whose
      operation failed. */
  lemma {:induction false} FailingShape<N>(nodes: seq<N>, isOperationCorrect: N -> bool)
    ensures var r := Failing(nodes, isOperationCorrect);
      && IsSubsequence(r, nodes)
      && (forall i :: 0 <= i < |r| ==> !isOperationCorrect(r[i]))
      && (forall i :: 0 <= i < |nodes| && !isOperationCorrect(nodes[i]) ==> nodes[i] in r)
  {
    if nodes != [] {
      var init, last := nodes[..|nodes| - 1], nodes[|nodes| - 1];
      FailingShape(init, isOperationCorrect);
      var r := Failing(init, isOperationCorrect);
      assert nodes == init + [last];
      if isOperationCorrect(last) {
        SubsequenceExtend(r, init, last);
        assert Failing(nodes, isOperationCorrect) == r;
      } else {
        SubsequenceAppend(r, init, last);
      }
      forall i | 0 <= i < |nodes| && !isOperationCorrect(nodes[i])
        ensures nodes[i] in Failing(nodes, isOperationCorrect)
      {
        if i < |init| {
          assert nodes[i] == init[i];
        }
      }
    }
  }

  /** The positions of the failing nodes. */
  function FailingPositions<N>(nodes: seq<N>, isOperationCorrect: N -> bool): set<int> {
    set i | 0 <= i < |nodes| && !isOperationCorrect(nodes[i])
  }

  /** There are as many failing nodes kept as there are positions holding one. */
  lemma {:induction false} FailingCount<N>(nodes: seq<N>, isOperationCorrect: N -> bool)
    ensures |Failing(nodes, isOperationCorrect)| == |FailingPositions(nodes, isOperationCorrect)|
  {
    if nodes != [] {
      var n := |nodes| - 1;
      var init := nodes[..n];
      FailingCount(init, isOperationCorrect);
      var before := FailingPositions(init, isOperationCorrect);
      assert forall i :: 0 <= i < n ==> init[i] == nodes[i];
      if isOperationCorrect(nodes[n]) {
        assert FailingPositions(nodes, isOperationCorrect) == before;
      } else {
        assert FailingPositions(nodes, isOperationCorrect) == before + {n};
        assert n !in before;
      }
    }
  }

  class DcfLog<R(==), N(==)> {
    const action: string
    const transmissionDate: Option<int>
    const processingDate: Option<int>
    const uploadedFilename: string
    const catalogueCode: string
    const catalogueVersion: string
    const catalogueStatus: string
    const macroOpName: string
    const macroOpResult: Option<R>
    const macroOpLogs: seq<string>
    const logNodes: seq<N>
    const validationErrors: seq<N>

    /** The getters read back exactly these arguments. */
    constructor (action: string, transmissionDate: Option<int>, processingDate: Option<int>,
                 uploadedFilename: string, catalogueCode: string, catalogueVersion: string,
                 catalogueStatus: string, macroOpName: string, macroOpResult: Option<R>,
                 macroOpLogs: seq<string>, logNodes: seq<N>, validationErrors: seq<N>)
      ensures this.action == action && this.transmissionDate == transmissionDate
      ensures this.processingDate == processingDate && this.uploadedFilename == uploadedFilename
      ensures this.catalogueCode == catalogueCode && this.catalogueVersion == catalogueVersion
      ensures this.catalogueStatus == catalogueStatus && this.macroOpName == macroOpName
      ensures this.macroOpResult == macroOpResult && this.macroOpLogs == macroOpLogs
      ensures this.logNodes == logNodes && this.validationErrors == validationErrors
    {
      this.action := action;
      this.transmissionDate := transmissionDate;
      this.processingDate := processingDate;
      this.uploadedFilename := uploadedFilename;
      this.catalogueCode := catalogueCode;
      this.catalogueVersion := catalogueVersion;
      this.catalogueStatus := catalogueStatus;
      this.macroOpName := macroOpName;
      this.macroOpResult := macroOpResult;
      this.macroOpLogs := macroOpLogs;
      this.logNodes := logNodes;
      this.validationErrors := validationErrors;
    }

    /** `isMacroOperationCorrect()`: the overall result is OK (a missing result is not). */
    function IsMacroOperationCorrect(ok: R): (r: bool)
      ensures r ==> macroOpResult.Some?
      ensures macroOpResult.Some? ==> (r <==> macroOpResult.value == ok)
    {
      macroOpResult == Some(ok)
    }

    /** `getLogNodesWithErrors()`: the failing log nodes, then the failing validation
        errors, each group in its order. */
    method GetLogNodesWithErrors(isOperationCorrect: N -> bool) returns (nodes: seq<N>)
      ensures nodes == Failing(logNodes, isOperationCorrect) + Failing(validationErrors, isOperationCorrect)
      ensures |nodes| == |FailingPositions(logNodes, isOperationCorrect)| +
                         |FailingPositions(validationErrors, isOperationCorrect)|
    {
      nodes := [];
      for i := 0 to |logNodes|
        invariant nodes == Failing(logNodes[..i], isOperationCorrect)
      {
        assert logNodes[..i + 1][..i] == logNodes[..i];
        if !isOperationCorrect(logNodes[i]) {
          nodes := nodes + [logNodes[i]];
        }
      }
      assert logNodes[..|logNodes|] == logNodes;
      var logged := nodes;
      for i := 0 to |validationErrors|
        invariant nodes == logged + Failing(validationErrors[..i], isOperationCorrect)
      {
        assert validationErrors[..i + 1][..i] == validationErrors[..i];
        if !isOperationCorrect(validationErrors[i]) {
          nodes := nodes + [validationErrors[i]];
        }
      }
      assert validationErrors[..|validationErrors|] == validationErrors;
      FailingCount(logNodes, isOperationCorrect);
      FailingCount(validationErrors, isOperationCorrect);
    }
  }
}
