// The acknowledgement log of a DCF message: the fields read from its XML document and the
// reduction of the operation errors it lists to the one that takes priority.

module DcfAckLogs {
  import opened Wrappers

  /** The XML document as the log reads it: the texts of the nodes with each tag, in
      document order (a tag with no node is absent or maps to no text). */
  type Document = map<string, seq<string>>

  /** The error `getOpResError()` settles on: starting from `none`, each listed error, once
      parsed, replaces the current one when it takes priority over it. */
  function BestError<E>(texts: seq<string>, none: E, parse: string -> E, priorTo: (E, E) -> bool): E {
    if texts == [] then none
    else
      var best := BestError(texts[..|texts| - 1], none, parse, priorTo);
      var current := parse(texts[|texts| - 1]);
      if priorTo(current, best) then current else best
  }

  /** `priorTo` is a strict order: irreflexive and transitive. */
  ghost predicate StrictOrder<E(!new)>(priorTo: (E, E) -> bool) {
    (forall a :: !priorTo(a, a)) &&
    (forall a, b, c :: priorTo(a, b) && priorTo(b, c) ==> priorTo(a, c))
  }

  /** The error settled on is NONE or one of the listed errors. */
  lemma {:induction false} BestErrorIsListed<E>(texts: seq<string>, none: E, parse: string -> E, priorTo: (E, E) -> bool)
    ensures var r := BestError(texts, none, parse, priorTo);
      r == none || exists i :: 0 <= i < |texts| && r == parse(texts[i])
  {
    if texts != [] {
      var init := texts[..|texts| - 1];
      BestErrorIsListed(init, none, parse, priorTo);
      var best := BestError(init, none, parse, priorTo);
      if best != none && !priorTo(parse(texts[|texts| - 1]), best) {
        var i :| 0 <= i < |init| && best == parse(init[i]);
        assert texts[i] == init[i];
      }
    }
  }

  /** When `priorTo` is a strict order, no listed error takes priority over the one settled
      on, and that one is NONE or takes priority over NONE. */
  lemma {:induction false} BestErrorHasPriority<E(!new)>(texts: seq<string>, none: E, parse: string -> E, priorTo: (E, E) -> bool)
    requires StrictOrder(priorTo)
    ensures var r := BestError(texts, none, parse, priorTo);
      (forall i :: 0 <= i < |texts| ==> !priorTo(parse(texts[i]), r)) &&
      (r == none || priorTo(r, none))
  {
    if texts != [] {
      var init := texts[..|texts| - 1];
      BestErrorHasPriority(init, none, parse, priorTo);
      var best := BestError(init, none, parse, priorTo);
      var r := BestError(texts, none, parse, priorTo);
      forall i | 0 <= i < |texts| ensures !priorTo(parse(texts[i]), r) {
        if i < |init| {
          assert texts[i] == init[i];
          assert !priorTo(parse(init[i]), best);
        }
      }
    }
  }

  class DcfAckLog {
    const log: Document

    constructor (log: Document)
      ensures this.log == log
    {
      this.log := log;
    }

    /** The texts of the nodes with `tag`, in document order. */
    function NodesText(tag: string): seq<string> {
      if tag in log then log[tag] else []
    }

    /** `getNodesText(tag)`: collects the text of every node with `tag`. */
    method GetNodesText(tag: string) returns (text: seq<string>)
      ensures text == NodesText(tag)
    {
      var nodes := NodesText(tag);
      text := [];
      for i := 0 to |nodes|
        invariant text == nodes[..i]
      {
        text := text + [nodes[i]];
      }
    }

    /** `getFirstNodeText(tag)`: null when no node has `tag`, otherwise the first one's text. */
    function FirstNodeText(tag: string): (r: Option<string>)
      ensures r.None? <==> (tag !in log || log[tag] == [])
      ensures r.Some? ==> r.value == log[tag][0]
    {
      var nodes := NodesText(tag);
      if |nodes| == 0 then None else Some(nodes[0])
    }

    /** `getDCCode()`. */
    function DcCode(): (r: Option<string>)
      ensures r.None? <==> "dcCode" !in log || log["dcCode"] == []
      ensures r.Some? ==> r.value == log["dcCode"][0]
    {
      FirstNodeText("dcCode")
    }

    /** `getMessageValResText()`. */
    function MessageValResText(): (r: Option<string>)
      ensures r.None? <==> "messageValResText" !in log || log["messageValResText"] == []
      ensures r.Some? ==> r.value == log["messageValResText"][0]
    {
      FirstNodeText("messageValResText")
    }

    /** `getDetailedAckResId()`. */
    function DetailedAckResId(): (r: Option<string>)
      ensures r.None? <==> "detailedAckResId" !in log || log["detailedAckResId"] == []
      ensures r.Some? ==> r.value == log["detailedAckResId"][0]
    {
      FirstNodeText("detailedAckResId")
    }

    /** `getDatasetId()`. */
    function DatasetId(): (r: Option<string>)
      ensures r.None? <==> "datasetId" !in log || log["datasetId"] == []
      ensures r.Some? ==> r.value == log["datasetId"][0]
    {
      FirstNodeText("datasetId")
    }

    /** A coded field: null when its text is missing or empty, otherwise the text parsed by
        the enum's `fromString`. */
    function CodeOf<T>(tag: string, parse: string -> T): (r: Option<T>)
      ensures r.None? <==> (tag !in log || log[tag] == [] || log[tag][0] == "")
      ensures r.Some? ==> r.value == parse(log[tag][0])
    {
      match FirstNodeText(tag)
      case None => None
      case Some(code) => if code == "" then None else Some(parse(code))
    }

    /** `getMessageValResCode()`. */
    function MessageValResCode<T>(parse: string -> T): (r: Option<T>)
      ensures r.None? <==> "messageValResCode" !in log || log["messageValResCode"] == [] || log["messageValResCode"][0] == ""
      ensures r.Some? ==> r.value == parse(log["messageValResCode"][0])
    {
      CodeOf("messageValResCode", parse)
    }

    /** `getOpResCode()`. */
    function OpResCode<T>(parse: string -> T): (r: Option<T>)
      ensures r.None? <==> "opResCode" !in log || log["opResCode"] == [] || log["opResCode"][0] == ""
      ensures r.Some? ==> r.value == parse(log["opResCode"][0])
    {
      CodeOf("opResCode", parse)
    }

    /** `getDatasetStatus()`. */
    function DatasetStatus<T>(parse: string -> T): (r: Option<T>)
      ensures r.None? <==> "datasetStatus" !in log || log["datasetStatus"] == [] || log["datasetStatus"][0] == ""
      ensures r.Some? ==> r.value == parse(log["datasetStatus"][0])
    {
      CodeOf("datasetStatus", parse)
    }

    /** `isOk()`: the operation result code is present and is OK. */
    function IsOk<T(==)>(parse: string -> T, ok: T): (r: bool)
      ensures r <==> ("opResCode" in log && log["opResCode"] != [] && log["opResCode"][0] != "" &&
                      parse(log["opResCode"][0]) == ok)
    {
      match OpResCode(parse)
      case None => false
      case Some(code) => code == ok
    }

    /** `getOpResLog()`. */
    function OpResLog(): (r: seq<string>)
      ensures |r| > 0 <==> "opResLog" in log && log["opResLog"] != []
      ensures "opResLog" in log ==> r == log["opResLog"]
    {
      NodesText("opResLog")
    }

    /** `hasErrors()`: some opResLog node is present. */
    function HasErrors(): (r: bool)
      ensures r <==> "opResLog" in log && log["opResLog"] != []
    {
      |OpResLog()| != 0
    }

    /** `getOpResError()`: the error of the operation log that takes priority, NONE for an
        empty log. */
    method GetOpResError<E>(none: E, parse: string -> E, priorTo: (E, E) -> bool) returns (error: E)
      ensures error == BestError(OpResLog(), none, parse, priorTo)
      ensures !HasErrors() ==> error == none
    {
      var errors := GetNodesText("opResLog");
      error := none;
      for i := 0 to |errors|
        invariant error == BestError(errors[..i], none, parse, priorTo)
      {
        var current := parse(errors[i]);
        assert errors[..i + 1][..i] == errors[..i];
        if priorTo(current, error) {
          error := current;
        }
      }
      assert errors[..|errors|] == errors;
    }
  }
}
