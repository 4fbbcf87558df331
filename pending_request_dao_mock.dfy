// The in-memory stand-in for the pending-request table used by the tests: a list of
// requests that grows at its end and loses every request with a given log code.

module PendingRequests {
  import opened Wrappers
  import opened Sequences

  /** The requests whose log code is not `code`, in their order. */
  function Kept<T(==)>(requests: seq<T>, logCode: T -> string, code: string): seq<T> {
    if requests == [] then []
    else
      var last := requests[|requests| - 1];
      Kept(requests[..|requests| - 1], logCode, code) + (if logCode(last) == code then [] else [last])
  }

  /** What is kept is an order-preserving subsequence holding exactly the requests with
      another log code. */
  lemma {:induction false} KeptShape<T>(requests: seq<T>, logCode: T -> string, code: string)
    ensures var r := Kept(requests, logCode, code);
      && IsSubsequence(r, requests)
      && (forall i :: 0 <= i < |r| ==> logCode(r[i]) != code)
      && (forall i :: 0 <= i < |requests| && logCode(requests[i]) != code ==> requests[i] in r)
  {
    if requests != [] {
      var init, last := requests[..|requests| - 1], requests[|requests| - 1];
      KeptShape(init, logCode, code);
      var r := Kept(init, logCode, code);
      assert requests == init + [last];
      if logCode(last) == code {
        SubsequenceExtend(r, init, last);
        assert Kept(requests, logCode, code) == r;
      } else {
        SubsequenceAppend(r, init, last);
      }
      forall i | 0 <= i < |requests| && logCode(requests[i]) != code
        ensures requests[i] in Kept(requests, logCode, code)
      {
        if i < |init| {
          assert requests[i] == init[i];
        }
      }
    }
  }

  /** Something is dropped exactly when some request has the log code. */
  lemma {:induction false} KeptShrinks<T>(requests: seq<T>, logCode: T -> string, code: string)
    ensures |Kept(requests, logCode, code)| <= |requests|
    ensures |Kept(requests, logCode, code)| < |requests| <==>
      exists i :: 0 <= i < |requests| && logCode(requests[i]) == code
  {
    if requests != [] {
      var n := |requests| - 1;
      var init := requests[..n];
      KeptShrinks(init, logCode, code);
      assert forall i :: 0 <= i < n ==> init[i] == requests[i];
      if logCode(requests[n]) != code && exists i :: 0 <= i < |requests| && logCode(requests[i]) == code {
        var i :| 0 <= i < |requests| && logCode(requests[i]) == code;
        assert init[i] == requests[i];
      }
    }
  }

  /** `Kept` over a list that grows at its end. */
  lemma KeptSnoc<T>(requests: seq<T>, x: T, logCode: T -> string, code: string)
    ensures Kept(requests + [x], logCode, code) ==
      Kept(requests, logCode, code) + (if logCode(x) == code then [] else [x])
  {
    assert (requests + [x])[..|requests|] == requests;
  }

  /** One step of the iterator of `remove`: the request under it is the next original
      one, and removing it or stepping over it keeps the list as the kept prefix followed
      by the requests not yet visited. */
  lemma RemoveStep<T>(requests: seq<T>, n: int, database: seq<T>, logCode: T -> string, code: string)
    requires 0 <= n < |requests|
    requires database == Kept(requests[..n], logCode, code) + requests[n..]
    ensures var i := |Kept(requests[..n], logCode, code)|;
      i < |database| && database[i] == requests[n] &&
      var next := Kept(requests[..n + 1], logCode, code) + requests[n + 1..];
      (logCode(requests[n]) == code ==> database[..i] + database[i + 1..] == next && |Kept(requests[..n + 1], logCode, code)| == i) &&
      (logCode(requests[n]) != code ==> database == next && |Kept(requests[..n + 1], logCode, code)| == i + 1)
  {
    var kept := Kept(requests[..n], logCode, code);
    assert requests[..n + 1] == requests[..n] + [requests[n]];
    KeptSnoc(requests[..n], requests[n], logCode, code);
    assert requests[n..] == [requests[n]] + requests[n + 1..];
  }

  class PendingRequestDaoMock<T(==)> {
    var database: seq<T>

    /** A new mock holds no request. */
    constructor ()
      ensures database == []
    {
      database := [];
    }

    /** `insert(request)`: appends the request and answers 0. */
    method Insert(request: T) returns (r: int)
      modifies this
      ensures database == old(database) + [request] && r == 0
    {
      database := database + [request];
      return 0;
    }

    /** `remove(code)`: walks the list with an iterator and removes every request with log
        code `code`; answers whether any was removed. */
    method Remove(code: string, logCode: T -> string) returns (removed: bool)
      modifies this
      ensures database == Kept(old(database), logCode, code)
      ensures removed <==> exists i :: 0 <= i < |old(database)| && logCode(old(database)[i]) == code
    {
      removed := false;
      ghost var requests := database;
      var i := 0;
      ghost var n := 0;
      while i < |database|
        invariant 0 <= n <= |requests|
        invariant database == Kept(requests[..n], logCode, code) + requests[n..]
        invariant i == |Kept(requests[..n], logCode, code)|
        invariant i <= n && (removed <==> i < n)
        decreases |database| - i
      {
        RemoveStep(requests, n, database, logCode, code);
        var request := database[i];
        if logCode(request) == code {
          database := database[..i] + database[i + 1..];
          removed := true;
        } else {
          i := i + 1;
        }
        n := n + 1;
      }
      assert requests[..n] == requests;
      KeptShrinks(requests, logCode, code);
    }

    /** `getUserPendingRequests(user, output)`: appends every stored request to `output`,
        whoever the user. */
    method GetUserPendingRequests(output: seq<T>) returns (r: seq<T>)
      ensures r == output + database
    {
      r := output;
      for i := 0 to |database|
        invariant r == output + database[..i]
      {
        r := r + [database[i]];
      }
      assert database[..|database|] == database;
    }

    /** `getByResultSet(user, rs, output)`: reads nothing and answers null. */
    function GetByResultSet(output: T): (r: Option<T>)
      ensures r.None?
    {
      None
    }
  }
}
