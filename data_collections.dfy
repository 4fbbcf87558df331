// The data collections a user may report to: the test collection and one collection per
// year from the configured starting year up to the current year.

module DataCollections {
  import opened JavaStrings
  import opened Sequences

  /** The configuration the codes come from: the test data-collection code, the starting
      year, and the code of the collection of a year given as text. */
  datatype Config = Config(testCode: string, startingYear: int, codeOf: string -> string)

  /** The code of the collection of year `y`. */
  function YearCode(config: Config, y: int): string {
    config.codeOf(IntToString(y))
  }

  /** `getCodes()`, with the current year passed in: the test code, then the year codes
      from the current year down to the starting year. */
  method GetCodes(config: Config, currentYear: int) returns (codes: seq<string>)
    ensures |codes| == 1 + (if currentYear >= config.startingYear then currentYear - config.startingYear + 1 else 0)
    ensures codes[0] == config.testCode
    ensures forall k :: 1 <= k < |codes| ==> codes[k] == YearCode(config, currentYear - (k - 1))
  {
    codes := [config.testCode];
    if currentYear >= config.startingYear {
      var i := currentYear;
      while i >= config.startingYear
        invariant config.startingYear - 1 <= i <= currentYear
        invariant |codes| == 1 + currentYear - i
        invariant codes[0] == config.testCode
        invariant forall k :: 1 <= k < |codes| ==> codes[k] == YearCode(config, currentYear - (k - 1))
        decreases i - config.startingYear
      {
        codes := codes + [YearCode(config, i)];
        i := i - 1;
      }
    }
  }

  /** The elements of `s` that `keep` accepts, in order, repeated ones included. */
  function Filtered<T>(s: seq<T>, keep: T -> bool): seq<T> {
    if s == [] then []
    else
      var last := s[|s| - 1];
      Filtered(s[..|s| - 1], keep) + (if keep(last) then [last] else [])
  }

  /** `Filtered` over a list that grows at its end. */
  lemma FilteredSnoc<T>(s: seq<T>, x: T, keep: T -> bool)
    ensures Filtered(s + [x], keep) == Filtered(s, keep) + (if keep(x) then [x] else [])
  {
    assert (s + [x])[..|s + [x]| - 1] == s;
  }

  /** The filter is an order-preserving selection that keeps every accepted element as many
      times as it is listed and drops every other one. */
  lemma FilteredShape<T>(s: seq<T>, keep: T -> bool)
    ensures var r := Filtered(s, keep);
      IsSubsequence(r, s) &&
      (forall x :: x in r <==> x in s && keep(x)) &&
      (forall x :: multiset(r)[x] == if keep(x) then multiset(s)[x] else 0)
  {
    FilteredIsSubsequence(s, keep);
    FilteredCount(s, keep);
    var r := Filtered(s, keep);
    forall x ensures x in r <==> x in s && keep(x) {
      assert x in r <==> multiset(r)[x] > 0;
      assert x in s <==> multiset(s)[x] > 0;
    }
  }

  /** Part of `FilteredShape`: the order is kept. */
  lemma {:induction false} FilteredIsSubsequence<T>(s: seq<T>, keep: T -> bool)
    ensures IsSubsequence(Filtered(s, keep), s)
  {
    if s != [] {
      var init, last := s[..|s| - 1], s[|s| - 1];
      assert s == init + [last];
      FilteredIsSubsequence(init, keep);
      assert Filtered(s, keep) == Filtered(init, keep) + (if keep(last) then [last] else []);
      if keep(last) {
        SubsequenceAppend(Filtered(init, keep), init, last);
      } else {
        assert Filtered(s, keep) == Filtered(init, keep);
        SubsequenceExtend(Filtered(init, keep), init, last);
      }
    }
  }

  /** Part of `FilteredShape`: each element is kept as often as listed, or not at all. */
  lemma {:induction false} FilteredCount<T>(s: seq<T>, keep: T -> bool)
    ensures forall x :: multiset(Filtered(s, keep))[x] == if keep(x) then multiset(s)[x] else 0
  {
    if s != [] {
      var init, last := s[..|s| - 1], s[|s| - 1];
      assert s == init + [last];
      assert multiset(s) == multiset(init) + multiset{last};
      FilteredCount(init, keep);
      var r0 := Filtered(init, keep);
      assert multiset(Filtered(s, keep)) == multiset(r0) + (if keep(last) then multiset{last} else multiset{});
    }
  }

  /** Two tests that agree on the listed elements filter them alike. */
  lemma {:induction false} FilteredAgree<T>(s: seq<T>, keep1: T -> bool, keep2: T -> bool)
    requires forall k :: 0 <= k < |s| ==> keep1(s[k]) == keep2(s[k])
    ensures Filtered(s, keep1) == Filtered(s, keep2)
  {
    if s != [] {
      FilteredAgree(s[..|s| - 1], keep1, keep2);
    }
  }

  /** The test of the loop: the collection's code is one of the valid codes. */
  function HasValidCode<T>(codeOf: T -> string, validDcs: seq<string>): T -> bool {
    dc => codeOf(dc) in validDcs
  }

  /** A code that `getCodes()` lists: the test code or the code of a year in range. */
  predicate AvailableCode(config: Config, currentYear: int, code: string) {
    code == config.testCode ||
    exists y :: config.startingYear <= y <= currentYear && code == YearCode(config, y)
  }

  /** The collections `getAvailableDcList()` keeps: those whose code `getCodes()` lists. */
  function HasAvailableCode<T>(codeOf: T -> string, config: Config, currentYear: int): T -> bool {
    dc => AvailableCode(config, currentYear, codeOf(dc))
  }

  /** The loop of `getAvailableDcList()`, with the fetched list passed in: the fetched
      collections whose code is valid, in fetched order. */
  method KeepValid<T(==)>(fetched: seq<T>, codeOf: T -> string, validDcs: seq<string>) returns (filtered: seq<T>)
    ensures filtered == Filtered(fetched, HasValidCode(codeOf, validDcs))
    ensures IsSubsequence(filtered, fetched)
    ensures forall dc :: dc in filtered <==> dc in fetched && codeOf(dc) in validDcs
  {
    filtered := [];
    var i := 0;
    while i < |fetched|
      invariant 0 <= i <= |fetched|
      invariant filtered == Filtered(fetched[..i], HasValidCode(codeOf, validDcs))
    {
      FilteredSnoc(fetched[..i], fetched[i], HasValidCode(codeOf, validDcs));
      if codeOf(fetched[i]) in validDcs {
        filtered := filtered + [fetched[i]];
      }
      assert fetched[..i + 1] == fetched[..i] + [fetched[i]];
      i := i + 1;
    }
    assert fetched[..i] == fetched;
    FilteredShape(fetched, HasValidCode(codeOf, validDcs));
  }

  /** `getAvailableDcList()`: the fetched collections that belong to `getCodes()`. */
  method GetAvailableDcList<T(==)>(fetched: seq<T>, codeOf: T -> string, config: Config, currentYear: int)
    returns (filtered: seq<T>)
    ensures filtered == Filtered(fetched, HasAvailableCode(codeOf, config, currentYear))
    ensures IsSubsequence(filtered, fetched)
    ensures forall dc :: dc in filtered ==>
      (codeOf(dc) == config.testCode ||
       exists y :: config.startingYear <= y <= currentYear && codeOf(dc) == YearCode(config, y))
    ensures forall dc :: dc in fetched && codeOf(dc) == config.testCode ==> dc in filtered
    ensures forall dc, y ::
      (dc in fetched && config.startingYear <= y <= currentYear && codeOf(dc) == YearCode(config, y)) ==>
      dc in filtered
  {
    var validDcs := GetCodes(config, currentYear);
    filtered := KeepValid(fetched, codeOf, validDcs);
    forall k | 0 <= k < |fetched|
      ensures HasValidCode(codeOf, validDcs)(fetched[k]) == HasAvailableCode(codeOf, config, currentYear)(fetched[k])
    {
      var code := codeOf(fetched[k]);
      if code in validDcs {
        var j :| 0 <= j < |validDcs| && validDcs[j] == code;
        if j > 0 {
          assert code == YearCode(config, currentYear - (j - 1));
        }
      }
      if AvailableCode(config, currentYear, code) && code != config.testCode {
        var y :| config.startingYear <= y <= currentYear && code == YearCode(config, y);
        assert validDcs[currentYear - y + 1] == code;
      }
    }
    FilteredAgree(fetched, HasValidCode(codeOf, validDcs), HasAvailableCode(codeOf, config, currentYear));
    FilteredShape(fetched, HasAvailableCode(codeOf, config, currentYear));
  }
}
