/**
 * The parts of java.lang.String and java.lang.Integer that the modelled code relies on:
 * `trim`, `toUpperCase`, `equalsIgnoreCase`, `split` on a one-character separator,
 * `replace` of a literal, `Integer.parseInt` and `String.valueOf(int)`.
 * Only ASCII letters change case and only ASCII digits are digits.
 */
module JavaStrings {
  import opened Wrappers

  // ---------------------------------------------------------------- trim

  /** `String.trim` drops leading and trailing characters up to and including the space. */
  predicate IsTrimmable(c: char) {
    c <= ' '
  }

  function TrimStart(s: string): string {
    if s == [] || !IsTrimmable(s[0]) then s else TrimStart(s[1..])
  }

  function TrimEnd(s: string): string {
    if s == [] || !IsTrimmable(s[|s| - 1]) then s else TrimEnd(s[..|s| - 1])
  }

  /** `s.trim()`: the longest infix of `s` that neither starts nor ends with a trimmable character. */
  function Trim(s: string): (r: string)
  {
    TrimEnd(TrimStart(s))
  }

  /** Where the trimmed text starts in the input. */
  function TrimOffset(s: string): nat
  {
    TrimStartShape(s);
    |s| - |TrimStart(s)|
  }

  /** Trimming the start cuts a prefix of trimmable characters and stops at the first other one. */
  lemma {:induction false} TrimStartShape(s: string)
    ensures var r := TrimStart(s);
      && |r| <= |s| && r == s[|s| - |r|..]
      && (r == [] || !IsTrimmable(r[0]))
      && forall i :: 0 <= i < |s| - |r| ==> IsTrimmable(s[i])
  {
    if s != [] && IsTrimmable(s[0]) {
      TrimStartShape(s[1..]);
    }
  }

  /** Trimming the end cuts a suffix of trimmable characters and stops at the last other one. */
  lemma {:induction false} TrimEndShape(s: string)
    ensures var r := TrimEnd(s);
      && |r| <= |s| && r == s[..|r|]
      && (r == [] || !IsTrimmable(r[|r| - 1]))
      && forall i :: |r| <= i < |s| ==> IsTrimmable(s[i])
  {
    if s != [] && IsTrimmable(s[|s| - 1]) {
      TrimEndShape(s[..|s| - 1]);
    }
  }

  /** The trimmed text is a contiguous part of the input, with only trimmable characters cut
      on either side, and it neither starts nor ends with one. */
  lemma TrimIsTrimmedInfix(s: string)
    ensures var lo, r := TrimOffset(s), Trim(s);
      && lo + |r| <= |s| && r == s[lo..lo + |r|]
      && (forall i :: 0 <= i < lo ==> IsTrimmable(s[i]))
      && (forall i :: lo + |r| <= i < |s| ==> IsTrimmable(s[i]))
    ensures Trim(s) == [] || (!IsTrimmable(Trim(s)[0]) && !IsTrimmable(Trim(s)[|Trim(s)| - 1]))
  {
    var a := TrimStart(s);
    TrimStartShape(s);
    TrimEndShape(a);
    InfixOfSuffix(s, a, TrimEnd(a), |s| - |a|);
  }

  /** Cutting trimmable characters off the end of a suffix that was cut the same way. */
  lemma InfixOfSuffix(s: string, a: string, r: string, lo: nat)
    requires lo <= |s| && a == s[lo..] && |r| <= |a| && r == a[..|r|]
    requires forall i :: |r| <= i < |a| ==> IsTrimmable(a[i])
    requires r == [] || (!IsTrimmable(a[0]) && !IsTrimmable(r[|r| - 1]))
    ensures lo + |r| <= |s| && r == s[lo..lo + |r|]
    ensures forall i :: lo + |r| <= i < |s| ==> IsTrimmable(s[i])
    ensures r == [] || (!IsTrimmable(r[0]) && !IsTrimmable(r[|r| - 1]))
  {
    forall i | lo + |r| <= i < |s| ensures IsTrimmable(s[i]) {
      assert s[i] == a[i - lo];
    }
  }

  /** Trimming twice is trimming once. */
  lemma TrimIdempotent(s: string)
    ensures Trim(Trim(s)) == Trim(s)
  {
    var r := Trim(s);
    TrimIsTrimmedInfix(s);
    if r != [] {
      assert TrimStart(r) == r;
      assert TrimEnd(r) == r;
    }
  }

  /** A text made only of trimmable characters trims to the empty text. */
  lemma TrimBlank(s: string)
    requires forall i :: 0 <= i < |s| ==> IsTrimmable(s[i])
    ensures Trim(s) == []
  {
    TrimIsTrimmedInfix(s);
  }

  // ---------------------------------------------------------------- case

  function UpperChar(c: char): char {
    if 'a' <= c <= 'z' then (c as int - 32) as char else c
  }

  /** `s.toUpperCase()` restricted to ASCII letters. */
  function ToUpper(s: string): string {
    seq(|s|, i requires 0 <= i < |s| => UpperChar(s[i]))
  }

  predicate IsUpper(s: string) {
    forall i :: 0 <= i < |s| ==> !('a' <= s[i] <= 'z')
  }

  /** Upper-casing keeps the length, yields no lower-case letter and changes nothing that
      has none. */
  lemma ToUpperProperties(s: string)
    ensures |ToUpper(s)| == |s| && IsUpper(ToUpper(s))
    ensures IsUpper(s) ==> ToUpper(s) == s
    ensures ToUpper(ToUpper(s)) == ToUpper(s)
  {
  }

  /** `a.equalsIgnoreCase(b)` on ASCII text (a null `b` is handled by the callers). */
  predicate EqualsIgnoreCase(a: string, b: string) {
    ToUpper(a) == ToUpper(b)
  }

  // ---------------------------------------------------------------- numbers

  const IntMin: int := -0x8000_0000
  const IntMax: int := 0x7fff_ffff

  predicate IsDigit(c: char) {
    '0' <= c <= '9'
  }

  predicate AllDigits(s: string) {
    forall i :: 0 <= i < |s| ==> IsDigit(s[i])
  }

  function DigitsValue(s: string): nat
    requires AllDigits(s)
  {
    if s == [] then 0 else DigitsValue(s[..|s| - 1]) * 10 + (s[|s| - 1] as int - '0' as int)
  }

  /** An optional sign followed by at least one decimal digit, of any magnitude. */
  function ParseDecimal(s: string): Option<int> {
    if |s| > 1 && (s[0] == '-' || s[0] == '+') && AllDigits(s[1..]) then
      var v: int := DigitsValue(s[1..]);
      Some(if s[0] == '-' then -v else v)
    else if |s| > 0 && AllDigits(s) then
      Some(DigitsValue(s))
    else
      None
  }

  /** `Integer.parseInt(s)` (and `Integer.valueOf`): `None` stands for NumberFormatException,
      thrown for a malformed text and for a value outside the 32-bit range. */
  function ParseInt(s: string): (r: Option<int>)
    ensures r.Some? ==> IntMin <= r.value <= IntMax && ParseDecimal(s) == r
  {
    match ParseDecimal(s)
    case Some(v) => if IntMin <= v <= IntMax then Some(v) else None
    case None => None
  }

  function DigitChar(d: nat): char
    requires d < 10
  {
    ('0' as int + d) as char
  }

  function NatToDigits(n: nat): (r: string)
    ensures |r| > 0 && AllDigits(r)
  {
    if n < 10 then [DigitChar(n)] else NatToDigits(n / 10) + [DigitChar(n % 10)]
  }

  /** `String.valueOf(n)`: decimal digits, with a leading '-' for a negative value. */
  function IntToString(n: int): string {
    if n < 0 then "-" + NatToDigits(-n) else NatToDigits(n)
  }

  lemma {:induction false} DigitsRoundTrip(n: nat)
    ensures DigitsValue(NatToDigits(n)) == n
  {
    if n >= 10 {
      DigitsRoundTrip(n / 10);
      var r := NatToDigits(n);
      assert r[..|r| - 1] == NatToDigits(n / 10);
    }
  }

  /** Printing an integer and parsing it back gives the integer. */
  lemma IntToStringRoundTrip(n: int)
    ensures ParseDecimal(IntToString(n)) == Some(n)
    ensures IntMin <= n <= IntMax ==> ParseInt(IntToString(n)) == Some(n)
  {
    if n < 0 {
      DigitsRoundTrip(-n);
      assert IntToString(n)[1..] == NatToDigits(-n);
    } else {
      DigitsRoundTrip(n);
    }
  }

  /** A printed integer holds only digits and a leading minus sign. */
  lemma IntToStringChars(n: int)
    ensures |IntToString(n)| > 0
    ensures forall i :: 0 <= i < |IntToString(n)| ==> IsDigit(IntToString(n)[i]) || IntToString(n)[i] == '-'
  {
    if n < 0 {
      var d := NatToDigits(-n);
      forall i | 1 <= i < |IntToString(n)| ensures IsDigit(IntToString(n)[i]) {
        assert IntToString(n)[i] == d[i - 1];
      }
    }
  }

  /** A printed integer has nothing to trim. */
  lemma TrimIntToString(n: int)
    ensures IntToString(n) != "" && Trim(IntToString(n)) == IntToString(n)
  {
    var s := IntToString(n);
    IntToStringChars(n);
    assert !IsTrimmable(s[0]) && !IsTrimmable(s[|s| - 1]);
    assert TrimStart(s) == s;
    assert TrimEnd(s) == s;
  }

  // ---------------------------------------------------------------- split

  /** The pieces between every occurrence of `c`, empty pieces included. */
  function SplitAll(s: string, c: char): (r: seq<string>)
    ensures |r| >= 1
  {
    if s == [] then [[]]
    else if s[0] == c then [[]] + SplitAll(s[1..], c)
    else var t := SplitAll(s[1..], c); [[s[0]] + t[0]] + t[1..]
  }

  function Join(pieces: seq<string>, c: char): string
    requires |pieces| >= 1
  {
    if |pieces| == 1 then pieces[0] else pieces[0] + [c] + Join(pieces[1..], c)
  }

  /** Joining the pieces with the separator gives back the text. */
  lemma {:induction false} SplitAllJoin(s: string, c: char)
    ensures Join(SplitAll(s, c), c) == s
  {
    if s != [] {
      SplitAllJoin(s[1..], c);
      var t := SplitAll(s[1..], c);
      var pieces := SplitAll(s, c);
      if s[0] == c {
        assert pieces == [[]] + t;
        assert pieces[1..] == t;
        assert Join(pieces, c) == [] + [c] + Join(t, c);
      } else {
        assert pieces == [[s[0]] + t[0]] + t[1..];
        if |t| == 1 {
          assert Join(pieces, c) == [s[0]] + t[0];
        } else {
          assert pieces[1..] == t[1..];
          assert Join(pieces, c) == [s[0]] + t[0] + [c] + Join(t[1..], c);
          assert Join(t, c) == t[0] + [c] + Join(t[1..], c);
        }
      }
      assert s == [s[0]] + s[1..];
    }
  }

  /** No piece holds the separator. */
  lemma {:induction false} SplitAllPiecesFree(s: string, c: char)
    ensures forall k :: 0 <= k < |SplitAll(s, c)| ==> c !in SplitAll(s, c)[k]
  {
    if s != [] {
      SplitAllPiecesFree(s[1..], c);
    }
  }

  /** Splitting a join of separator-free pieces gives back the pieces. */
  lemma {:induction false} JoinSplitAll(pieces: seq<string>, c: char)
    requires |pieces| >= 1
    requires forall k :: 0 <= k < |pieces| ==> c !in pieces[k]
    ensures SplitAll(Join(pieces, c), c) == pieces
  {
    if |pieces| == 1 {
      PieceSplitAll(pieces[0], [], c);
      assert pieces[0] + [] == pieces[0];
    } else {
      var rest := Join(pieces[1..], c);
      JoinSplitAll(pieces[1..], c);
      var tail := [c] + rest;
      assert tail[0] == c && tail[1..] == rest;
      assert SplitAll(tail, c) == [[]] + pieces[1..];
      PieceSplitAll(pieces[0], tail, c);
      assert Join(pieces, c) == pieces[0] + tail;
      var t := SplitAll(tail, c);
      assert t[0] == [] && t[1..] == pieces[1..];
      assert pieces[0] + t[0] == pieces[0];
      assert pieces == [pieces[0]] + pieces[1..];
    }
  }

  /** A separator-free prefix glues onto the first piece of what follows it. */
  lemma {:induction false} PieceSplitAll(p: string, rest: string, c: char)
    requires c !in p
    ensures var t := SplitAll(rest, c);
      SplitAll(p + rest, c) == [p + t[0]] + t[1..]
  {
    if p != [] {
      PieceSplitAll(p[1..], rest, c);
      var s := p + rest;
      var t := SplitAll(rest, c);
      assert p[0] in p;
      assert s[0] == p[0] && s[1..] == p[1..] + rest;
      var u := SplitAll(s[1..], c);
      assert u == [p[1..] + t[0]] + t[1..];
      assert SplitAll(s, c) == [[p[0]] + u[0]] + u[1..];
      assert [p[0]] + (p[1..] + t[0]) == p + t[0];
    } else {
      assert p + rest == rest;
      var t := SplitAll(rest, c);
      assert p + t[0] == t[0];
      assert t == [t[0]] + t[1..];
    }
  }

  function DropTrailingEmpty(pieces: seq<string>): (r: seq<string>)
    ensures |r| <= |pieces| && r == pieces[..|r|]
    ensures r == [] || r[|r| - 1] != []
    ensures forall k :: |r| <= k < |pieces| ==> pieces[k] == []
  {
    if |pieces| > 0 && pieces[|pieces| - 1] == [] then DropTrailingEmpty(pieces[..|pieces| - 1]) else pieces
  }

  /** `s.split(sep)` with a one-character literal separator and limit 0: the whole text when
      the separator does not occur, otherwise the pieces with trailing empty pieces dropped. */
  function Split(s: string, c: char): seq<string> {
    if c !in s then [s] else DropTrailingEmpty(SplitAll(s, c))
  }

  /** Splitting a join of separator-free pieces whose last piece is non-empty yields exactly
      those pieces. */
  lemma SplitJoin(pieces: seq<string>, c: char)
    requires |pieces| >= 1 && pieces[|pieces| - 1] != []
    requires forall k :: 0 <= k < |pieces| ==> c !in pieces[k]
    ensures Split(Join(pieces, c), c) == pieces
  {
    JoinSplitAll(pieces, c);
  }

  // ---------------------------------------------------------------- replace

  /** `t` occurs in `s` starting at index `i`. */
  predicate OccursAt(s: string, t: string, i: int) {
    0 <= i && i + |t| <= |s| && s[i..i + |t|] == t
  }

  /** `s.replace("", r)`: `r` inserted before every character and at the end. */
  function InsertEverywhere(s: string, r: string): string {
    if s == [] then r else r + [s[0]] + InsertEverywhere(s[1..], r)
  }

  /** `s.replace(t, r)`: every occurrence of the literal `t`, scanned left to right without
      overlap, replaced by `r`. */
  function ReplaceAll(s: string, t: string, r: string): string
    decreases |s|
  {
    if |t| == 0 then InsertEverywhere(s, r)
    else if |s| < |t| then s
    else if s[..|t|] == t then r + ReplaceAll(s[|t|..], t, r)
    else [s[0]] + ReplaceAll(s[1..], t, r)
  }

  /** Replacing a literal with itself changes nothing. */
  lemma {:induction false} ReplaceWithItself(s: string, t: string)
    ensures ReplaceAll(s, t, t) == s
    decreases |s|
  {
    if |t| == 0 {
      InsertNothing(s);
    } else if |s| >= |t| {
      if s[..|t|] == t {
        ReplaceWithItself(s[|t|..], t);
        assert s == s[..|t|] + s[|t|..];
      } else {
        ReplaceWithItself(s[1..], t);
        assert s == [s[0]] + s[1..];
      }
    }
  }

  lemma {:induction false} InsertNothing(s: string)
    ensures InsertEverywhere(s, []) == s
  {
    if s != [] {
      InsertNothing(s[1..]);
      assert s == [s[0]] + s[1..];
    }
  }

  /** A non-empty literal that does not occur leaves the text unchanged. */
  lemma {:induction false} ReplaceAbsent(s: string, t: string, r: string)
    requires |t| > 0
    requires forall i :: !OccursAt(s, t, i)
    ensures ReplaceAll(s, t, r) == s
    decreases |s|
  {
    if |s| >= |t| {
      assert !OccursAt(s, t, 0);
      assert s[..|t|] != t;
      forall i ensures !OccursAt(s[1..], t, i) {
        if OccursAt(s[1..], t, i) {
          assert s[1..][i..i + |t|] == s[i + 1..i + 1 + |t|];
          assert OccursAt(s, t, i + 1);
        }
      }
      ReplaceAbsent(s[1..], t, r);
      assert s == [s[0]] + s[1..];
    }
  }

  /** Replacing a one-character literal by nothing removes every occurrence of that character
      and keeps every other character in order. */
  lemma {:induction false} RemoveCharacter(s: string, c: char)
    ensures c !in ReplaceAll(s, [c], [])
    ensures ReplaceAll(s, [c], []) == RemoveAll(s, c)
  {
    if s != [] {
      RemoveCharacter(s[1..], c);
      assert s[..1] == [s[0]];
    }
  }

  /** The characters of `s` other than `c`, in order. */
  function RemoveAll(s: string, c: char): string {
    if s == [] then [] else (if s[0] == c then [] else [s[0]]) + RemoveAll(s[1..], c)
  }
}
