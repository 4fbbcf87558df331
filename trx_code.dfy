// The transaction code of a DCF message header: TRXOK, TRXKO, or OTHER for anything else.

module TrxCodes {
  import opened Wrappers
  import opened JavaStrings

  datatype TrxCode = TrxOk | TrxKo | Other

  /** The header name each constant is built with; it is written in upper case. */
  function HeaderName(c: TrxCode): (r: string)
    ensures |r| == 5 && IsUpper(r)
  {
    match c
    case TrxOk => "TRXOK"
    case TrxKo => "TRXKO"
    case Other => "OTHER"
  }

  /** No two constants have header names that are equal ignoring case. */
  lemma HeaderNamesDistinct(c: TrxCode, d: TrxCode)
    requires c != d
    ensures !EqualsIgnoreCase(HeaderName(c), HeaderName(d))
  {
    ToUpperProperties(HeaderName(c));
    ToUpperProperties(HeaderName(d));
    if c == Other || d == Other {
      assert HeaderName(c)[0] != HeaderName(d)[0];
    } else {
      assert HeaderName(c)[4] != HeaderName(d)[4];
    }
  }

  /** `values()`, in declaration order. */
  const Values: seq<TrxCode> := [TrxOk, TrxKo, Other]

  /** The first of `codes` whose header name equals `text` ignoring case; a null text
      equals nothing. */
  function FirstMatch(codes: seq<TrxCode>, text: Option<string>): (r: Option<TrxCode>)
    ensures r.Some? ==> r.value in codes && text.Some? && EqualsIgnoreCase(HeaderName(r.value), text.value)
    ensures r.None? ==> text.None? || forall c :: c in codes ==> !EqualsIgnoreCase(HeaderName(c), text.value)
  {
    if codes == [] || text.None? then None
    else if EqualsIgnoreCase(HeaderName(codes[0]), text.value) then Some(codes[0])
    else FirstMatch(codes[1..], text)
  }

  /** `fromString(text)`: the constant whose header name matches, OTHER otherwise. */
  function FromString(text: Option<string>): (r: TrxCode)
    ensures (text.Some? && EqualsIgnoreCase(HeaderName(r), text.value)) ||
      (r == Other && (text.None? || forall c :: !EqualsIgnoreCase(HeaderName(c), text.value)))
  {
    match FirstMatch(Values, text)
    case Some(c) => c
    case None => Other
  }

  /** Every constant is found again from its header name. */
  lemma FromHeaderName(c: TrxCode)
    ensures FromString(Some(HeaderName(c))) == c
  {
    assert EqualsIgnoreCase(HeaderName(c), HeaderName(c));
    if c != TrxOk {
      HeaderNamesDistinct(TrxOk, c);
    }
    if c == Other {
      HeaderNamesDistinct(TrxKo, c);
    }
  }

  /** Matching ignores case: a text and its upper-cased form give the same constant. */
  lemma FromStringIgnoresCase(s: string)
    ensures FromString(Some(ToUpper(s))) == FromString(Some(s))
  {
    ToUpperProperties(s);
  }

  /** A text that names no constant, and a null text, give OTHER. */
  lemma UnmatchedIsOther(text: Option<string>)
    requires text.None? || forall c :: !EqualsIgnoreCase(HeaderName(c), text.value)
    ensures FromString(text) == Other
  {
  }
}
