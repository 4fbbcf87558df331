// The kind of a report: a plain monthly report or the aggregation of several amended
// monthly reports of one data collection. Stored in the report row by its constant name.

module ReportTypes {
  import opened Wrappers
  import opened JavaStrings

  datatype ReportType = SimpleMonthly | CollectionAggregation

  /** `name()` of the enum constant. */
  function Name(t: ReportType): string {
    match t
    case SimpleMonthly => "SIMPLE_MONTHLY"
    case CollectionAggregation => "COLLECTION_AGGREGATION"
  }

  function GetDefault(): ReportType {
    SimpleMonthly
  }

  /** `ReportType.valueOf(s)`: the constant whose name is exactly `s`. */
  function ValueOf(s: string): Option<ReportType> {
    if s == Name(SimpleMonthly) then Some(SimpleMonthly)
    else if s == Name(CollectionAggregation) then Some(CollectionAggregation)
    else None
  }

  /** `getOrDefault(type)`: the constant named by the upper-cased text; a null text (whose
      upper-casing throws) and an unknown name both fall back to the default. */
  function GetOrDefault(s: Option<string>): (r: ReportType)
    ensures s.Some? && (exists t :: ToUpper(s.value) == Name(t)) ==> ToUpper(s.value) == Name(r)
    ensures (s.None? || forall t :: ToUpper(s.value) != Name(t)) ==> r == GetDefault()
  {
    if s.None? then GetDefault()
    else match ValueOf(ToUpper(s.value))
      case Some(t) => t
      case None => GetDefault()
  }

  /** Every constant is found again from its own name. */
  lemma GetOrDefaultName(t: ReportType)
    ensures GetOrDefault(Some(Name(t))) == t
  {
    ToUpperProperties(Name(t));
  }

  /** The lookup ignores the case of the text. */
  lemma GetOrDefaultIgnoresCase(s: string)
    ensures GetOrDefault(Some(ToUpper(s))) == GetOrDefault(Some(s))
  {
    ToUpperProperties(s);
  }
}
