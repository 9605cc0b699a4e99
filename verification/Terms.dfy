/** The compiled selector terms of src/lql_json_scan.h, without recursive segments. */
module Terms {
  import opened Wrappers
  import opened Kmp
  import opened Utf8
  import NumberStream
  import opened DateTerms

  datatype Kind = Eq | Exists | Prefix | NumberEq | BoolEq | NullEq | Contains | IContains | IPrefix
                | NumberRange | TemporalRange | TextEq | ValuelessPresent

  /** The bounds of a number range; an absent bound does not restrict. */
  datatype Bounds = Bounds(gt: Option<string>, gte: Option<string>, lt: Option<string>, lte: Option<string>)

  datatype Term = Term(kind: Kind, path: seq<string>, value: string, failure: seq<nat>, bounds: Bounds, dates: DateBounds)

  /** Bounds, needles and failure tables as the selector compiler leaves them. */
  ghost predicate WellFormedTerm(term: Term) {
    && |term.path| > 0
    && (NeedsTable(term.kind) && term.value != "" ==> FailureTable(term.value, term.failure))
    && NumberStream.JsonNumbers(BoundTexts(term))
  }

  predicate NeedsTable(kind: Kind) { kind == Contains || kind == IContains }

  predicate FoldsCase(kind: Kind) { kind == IContains || kind == IPrefix }

  /** The kinds that also look at the text of numbers and of true and false. */
  predicate Textual(kind: Kind) { kind == Prefix || kind == Contains || FoldsCase(kind) }

  /** The kinds that look at strings. */
  predicate OnStrings(kind: Kind) { kind == Eq || kind == TextEq || Textual(kind) }

  predicate OnNumbers(kind: Kind) { kind == NumberEq || kind == NumberRange }

  /** The texts a number is compared with, in the order gt, gte, lt, lte. */
  function BoundTexts(term: Term): seq<string> {
    if term.kind == NumberEq then [term.value]
    else if term.kind == NumberRange then
      Listed(term.bounds.gt) + Listed(term.bounds.gte) + Listed(term.bounds.lt) + Listed(term.bounds.lte)
    else []
  }

  function Listed(bound: Option<string>): seq<string> { if bound.None? then [] else [bound.value] }
}
