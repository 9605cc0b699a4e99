/** Number terms against a finished number token (src/lql_json_scan.c:1464-1646). */
module NumberHits {
  import opened Wrappers
  import opened Utf8
  import opened Terms
  import opened Query
  import JsonNumber
  import opened NumberCompare
  import opened NumberStream

  /** Where the bounds of every active term lie in one list. */
  ghost predicate Placed(terms: seq<Term>, numbers: set<nat>, bounds: seq<string>, first: seq<nat>) {
    && |first| == |terms|
    && forall i :: i in numbers && 0 <= i < |terms| ==> PlacedAt(terms[i], bounds, first[i])
  }

  ghost predicate PlacedAt(term: Term, bounds: seq<string>, at: nat) {
    at + |BoundTexts(term)| <= |bounds| && bounds[at..at + |BoundTexts(term)|] == BoundTexts(term)
  }

  /** The tokens that src/lql_json_scan.c:1021-1107 starts one cursor for. */
  method CollectBounds(terms: seq<Term>, numbers: set<nat>) returns (bounds: seq<string>, first: seq<nat>)
    requires forall i :: 0 <= i < |terms| ==> WellFormedTerm(terms[i])
    ensures JsonNumbers(bounds) && Placed(terms, numbers, bounds, first)
  {
    hide WellFormedTerm, BoundTexts, JsonNumbers;
    bounds, first := [], [];
    NoBounds();
    for i := 0 to |terms|
      invariant JsonNumbers(bounds) && |first| == i
      invariant forall j :: 0 <= j < i && j in numbers ==> PlacedAt(terms[j], bounds, first[j])
    {
      first := first + [|bounds|];
      if i in numbers {
        BoundsJoin(bounds, terms[i]);
        forall j | 0 <= j < i && j in numbers ensures PlacedAt(terms[j], bounds + BoundTexts(terms[i]), first[j]) {
          StaysPlaced(terms[j], bounds, BoundTexts(terms[i]), first[j]);
        }
        bounds := bounds + BoundTexts(terms[i]);
      }
    }
  }

  lemma NoBounds()
    ensures JsonNumbers([])
  {
  }

  lemma BoundsJoin(bounds: seq<string>, term: Term)
    requires JsonNumbers(bounds) && WellFormedTerm(term)
    ensures JsonNumbers(bounds + BoundTexts(term)) && PlacedAt(term, bounds + BoundTexts(term), |bounds|)
  {
    hide BoundTexts;
  }

  lemma StaysPlaced(term: Term, bounds: seq<string>, more: seq<string>, at: nat)
    requires PlacedAt(term, bounds, at)
    ensures PlacedAt(term, bounds + more, at)
  {
    hide BoundTexts;
    assert (bounds + more)[at..at + |BoundTexts(term)|] == bounds[at..at + |BoundTexts(term)|];
  }

  /** No clamped exponent is compared: the token fits the buffer, or neither exponent clamps. */
  ghost predicate Settles(reach: nat, text: string, bound: string) { |text| < reach || (Unclamped(text) && Unclamped(bound)) }

  /** The answer of the comparison: exact for a token that fits, of what the summaries see for one that does not. */
  ghost function Answer(reach: nat, text: string, bound: string): int
    requires JsonNumber.IsJsonNumber(text) && JsonNumber.IsJsonNumber(bound)
  {
    if |text| < reach then Order(text, bound) else SeenOrder(text, bound)
  }

  ghost predicate Answered(reach: nat, text: string, bound: Option<string>, signs: set<int>) {
    bound.Some? ==> JsonNumber.IsJsonNumber(text) && JsonNumber.IsJsonNumber(bound.value) && Answer(reach, text, bound.value) in signs
  }

  /** One bound: how the token compares with it, if it is there. */
  method CheckBound(num: NumberMatch, bound: Option<string>, at: nat, signs: set<int>) returns (hit: bool, next: nat)
    requires num.Valid() && JsonNumber.IsJsonNumber(num.fed) && |num.fed| <= LONG_MAX
    requires bound.Some? ==> at < |num.bounds| && num.bounds[at] == bound.value
    ensures next == at + |Listed(bound)|
    ensures (bound.Some? ==> Settles(num.reach, num.fed, bound.value)) ==> hit == Answered(num.reach, num.fed, bound, signs)
  {
    hide Unclamped, JsonNumber.IsJsonNumber, Order, SeenOrder;
    if bound.None? {
      return true, at;
    }
    BoundIsNumber(num, at);
    var ok, out := num.CompareCurrent(at);
    hit, next := out in signs, at + 1;
  }

  lemma BoundIsNumber(num: NumberMatch, i: nat)
    requires num.Valid() && i < |num.bounds|
    ensures JsonNumber.IsJsonNumber(num.bounds[i])
  {
  }

  /** What a number term asks of the token. */
  ghost predicate NumberSatisfies(term: Term, text: string) {
    if term.kind == NumberEq then Ordered(text, Some(term.value), {0}) else InRange(text, term.bounds)
  }

  /** What it is told. */
  ghost predicate NumberAnswered(reach: nat, term: Term, text: string) {
    if term.kind == NumberEq then Answered(reach, text, Some(term.value), {0}) else RangeAnswered(reach, text, term.bounds)
  }

  ghost predicate RangeAnswered(reach: nat, text: string, b: Bounds) {
    && Answered(reach, text, b.gt, {1}) && Answered(reach, text, b.gte, {0, 1})
    && Answered(reach, text, b.lt, {-1}) && Answered(reach, text, b.lte, {-1, 0})
  }

  /** Where the comparison is exact, the answer is the order. */
  lemma ComparableIsAnswered(reach: nat, text: string, bound: Option<string>, signs: set<int>)
    requires reach >= MATCH_BYTES && JsonNumber.IsJsonNumber(text) && |text| <= LONG_MAX
    requires bound.Some? ==> Comparable(text, bound.value) && JsonNumber.IsJsonNumber(bound.value) && |bound.value| <= LONG_MAX
    ensures bound.Some? ==> Settles(reach, text, bound.value)
    ensures Answered(reach, text, bound, signs) <==> Ordered(text, bound, signs)
  {
    hide Unclamped, Misleads, JsonNumber.IsJsonNumber, Order, SeenOrder;
    if bound.Some? && |text| >= reach {
      SeenOrderExactly(text, bound.value);
    }
  }

  lemma NumberAnswersExactly(reach: nat, term: Term, text: string)
    requires reach >= MATCH_BYTES && JsonNumber.IsJsonNumber(text) && |text| <= LONG_MAX && OnNumbers(term.kind)
    requires JsonNumbers(BoundTexts(term)) && forall bound :: bound in BoundTexts(term) ==> Comparable(text, bound)
    ensures forall bound :: bound in BoundTexts(term) ==> Settles(reach, text, bound)
    ensures NumberAnswered(reach, term, text) <==> NumberSatisfies(term, text)
  {
    hide JsonNumber.IsJsonNumber, Comparable, Settles, Answered, Ordered;
    var texts := BoundTexts(term);
    forall bound | bound in texts ensures Settles(reach, text, bound) {
      BoundListed(texts, bound);
      ComparableIsAnswered(reach, text, Some(bound), {});
    }
    if term.kind == NumberEq {
      BoundListed(texts, texts[0]);
      ComparableIsAnswered(reach, text, Some(term.value), {0});
    } else {
      var b := term.bounds;
      RangeBounds(b, texts, texts, 0);
      RangeListed(b, texts);
      ComparableIsAnswered(reach, text, b.gt, {1});
      ComparableIsAnswered(reach, text, b.gte, {0, 1});
      ComparableIsAnswered(reach, text, b.lt, {-1});
      ComparableIsAnswered(reach, text, b.lte, {-1, 0});
    }
  }

  lemma BoundListed(texts: seq<string>, bound: string)
    requires JsonNumbers(texts) && bound in texts
    ensures JsonNumber.IsJsonNumber(bound) && |bound| <= LONG_MAX
  {
  }

  lemma RangeListed(b: Bounds, texts: seq<string>)
    requires JsonNumbers(texts) && BoundsAt(b, texts, texts, 0)
    ensures b.gt.Some? ==> JsonNumber.IsJsonNumber(b.gt.value) && |b.gt.value| <= LONG_MAX
    ensures b.gte.Some? ==> JsonNumber.IsJsonNumber(b.gte.value) && |b.gte.value| <= LONG_MAX
    ensures b.lt.Some? ==> JsonNumber.IsJsonNumber(b.lt.value) && |b.lt.value| <= LONG_MAX
    ensures b.lte.Some? ==> JsonNumber.IsJsonNumber(b.lte.value) && |b.lte.value| <= LONG_MAX
  {
  }

  /** A term hits as the comparisons answer; for comparisons that are exact, as its numbers are ordered. */
  method NumberHit(num: NumberMatch, term: Term, at: nat) returns (hit: bool)
    requires num.Valid() && JsonNumber.IsJsonNumber(num.fed) && |num.fed| <= LONG_MAX
    requires OnNumbers(term.kind) && JsonNumbers(BoundTexts(term)) && PlacedAt(term, num.bounds, at)
    ensures (forall bound :: bound in BoundTexts(term) ==> Settles(num.reach, num.fed, bound))
            ==> hit == NumberAnswered(num.reach, term, num.fed)
    ensures (forall bound :: bound in BoundTexts(term) ==> Comparable(num.fed, bound)) ==> hit == NumberSatisfies(term, num.fed)
  {
    hide NumberMatch.Valid, JsonNumber.IsJsonNumber, Comparable, Settles, Answered, Ordered, InRange, JsonNumbers;
    ghost var texts := BoundTexts(term);
    SliceElements(num.bounds, at, texts);
    ReachIsLarge(num);
    if forall bound :: bound in texts ==> Comparable(num.fed, bound) {
      NumberAnswersExactly(num.reach, term, num.fed);
    }
    if term.kind == NumberEq {
      assert texts[0] == term.value;
      var next: nat;
      hit, next := CheckBound(num, Some(term.value), at, {0});
    } else {
      RangeBounds(term.bounds, texts, num.bounds, at);
      hit := RangeHit(num, term.bounds, at, texts);
    }
  }

  lemma ReachIsLarge(num: NumberMatch)
    requires num.Valid()
    ensures num.reach >= MATCH_BYTES
  {
  }

  method RangeHit(num: NumberMatch, b: Bounds, at: nat, ghost texts: seq<string>) returns (hit: bool)
    requires num.Valid() && JsonNumber.IsJsonNumber(num.fed) && |num.fed| <= LONG_MAX
    requires BoundsAt(b, texts, num.bounds, at)
    ensures (forall bound :: bound in texts ==> Settles(num.reach, num.fed, bound)) ==> hit == RangeAnswered(num.reach, num.fed, b)
  {
    hide NumberMatch.Valid, JsonNumber.IsJsonNumber, Settles, Answered, Listed;
    var next: nat, more: bool;
    hit, next := CheckBound(num, b.gt, at, {1});
    more, next := CheckBound(num, b.gte, next, {0, 1});
    hit := hit && more;
    more, next := CheckBound(num, b.lt, next, {-1});
    hit := hit && more;
    more, next := CheckBound(num, b.lte, next, {-1, 0});
    hit := hit && more;
  }

  lemma SliceElements(s: seq<string>, at: nat, piece: seq<string>)
    requires at + |piece| <= |s| && s[at..at + |piece|] == piece
    ensures forall k :: 0 <= k < |piece| ==> s[at + k] == piece[k]
  {
    forall k | 0 <= k < |piece| ensures s[at + k] == piece[k] {
      assert s[at..at + |piece|][k] == s[at + k];
    }
  }

  /** The present bounds, one after the other. */
  ghost predicate BoundsAt(b: Bounds, texts: seq<string>, bounds: seq<string>, at: nat) {
    var p := at + |Listed(b.gt)|; var q := p + |Listed(b.gte)|; var r := q + |Listed(b.lt)|;
    && (b.gt.Some? ==> at < |bounds| && bounds[at] == b.gt.value && b.gt.value in texts)
    && (b.gte.Some? ==> p < |bounds| && bounds[p] == b.gte.value && b.gte.value in texts)
    && (b.lt.Some? ==> q < |bounds| && bounds[q] == b.lt.value && b.lt.value in texts)
    && (b.lte.Some? ==> r < |bounds| && bounds[r] == b.lte.value && b.lte.value in texts)
  }

  lemma RangeBounds(b: Bounds, texts: seq<string>, bounds: seq<string>, at: nat)
    requires texts == Listed(b.gt) + Listed(b.gte) + Listed(b.lt) + Listed(b.lte)
    requires at + |texts| <= |bounds| && forall k :: 0 <= k < |texts| ==> bounds[at + k] == texts[k]
    ensures BoundsAt(b, texts, bounds, at)
  {
    assert b.gt.Some? ==> texts[0] == b.gt.value;
    assert b.gte.Some? ==> texts[|Listed(b.gt)|] == b.gte.value;
    assert b.lt.Some? ==> texts[|Listed(b.gt)| + |Listed(b.gte)|] == b.lt.value;
    assert b.lte.Some? ==> texts[|texts| - 1] == b.lte.value;
  }
}
