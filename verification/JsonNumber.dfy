/** The number grammar of section 6 of RFC 8259, the value a number denotes, and a reader for it. */
module JsonNumber {
  import opened Wrappers
  import opened Digits

  /** Where the parts of a number token lie: the integer digits are [start, intEnd), the fraction with
      its point is [intEnd, fracEnd), the exponent's mark and sign are [fracEnd, expStart), and the
      exponent's digits are the rest. */
  datatype Layout = Layout(start: nat, intEnd: nat, fracEnd: nat, expStart: nat)

  predicate DigitsIn(text: string, a: nat, b: nat)
    requires b <= |text|
  {
    forall i :: a <= i < b ==> IsDigit(text[i])
  }

  predicate IsMark(c: char) { c == 'e' || c == 'E' }

  predicate IsPlusMinus(c: char) { c == '+' || c == '-' }

  /** int = zero / ( digit1-9 *DIGIT ), after an optional minus. */
  predicate IntegerPart(text: string, l: Layout) {
    && l.start < l.intEnd <= |text|
    && (l.start == 0 || (l.start == 1 && text[0] == '-'))
    && DigitsIn(text, l.start, l.intEnd)
    && (text[l.start] == '0' ==> l.intEnd == l.start + 1)
  }

  /** frac = decimal-point 1*DIGIT, or absent. */
  predicate FractionPart(text: string, l: Layout) {
    && l.intEnd <= l.fracEnd <= |text|
    && (l.fracEnd > l.intEnd ==>
          text[l.intEnd] == '.' && l.intEnd + 1 < l.fracEnd && DigitsIn(text, l.intEnd + 1, l.fracEnd))
  }

  /** exp = e [ minus / plus ] 1*DIGIT, or absent; it ends the token. */
  predicate ExponentPart(text: string, l: Layout) {
    && l.fracEnd <= l.expStart <= |text|
    && (l.expStart == l.fracEnd ==> l.expStart == |text|)
    && (l.expStart > l.fracEnd ==>
          && l.expStart < |text| && IsMark(text[l.fracEnd])
          && (l.expStart == l.fracEnd + 1 || (l.expStart == l.fracEnd + 2 && IsPlusMinus(text[l.fracEnd + 1])))
          && DigitsIn(text, l.expStart, |text|))
  }

  predicate Matches(text: string, l: Layout) {
    IntegerPart(text, l) && FractionPart(text, l) && ExponentPart(text, l)
  }

  ghost predicate IsJsonNumber(text: string) { exists l :: Matches(text, l) }

  function IntegerOf(text: string, l: Layout): (s: string)
    requires Matches(text, l)
    ensures AllDigits(s) && |s| > 0
  {
    text[l.start..l.intEnd]
  }

  function FractionOf(text: string, l: Layout): (s: string)
    requires Matches(text, l)
    ensures AllDigits(s)
  {
    if l.fracEnd == l.intEnd then "" else text[l.intEnd + 1..l.fracEnd]
  }

  function DigitsOf(text: string, l: Layout): (s: string)
    requires Matches(text, l)
    ensures AllDigits(s) && |s| > 0
  {
    IntegerOf(text, l) + FractionOf(text, l)
  }

  function ExponentDigitsOf(text: string, l: Layout): (s: string)
    requires Matches(text, l)
    ensures AllDigits(s)
  {
    text[l.expStart..]
  }

  predicate ExponentIsNegative(text: string, l: Layout)
    requires Matches(text, l)
  {
    l.expStart > l.fracEnd && text[l.expStart - 1] == '-'
  }

  ghost function ExponentOf(text: string, l: Layout): int
    requires Matches(text, l)
  {
    var e: int := NatOf(ExponentDigitsOf(text, l));
    if ExponentIsNegative(text, l) then -e else e
  }

  predicate IsNegative(text: string, l: Layout) { l.start == 1 }

  /** The absolute value under a given layout: digits * 10^(exponent - fraction length). */
  ghost function Magnitude(text: string, l: Layout): real
    requires Matches(text, l)
  {
    NatOf(DigitsOf(text, l)) as real * TenPow(ExponentOf(text, l) - |FractionOf(text, l)|)
  }

  ghost function ValueUnder(text: string, l: Layout): real
    requires Matches(text, l)
  {
    if IsNegative(text, l) then -Magnitude(text, l) else Magnitude(text, l)
  }

  /** The rational number that a JSON number token denotes. */
  ghost function Value(text: string): real
    requires IsJsonNumber(text)
  {
    var l :| Matches(text, l);
    ValueUnder(text, l)
  }

  lemma ValueIs(text: string, l: Layout)
    requires Matches(text, l)
    ensures IsJsonNumber(text) && Value(text) == ValueUnder(text, l)
  {
    LayoutIsUnique(text);
  }

  lemma MagnitudeIsScaled(text: string, l: Layout)
    requires Matches(text, l)
    ensures Magnitude(text, l) == Scaled(DigitsOf(text, l), ExponentOf(text, l) + |IntegerOf(text, l)|)
  {
    hide Matches, NatOf, TenPow, IntegerOf, FractionOf, ExponentOf;
    var e := ExponentOf(text, l);
    var n, f := NatOf(DigitsOf(text, l)), |FractionOf(text, l)|;
    assert e + |IntegerOf(text, l)| - |DigitsOf(text, l)| == e - f;
    TimesIsProduct(n, TenPow(e - f));
  }

  // ---------------------------------------------------------------- reading a token

  /** The end of the longest run of digits from pos on. */
  function DigitsEnd(text: string, pos: nat): (end: nat)
    requires pos <= |text|
    ensures pos <= end <= |text| && DigitsIn(text, pos, end)
    ensures end < |text| ==> !IsDigit(text[end])
    decreases |text| - pos
  {
    if pos < |text| && IsDigit(text[pos]) then DigitsEnd(text, pos + 1) else pos
  }

  lemma {:induction false} DigitsEndIs(text: string, pos: nat, end: nat)
    requires pos <= end <= |text| && DigitsIn(text, pos, end)
    requires end < |text| ==> !IsDigit(text[end])
    ensures DigitsEnd(text, pos) == end
    decreases end - pos
  {
    if pos < end {
      DigitsEndIs(text, pos + 1, end);
    }
  }

  /** The layout of a number token, None when the text is not one. */
  function ReadLayout(text: string): (r: Option<Layout>)
    ensures r.Some? ==> Matches(text, r.value)
  {
    if text == "" then None else
    var start := if text[0] == '-' then 1 else 0;
    if start == |text| || !IsDigit(text[start]) then None else
    var intEnd := DigitsEnd(text, start);
    if text[start] == '0' && intEnd != start + 1 then None else
    var fracEnd := if intEnd < |text| && text[intEnd] == '.' then DigitsEnd(text, intEnd + 1) else intEnd;
    if fracEnd == intEnd + 1 then None else
    if fracEnd == |text| then Some(Layout(start, intEnd, fracEnd, fracEnd)) else
    if !IsMark(text[fracEnd]) then None else
    var expStart := if fracEnd + 1 < |text| && IsPlusMinus(text[fracEnd + 1]) then fracEnd + 2 else fracEnd + 1;
    if expStart == |text| || DigitsEnd(text, expStart) != |text| then None else
    Some(Layout(start, intEnd, fracEnd, expStart))
  }

  lemma ReadIsComplete(text: string, l: Layout)
    requires Matches(text, l)
    ensures ReadLayout(text) == Some(l)
  {
    DigitsEndIs(text, l.start, l.intEnd);
    if l.fracEnd > l.intEnd {
      DigitsEndIs(text, l.intEnd + 1, l.fracEnd);
    }
    if l.expStart > l.fracEnd {
      DigitsEndIs(text, l.expStart, |text|);
    }
  }

  lemma LayoutIsUnique(text: string)
    ensures IsJsonNumber(text) <==> ReadLayout(text).Some?
    ensures forall l :: Matches(text, l) ==> ReadLayout(text) == Some(l)
  {
    forall l | Matches(text, l) ensures ReadLayout(text) == Some(l) {
      ReadIsComplete(text, l);
    }
  }
}
