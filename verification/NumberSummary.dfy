/** The bounded-memory number comparator of src/lql_json_scan.c: a running summary of a token that is
    too long to keep, and cursors that walk the significant digits of each bound beside it. */
module NumberSummary {
  import opened Digits
  import opened JsonNumber
  import opened NumberCompare

  /** What is kept of a token (src/lql_json_scan.c:27-45), without the prefixes that only clamped exponents use. */
  datatype Summary = Summary(coeffLenRaw: nat, trailingZeroes: nat, fractionDigits: nat, exponent: int,
                             negative: bool, zero: bool, inFraction: bool, inExponent: bool,
                             signAllowed: bool, exponentNegative: bool, exponentStarted: bool,
                             exponentClamped: bool)

  const EMPTY := Summary(0, 0, 0, 0, false, false, false, false, false, false, false, false)

  /** src/lql_json_scan.c:319-348. */
  function ExponentDigit(s: Summary, value: char): Summary {
    if value == '0' && !s.exponentStarted then s
    else
      var digit := DigitValue(value);
      var s := s.(exponentStarted := true);
      if s.exponentClamped then s
      else if s.exponent > (LONG_MAX - digit) / 10 then s.(exponent := LONG_MAX, exponentClamped := true)
      else s.(exponent := s.exponent * 10 + digit)
  }

  /** Whether a digit is significant, that is, counted and compared. */
  predicate Emits(s: Summary, value: char) {
    IsDigit(value) && !s.inExponent && (value != '0' || s.coeffLenRaw != 0)
  }

  /** src/lql_json_scan.c:349-373. */
  function CoefficientDigit(s: Summary, value: char): Summary
    requires !s.inExponent
  {
    var s := if s.inFraction then s.(fractionDigits := s.fractionDigits + 1) else s;
    if value != '0' || s.coeffLenRaw != 0 then
      s.(coeffLenRaw := s.coeffLenRaw + 1, trailingZeroes := if value == '0' then s.trailingZeroes + 1 else 0)
    else s
  }

  /** src/lql_json_scan.c:376-414: one byte of the token. */
  function SummaryByte(s: Summary, value: char): Summary {
    if IsDigit(value) then
      (if s.inExponent then ExponentDigit(s, value) else CoefficientDigit(s, value)).(signAllowed := false)
    else if value == '-' && s.coeffLenRaw == 0 && !s.inFraction && !s.inExponent then s.(negative := true)
    else if value == '.' then s.(inFraction := true)
    else if IsMark(value) then s.(inExponent := true, signAllowed := true)
    else if s.inExponent && s.signAllowed && value == '-' then s.(exponentNegative := true, signAllowed := false)
    else if s.inExponent && s.signAllowed && value == '+' then s.(signAllowed := false)
    else s
  }

  /** src/lql_json_scan.c:416-430. */
  function Finish(s: Summary): Summary {
    if s.coeffLenRaw == 0 then s.(zero := true, negative := false, exponent := 0, exponentNegative := false)
    else if s.exponentNegative && s.exponent != LONG_MAX then s.(exponent := -s.exponent)
    else if s.exponentNegative then s.(exponent := LONG_MIN)
    else s
  }

  /** src/lql_json_scan.c:432-450. */
  function AdjustedLong(s: Summary): int
    requires s.trailingZeroes <= s.coeffLenRaw
  {
    if s.zero then 0 else
    var adjust := SizeToLong(s.coeffLenRaw - s.trailingZeroes);
    var adjust := ClampAdd(adjust, if s.fractionDigits > LONG_MAX then LONG_MIN else 0 - s.fractionDigits);
    ClampAdd(ClampAdd(adjust, SizeToLong(s.trailingZeroes)), s.exponent)
  }

  /** The summary after all bytes of a text. */
  ghost function After(text: string): Summary {
    if |text| == 0 then EMPTY else SummaryByte(After(text[..|text| - 1]), text[|text| - 1])
  }

  // ---------------------------------------------------------------- what the summary knows

  /** The digits without leading zeros. */
  ghost function Significant(s: string): (r: string)
    ensures |r| <= |s|
    ensures |r| > 0 ==> r[0] != '0'
  {
    if |s| == 0 then "" else
    var r, c := Significant(s[..|s| - 1]), s[|s| - 1];
    if |r| == 0 && c == '0' then "" else r + [c]
  }

  ghost function TrailingZeroes(s: string): (n: nat)
    ensures n <= |s|
    ensures forall i :: |s| - n <= i < |s| ==> s[i] == '0'
    ensures n < |s| ==> s[|s| - n - 1] != '0'
  {
    if |s| == 0 || s[|s| - 1] != '0' then 0 else TrailingZeroes(s[..|s| - 1]) + 1
  }

  lemma {:induction false} SignificantSplits(s: string)
    ensures s[|s| - |Significant(s)|..] == Significant(s)
    ensures forall i :: 0 <= i < |s| - |Significant(s)| ==> s[i] == '0'
  {
    if |s| > 0 {
      var s' := s[..|s| - 1];
      SignificantSplits(s');
      if |Significant(s)| > 0 {
        assert s[|s| - |Significant(s)|..] == s'[|s'| - |Significant(s')|..] + [s[|s| - 1]];
      }
    }
  }

  lemma {:induction false} SignificantDigits(s: string)
    requires AllDigits(s)
    ensures AllDigits(Significant(s))
  {
    SignificantSplits(s);
    forall i | 0 <= i < |Significant(s)| ensures IsDigit(Significant(s)[i]) {
      assert Significant(s)[i] == s[|s| - |Significant(s)| + i];
    }
  }

  lemma SignificantStep(s: string, c: char)
    ensures Significant(s + [c]) == if |Significant(s)| == 0 && c == '0' then "" else Significant(s) + [c]
    ensures TrailingZeroes(Significant(s + [c]))
         == if c == '0' && |Significant(s + [c])| > 0 then TrailingZeroes(Significant(s)) + 1 else 0
  {
    assert (s + [c])[..|s|] == s;
    var r := Significant(s);
    if |r| > 0 || c != '0' {
      assert (r + [c])[..|r|] == r;
    }
  }

  /** The summary in the middle of the mantissa. */
  ghost predicate InMantissa(s: Summary, digits: string, fraction: int, negative: bool, inFraction: bool) {
    && s.coeffLenRaw == |Significant(digits)| && s.trailingZeroes == TrailingZeroes(Significant(digits))
    && s.fractionDigits == fraction && s.negative == negative && s.inFraction == inFraction
    && !s.inExponent && s.exponent == 0 && !s.exponentNegative && !s.exponentStarted && !s.exponentClamped && !s.zero
  }

  lemma MantissaStep(s: Summary, digits: string, fraction: int, negative: bool, inFraction: bool, c: char)
    requires InMantissa(s, digits, fraction, negative, inFraction) && IsDigit(c)
    ensures InMantissa(SummaryByte(s, c), digits + [c], if inFraction then fraction + 1 else fraction, negative, inFraction)
  {
    SignificantStep(digits, c);
  }

  lemma AfterStep(text: string, k: nat)
    requires k < |text|
    ensures After(text[..k + 1]) == SummaryByte(After(text[..k]), text[k])
  {
    assert text[..k + 1][..k] == text[..k];
  }

  lemma AfterMinus(text: string, l: Layout)
    requires Matches(text, l)
    ensures InMantissa(After(text[..l.start]), "", 0, IsNegative(text, l), false)
  {
    if l.start == 1 {
      AfterStep(text, 0);
      assert text[..0] == "";
    }
  }

  lemma {:induction false} AfterInteger(text: string, l: Layout, k: nat)
    requires Matches(text, l) && l.start <= k <= l.intEnd
    ensures InMantissa(After(text[..k]), text[l.start..k], 0, IsNegative(text, l), false)
    decreases k
  {
    hide After, SummaryByte, InMantissa;
    if k == l.start {
      AfterMinus(text, l);
      assert text[l.start..k] == "";
    } else {
      AfterInteger(text, l, k - 1);
      assert IsDigit(text[k - 1]);
      AfterStep(text, k - 1);
      MantissaStep(After(text[..k - 1]), text[l.start..k - 1], 0, IsNegative(text, l), false, text[k - 1]);
      assert text[l.start..k] == text[l.start..k - 1] + [text[k - 1]];
    }
  }

  lemma AfterPoint(s: Summary, digits: string, negative: bool)
    requires InMantissa(s, digits, 0, negative, false)
    ensures InMantissa(SummaryByte(s, '.'), digits, 0, negative, true)
  {
  }

  lemma {:induction false} AfterFraction(text: string, l: Layout, k: nat)
    requires Matches(text, l) && l.intEnd < l.fracEnd && l.intEnd < k <= l.fracEnd
    ensures InMantissa(After(text[..k]), IntegerOf(text, l) + text[l.intEnd + 1..k], k - l.intEnd - 1, IsNegative(text, l), true)
    decreases k
  {
    hide After, SummaryByte, InMantissa;
    AfterStep(text, k - 1);
    if k == l.intEnd + 1 {
      AfterInteger(text, l, l.intEnd);
      AfterPoint(After(text[..l.intEnd]), text[l.start..l.intEnd], IsNegative(text, l));
      assert IntegerOf(text, l) + text[l.intEnd + 1..k] == text[l.start..l.intEnd];
    } else {
      AfterFraction(text, l, k - 1);
      assert IsDigit(text[k - 1]);
      var digits := IntegerOf(text, l) + text[l.intEnd + 1..k - 1];
      MantissaStep(After(text[..k - 1]), digits, k - l.intEnd - 2, IsNegative(text, l), true, text[k - 1]);
      assert IntegerOf(text, l) + text[l.intEnd + 1..k] == digits + [text[k - 1]];
    }
  }

  lemma AfterMantissa(text: string, l: Layout)
    requires Matches(text, l)
    ensures InMantissa(After(text[..l.fracEnd]), DigitsOf(text, l), |FractionOf(text, l)|, IsNegative(text, l), l.fracEnd > l.intEnd)
  {
    if l.intEnd < l.fracEnd {
      AfterFraction(text, l, l.fracEnd);
    } else {
      AfterInteger(text, l, l.intEnd);
      assert DigitsOf(text, l) == text[l.start..l.intEnd];
    }
  }

  /** The summary in the middle of the exponent's digits. */
  ghost predicate InExponentDigits(s: Summary, digits: string, negative: bool) {
    && s.inExponent && s.exponentNegative == negative && !s.zero
    && (s.exponentStarted <==> NatOf(digits) > 0)
    && (s.exponentClamped <==> NatOf(digits) > LONG_MAX)
    && s.exponent == if NatOf(digits) > LONG_MAX then LONG_MAX else NatOf(digits)
  }

  /** The exponent's bytes leave the mantissa part of the summary alone. */
  ghost predicate SameMantissa(s: Summary, t: Summary) {
    && s.coeffLenRaw == t.coeffLenRaw && s.trailingZeroes == t.trailingZeroes
    && s.fractionDigits == t.fractionDigits && s.negative == t.negative
  }

  lemma ExponentStep(s: Summary, digits: string, negative: bool, c: char)
    requires InExponentDigits(s, digits, negative) && IsDigit(c)
    ensures InExponentDigits(SummaryByte(s, c), digits + [c], negative)
    ensures SameMantissa(SummaryByte(s, c), s)
  {
    NatOfSnoc(digits, c);
  }

  lemma MarkStep(s: Summary, digits: string, fraction: int, negative: bool, inFraction: bool, mark: char)
    requires InMantissa(s, digits, fraction, negative, inFraction) && IsMark(mark)
    ensures InExponentDigits(SummaryByte(s, mark), "", false)
    ensures SummaryByte(s, mark).signAllowed
    ensures SameMantissa(SummaryByte(s, mark), s)
  {
  }

  lemma SignStep(s: Summary, sign: char)
    requires InExponentDigits(s, "", false) && s.signAllowed && IsPlusMinus(sign)
    ensures InExponentDigits(SummaryByte(s, sign), "", sign == '-')
    ensures SameMantissa(SummaryByte(s, sign), s)
  {
  }

  lemma AfterMark(text: string, l: Layout)
    requires Matches(text, l) && l.expStart > l.fracEnd
    ensures InExponentDigits(After(text[..l.expStart]), "", ExponentIsNegative(text, l))
    ensures SameMantissa(After(text[..l.expStart]), After(text[..l.fracEnd]))
  {
    hide After, Significant, TrailingZeroes, DigitsOf, FractionOf, InMantissa, InExponentDigits, SummaryByte;
    AfterMantissa(text, l);
    AfterStep(text, l.fracEnd);
    MarkStep(After(text[..l.fracEnd]), DigitsOf(text, l), |FractionOf(text, l)|, IsNegative(text, l), l.fracEnd > l.intEnd, text[l.fracEnd]);
    if l.expStart == l.fracEnd + 2 {
      AfterStep(text, l.fracEnd + 1);
      SignStep(After(text[..l.fracEnd + 1]), text[l.fracEnd + 1]);
    }
  }

  lemma {:induction false} AfterExponent(text: string, l: Layout, k: nat)
    requires Matches(text, l) && l.expStart > l.fracEnd && l.expStart <= k <= |text|
    ensures InExponentDigits(After(text[..k]), text[l.expStart..k], ExponentIsNegative(text, l))
    ensures SameMantissa(After(text[..k]), After(text[..l.fracEnd]))
    decreases k
  {
    hide After, SummaryByte, InExponentDigits, ExponentIsNegative;
    if k == l.expStart {
      AfterMark(text, l);
      assert text[l.expStart..k] == "";
    } else {
      AfterExponent(text, l, k - 1);
      assert IsDigit(text[k - 1]);
      AfterStep(text, k - 1);
      ExponentStep(After(text[..k - 1]), text[l.expStart..k - 1], ExponentIsNegative(text, l), text[k - 1]);
      assert text[l.expStart..k] == text[l.expStart..k - 1] + [text[k - 1]];
    }
  }

  /** The exponent was summed without clamping. */
  ghost predicate ExponentFits(text: string, l: Layout)
    requires Matches(text, l)
  {
    -LONG_MAX <= ExponentOf(text, l) <= LONG_MAX
  }

  /** The exponent as the finish leaves it: -LONG_MAX is taken for a clamped one and becomes LONG_MIN. */
  ghost function SeenExponent(text: string, l: Layout): int
    requires Matches(text, l)
  {
    if ExponentOf(text, l) == -LONG_MAX then LONG_MIN else ExponentOf(text, l)
  }

  /** What the finished summary of a whole token says. */
  ghost predicate Summarises(s: Summary, text: string, l: Layout)
    requires Matches(text, l)
  {
    var digits := Significant(DigitsOf(text, l));
    && s.coeffLenRaw == |digits| && s.trailingZeroes == TrailingZeroes(digits)
    && s.fractionDigits == |FractionOf(text, l)|
    && (s.zero <==> |digits| == 0)
    && s.negative == (IsNegative(text, l) && !s.zero)
    && (!s.zero && ExponentFits(text, l) ==> !s.exponentClamped && s.exponent == SeenExponent(text, l))
  }

  /** The summary after a whole token, before it is finished. */
  ghost predicate TokenState(s: Summary, digits: string, fraction: int, negative: bool, exponent: nat, exponentNegative: bool) {
    && s.coeffLenRaw == |Significant(digits)| && s.trailingZeroes == TrailingZeroes(Significant(digits))
    && s.fractionDigits == fraction && s.negative == negative && !s.zero
    && s.exponentNegative == exponentNegative
    && (s.exponentClamped <==> exponent > LONG_MAX)
    && s.exponent == if exponent > LONG_MAX then LONG_MAX else exponent
  }

  lemma AfterToken(text: string, l: Layout)
    requires Matches(text, l)
    ensures TokenState(After(text), DigitsOf(text, l), |FractionOf(text, l)|, IsNegative(text, l),
                       NatOf(ExponentDigitsOf(text, l)), ExponentIsNegative(text, l))
  {
    hide After, Significant, TrailingZeroes, DigitsOf, FractionOf;
    AfterMantissa(text, l);
    assert text[..|text|] == text;
    if l.expStart > l.fracEnd {
      AfterExponent(text, l, |text|);
      assert ExponentDigitsOf(text, l) == text[l.expStart..|text|];
    } else {
      assert l.fracEnd == |text|;
      assert ExponentDigitsOf(text, l) == "";
    }
  }

  lemma FinishedSummary(text: string, l: Layout)
    requires Matches(text, l)
    ensures Summarises(Finish(After(text)), text, l)
  {
    hide After, Significant, TrailingZeroes, DigitsOf, FractionOf, ExponentDigitsOf, NatOf;
    AfterToken(text, l);
  }

  // ---------------------------------------------------------------- comparing two summaries

  /** The exponent of the value written as 0.d1d2d3... */
  ghost function AdjustedExact(text: string, l: Layout): int
    requires Matches(text, l)
  {
    |Significant(DigitsOf(text, l))| - |FractionOf(text, l)| + ExponentOf(text, l)
  }

  /** The same with the exponent as the finish leaves it, in the long range. */
  ghost function AdjustedSeen(text: string, l: Layout): int
    requires Matches(text, l)
  {
    Clamp(|Significant(DigitsOf(text, l))| - |FractionOf(text, l)| + SeenExponent(text, l))
  }

  lemma SignificantMagnitude(text: string, l: Layout)
    requires Matches(text, l)
    ensures Magnitude(text, l) == Scaled(Significant(DigitsOf(text, l)), AdjustedExact(text, l))
  {
    hide Scaled, Magnitude, ExponentOf, Significant, AdjustedExact, Matches, DigitsOf, IntegerOf;
    var digits := DigitsOf(text, l);
    var k := |digits| - |Significant(digits)|;
    MagnitudeIsScaled(text, l);
    SignificantSplits(digits);
    DropLeadingZeroes(digits, k, ExponentOf(text, l) + |IntegerOf(text, l)|);
    AdjustedByIntegers(text, l);
  }

  lemma AdjustedByIntegers(text: string, l: Layout)
    requires Matches(text, l)
    ensures ExponentOf(text, l) + |IntegerOf(text, l)| - (|DigitsOf(text, l)| - |Significant(DigitsOf(text, l))|)
         == AdjustedExact(text, l)
  {
    hide ExponentOf, Significant;
  }

  function Clamp(x: int): int { if x > LONG_MAX then LONG_MAX else if x < LONG_MIN then LONG_MIN else x }

  lemma SizesFit(text: string, l: Layout)
    requires Matches(text, l) && |text| <= LONG_MAX
    ensures |Significant(DigitsOf(text, l))| <= LONG_MAX && |FractionOf(text, l)| <= LONG_MAX
  {
    LengthsFit(text, l);
  }

  lemma AdjustedIsClamped(s: Summary, text: string, l: Layout)
    requires Matches(text, l) && |text| <= LONG_MAX && Summarises(s, text, l) && !s.zero && ExponentFits(text, l)
    ensures s.trailingZeroes <= s.coeffLenRaw && AdjustedLong(s) == AdjustedSeen(text, l)
  {
    hide Significant, TrailingZeroes, ExponentOf, DigitsOf, FractionOf;
    SizesFit(text, l);
  }

  function CompareChars(a: char, b: char): int { if a < b then -1 else if a > b then 1 else 0 }

  /** The sign of the first difference between the first n digits of x and y, each padded with zeros. */
  ghost function FirstDifference(x: string, y: string, n: nat): int {
    if n == 0 then 0 else
    var earlier := FirstDifference(x, y, n - 1);
    if earlier != 0 then earlier else CompareChars(PaddedAt(x, n - 1), PaddedAt(y, n - 1))
  }

  lemma {:induction false} FirstDifferenceOrders(x: string, y: string, n: nat, point: int)
    requires AllDigits(x) && AllDigits(y)
    ensures var d := FirstDifference(x, y, n);
      && (d == -1 || d == 0 || d == 1)
      && (d == 0 ==> forall j :: 0 <= j < n ==> PaddedAt(x, j) == PaddedAt(y, j))
      && (d != 0 ==> Sign(Scaled(x, point) - Scaled(y, point)) == d)
  {
    hide Scaled;
    if n > 0 {
      FirstDifferenceOrders(x, y, n - 1, point);
      if FirstDifference(x, y, n - 1) == 0 {
        if PaddedAt(x, n - 1) < PaddedAt(y, n - 1) {
          FirstPaddedDifferenceDecides(x, y, point, n - 1);
        } else if PaddedAt(x, n - 1) > PaddedAt(y, n - 1) {
          FirstPaddedDifferenceDecides(y, x, point, n - 1);
        }
      }
    }
  }

  /** No difference in the digits of x: y is larger exactly when it has a nonzero digit beyond them. */
  lemma RestDecides(x: string, y: string, point: int)
    requires AllDigits(x) && AllDigits(y)
    requires forall j :: 0 <= j < |x| ==> PaddedAt(x, j) == PaddedAt(y, j)
    ensures |y| - TrailingZeroes(y) > |x| ==> Scaled(x, point) < Scaled(y, point)
    ensures |y| - TrailingZeroes(y) <= |x| ==> Scaled(x, point) == Scaled(y, point)
  {
    hide Scaled;
    var n := |y| - TrailingZeroes(y);
    if n > |x| {
      var k := FirstNonzero(y, |x|, n);
      FirstPaddedDifferenceDecides(x, y, point, k);
    } else {
      SamePaddedDigits(x, y, point);
    }
  }

  lemma FirstNonzero(y: string, from: nat, n: nat) returns (k: nat)
    requires AllDigits(y) && from < n <= |y| && y[n - 1] != '0'
    ensures from <= k < |y| && y[k] > '0'
    ensures forall j :: from <= j < k ==> y[j] == '0'
  {
    k := from;
    while y[k] == '0'
      invariant from <= k < n
      decreases n - k
      invariant forall j :: from <= j < k ==> y[j] == '0'
    {
      k := k + 1;
    }
  }

  /** Zero, or with an exponent that was not clamped. */
  predicate Settled(s: Summary) { s.zero || !s.exponentClamped }

  /** src/lql_json_scan.c:974-1019 for exponents that did not clamp. */
  method CompareWithCoefficients(left: Summary, right: Summary, coeffCmp: int) returns (out: int)
    requires left.trailingZeroes <= left.coeffLenRaw && right.trailingZeroes <= right.coeffLenRaw
    ensures Settled(left) && Settled(right) ==> out == CompareSpec(left, right, coeffCmp)
  {
    if left.zero && right.zero {
      return 0;
    }
    if left.zero != right.zero {
      return if left.zero then (if right.negative then 1 else -1) else (if left.negative then -1 else 1);
    }
    if left.negative != right.negative {
      return if left.negative then -1 else 1;
    }
    if left.exponentClamped || right.exponentClamped {
      // the comparison of clamped exponents (lines 688-729) is not modelled: it may answer anything
      out :| -1 <= out <= 1;
      return;
    }
    var leftAdjusted, rightAdjusted := AdjustedLong(left), AdjustedLong(right);
    if leftAdjusted != rightAdjusted {
      out := if leftAdjusted < rightAdjusted then -1 else 1;
      return if left.negative then -out else out;
    }
    if coeffCmp != 0 {
      return if left.negative then -coeffCmp else coeffCmp;
    }
    if left.coeffLenRaw < right.coeffLenRaw && right.coeffLenRaw - right.trailingZeroes > left.coeffLenRaw {
      return if left.negative then 1 else -1;
    }
    return 0;
  }

  /** The order of the magnitudes by adjusted exponent, then digits, then the longer right side. */
  function MagnitudeSpec(left: Summary, right: Summary, coeffCmp: int): int
    requires left.trailingZeroes <= left.coeffLenRaw && right.trailingZeroes <= right.coeffLenRaw
  {
    if AdjustedLong(left) != AdjustedLong(right) then IntSign(AdjustedLong(left) - AdjustedLong(right))
    else if coeffCmp != 0 then coeffCmp
    else if right.coeffLenRaw - right.trailingZeroes > left.coeffLenRaw then -1 else 0
  }

  function SignOf(s: Summary): int { if s.zero then 0 else if s.negative then -1 else 1 }

  function CompareSpec(left: Summary, right: Summary, coeffCmp: int): int
    requires left.trailingZeroes <= left.coeffLenRaw && right.trailingZeroes <= right.coeffLenRaw
  {
    if SignOf(left) != SignOf(right) then IntSign(SignOf(left) - SignOf(right))
    else SignOf(left) * MagnitudeSpec(left, right, coeffCmp)
  }

  // ---------------------------------------------------------------- when the comparison is exact

  /** The order of two digit strings read as fractions, by the tracked difference and the longer right side. */
  function DigitOrder(left: Summary, right: Summary, coeffCmp: int): int
    requires right.trailingZeroes <= right.coeffLenRaw
  {
    if coeffCmp != 0 then coeffCmp
    else if right.coeffLenRaw - right.trailingZeroes > left.coeffLenRaw then -1 else 0
  }

  lemma DigitOrderIs(left: Summary, right: Summary, coeffCmp: int, x: string, y: string, point: int)
    requires AllDigits(x) && AllDigits(y)
    requires left.coeffLenRaw == |x| && right.coeffLenRaw == |y| && right.trailingZeroes == TrailingZeroes(y)
    requires coeffCmp == FirstDifference(x, y, |x|)
    ensures DigitOrder(left, right, coeffCmp) == Sign(Scaled(x, point) - Scaled(y, point))
  {
    hide Scaled, TrailingZeroes, FirstDifference;
    FirstDifferenceOrders(x, y, |x|, point);
    if coeffCmp == 0 {
      RestDecides(x, y, point);
    }
  }

  /** First by exponent, then by digits. */
  function Ranked(exponents: int, digits: int): int { if exponents != 0 then IntSign(exponents) else digits }

  /** How the digits of two tokens order, whatever their exponents. */
  ghost function DigitsRank(left: string, l: Layout, right: string, r: Layout): int
    requires Matches(left, l) && Matches(right, r)
  {
    Sign(Scaled(Significant(DigitsOf(left, l)), 0) - Scaled(Significant(DigitsOf(right, r)), 0))
  }

  /** The exponents that the summaries compare do not order two nonzero tokens as their exact exponents do. */
  ghost predicate Collapse(left: string, l: Layout, right: string, r: Layout)
    requires Matches(left, l) && Matches(right, r)
  {
    Ranked(AdjustedSeen(left, l) - AdjustedSeen(right, r), DigitsRank(left, l, right, r))
    != Ranked(AdjustedExact(left, l) - AdjustedExact(right, r), DigitsRank(left, l, right, r))
  }

  /** Without an exponent of exactly -LONG_MAX: different exponents are clamped to the same end of the long range, and the digits
      order the other way. */
  lemma CollapseIs(left: string, l: Layout, right: string, r: Layout)
    requires Matches(left, l) && Matches(right, r)
    requires ExponentOf(left, l) != -LONG_MAX && ExponentOf(right, r) != -LONG_MAX
    ensures Collapse(left, l, right, r)
       <==> && AdjustedExact(left, l) != AdjustedExact(right, r)
            && Clamp(AdjustedExact(left, l)) == Clamp(AdjustedExact(right, r))
            && DigitsRank(left, l, right, r) != IntSign(AdjustedExact(left, l) - AdjustedExact(right, r))
  {
    hide Scaled, Significant, DigitsOf, FractionOf, ExponentOf, DigitsRank, Matches;
  }

  ghost predicate SummaryOf(s: Summary, text: string, l: Layout) {
    && Matches(text, l) && |text| <= LONG_MAX && Summarises(s, text, l)
    && (s.zero || ExponentFits(text, l))
  }

  lemma SignificantOf(text: string, l: Layout)
    requires Matches(text, l)
    ensures AllDigits(Significant(DigitsOf(text, l)))
  {
    SignificantDigits(DigitsOf(text, l));
  }

  /** The summaries order magnitudes by the exponents they see; exactly they are ordered by their exact exponents. */
  lemma MagnitudeOrder(left: Summary, lt: string, l: Layout, right: Summary, rt: string, r: Layout, coeffCmp: int)
    requires SummaryOf(left, lt, l) && SummaryOf(right, rt, r) && !left.zero && !right.zero
    requires coeffCmp == FirstDifference(Significant(DigitsOf(lt, l)), Significant(DigitsOf(rt, r)), left.coeffLenRaw)
    ensures left.trailingZeroes <= left.coeffLenRaw && right.trailingZeroes <= right.coeffLenRaw
    ensures Magnitude(lt, l) > 0.0 && Magnitude(rt, r) > 0.0
    ensures MagnitudeSpec(left, right, coeffCmp) == Ranked(AdjustedSeen(lt, l) - AdjustedSeen(rt, r), DigitsRank(lt, l, rt, r))
    ensures Sign(Magnitude(lt, l) - Magnitude(rt, r)) == Ranked(AdjustedExact(lt, l) - AdjustedExact(rt, r), DigitsRank(lt, l, rt, r))
    ensures MagnitudeSpec(left, right, coeffCmp) == Sign(SeenMagnitude(lt, l) - SeenMagnitude(rt, r))
    ensures SeenMagnitude(lt, l) > 0.0 && SeenMagnitude(rt, r) > 0.0
  {
    hide Scaled, TrailingZeroes, FirstDifference, Significant, AdjustedExact, AdjustedSeen, Magnitude, DigitsOf, AllDigits, TenPow, Matches;
    hide ExponentFits, DigitOrder;
    AdjustedIsClamped(left, lt, l);
    AdjustedIsClamped(right, rt, r);
    SignificantMagnitude(lt, l);
    SignificantMagnitude(rt, r);
    var x, y := Significant(DigitsOf(lt, l)), Significant(DigitsOf(rt, r));
    SignificantOf(lt, l);
    SignificantOf(rt, r);
    DigitOrderIs(left, right, coeffCmp, x, y, 0);
    RankedOrder(left, right, coeffCmp, x, AdjustedExact(lt, l), y, AdjustedExact(rt, r));
    RankedOrder(left, right, coeffCmp, x, AdjustedSeen(lt, l), y, AdjustedSeen(rt, r));
    MagnitudeSpecIs(left, right, coeffCmp);
  }

  /** The magnitude that the summary stands for. */
  ghost function SeenMagnitude(text: string, l: Layout): real
    requires Matches(text, l)
  {
    Scaled(Significant(DigitsOf(text, l)), AdjustedSeen(text, l))
  }

  lemma MagnitudeSpecIs(left: Summary, right: Summary, coeffCmp: int)
    requires left.trailingZeroes <= left.coeffLenRaw && right.trailingZeroes <= right.coeffLenRaw
    ensures MagnitudeSpec(left, right, coeffCmp) == Ranked(AdjustedLong(left) - AdjustedLong(right), DigitOrder(left, right, coeffCmp))
  {
  }

  lemma RankedOrder(left: Summary, right: Summary, coeffCmp: int, x: string, px: int, y: string, py: int)
    requires AllDigits(x) && AllDigits(y) && |x| > 0 && |y| > 0 && x[0] != '0' && y[0] != '0'
    requires left.coeffLenRaw == |x| && right.coeffLenRaw == |y| && right.trailingZeroes == TrailingZeroes(y)
    requires coeffCmp == FirstDifference(x, y, |x|) && right.trailingZeroes <= right.coeffLenRaw
    ensures Sign(Scaled(x, px) - Scaled(y, py)) == Ranked(px - py, DigitOrder(left, right, coeffCmp))
    ensures Scaled(x, px) > 0.0 && Scaled(y, py) > 0.0
  {
    hide Scaled, TrailingZeroes, FirstDifference, DigitOrder;
    ScaledOrder(x, px, y, py);
    if px == py {
      DigitOrderIs(left, right, coeffCmp, x, y, px);
    }
  }

  lemma ScaledOrder(x: string, px: int, y: string, py: int)
    requires AllDigits(x) && AllDigits(y) && |x| > 0 && |y| > 0 && x[0] != '0' && y[0] != '0'
    ensures Scaled(x, px) > 0.0 && Scaled(y, py) > 0.0
    ensures px < py ==> Scaled(x, px) < Scaled(y, py)
    ensures px > py ==> Scaled(x, px) > Scaled(y, py)
  {
    hide Scaled;
    ScaledLowerBound(x, px);
    ScaledLowerBound(y, py);
    if px < py {
      SmallerPointIsSmaller(x, px, y, py);
    } else if py < px {
      SmallerPointIsSmaller(y, py, x, px);
    }
  }

  /** The value's sign is the summary's. */
  lemma SummarySign(s: Summary, text: string, l: Layout)
    requires SummaryOf(s, text, l)
    ensures IsJsonNumber(text)
    ensures s.zero ==> Value(text) == 0.0
    ensures !s.zero ==> Value(text) == (if s.negative then -Magnitude(text, l) else Magnitude(text, l))
    ensures s.trailingZeroes <= s.coeffLenRaw
  {
    hide Significant, Magnitude, DigitsOf, TrailingZeroes, ExponentFits;
    ValueIs(text, l);
    if s.zero {
      ZeroSummary(text, l);
    }
  }

  lemma ZeroSummary(text: string, l: Layout)
    requires Matches(text, l) && |Significant(DigitsOf(text, l))| == 0
    ensures Magnitude(text, l) == 0.0
  {
    SignificantMagnitude(text, l);
  }

  /** The value that the summary of a token stands for: its adjusted exponent is kept in the long range. */
  ghost function SeenValue(text: string, l: Layout): real
    requires Matches(text, l)
  {
    if |Significant(DigitsOf(text, l))| == 0 then 0.0
    else if IsNegative(text, l) then -SeenMagnitude(text, l) else SeenMagnitude(text, l)
  }

  /** The comparison of two summaries is the order of the values they stand for. */
  lemma SummaryOrdersSeen(left: Summary, lt: string, l: Layout, right: Summary, rt: string, r: Layout, coeffCmp: int)
    requires SummaryOf(left, lt, l) && SummaryOf(right, rt, r)
    requires coeffCmp == FirstDifference(Significant(DigitsOf(lt, l)), Significant(DigitsOf(rt, r)), left.coeffLenRaw)
    ensures left.trailingZeroes <= left.coeffLenRaw && right.trailingZeroes <= right.coeffLenRaw
    ensures CompareSpec(left, right, coeffCmp) == Sign(SeenValue(lt, l) - SeenValue(rt, r))
  {
    hide Scaled, TrailingZeroes, FirstDifference, Significant, AdjustedExact, Magnitude, SeenMagnitude, DigitsOf, ExponentFits, Matches,
         MagnitudeSpec, DigitsRank;
    SummarySign(left, lt, l);
    SummarySign(right, rt, r);
    if !left.zero && !right.zero {
      MagnitudeOrder(left, lt, l, right, rt, r, coeffCmp);
    } else if !left.zero {
      SeenPositive(left, lt, l);
    } else if !right.zero {
      SeenPositive(right, rt, r);
    }
  }

  lemma SeenPositive(s: Summary, text: string, l: Layout)
    requires SummaryOf(s, text, l) && !s.zero
    ensures SeenMagnitude(text, l) > 0.0
  {
    SignificantOf(text, l);
    ScaledLowerBound(Significant(DigitsOf(text, l)), AdjustedSeen(text, l));
  }

  /** It is the order of the exact values, except when the exponents that the summaries see order two tokens of the same sign the
      wrong way. */
  lemma SummaryOrderExactly(left: Summary, lt: string, l: Layout, right: Summary, rt: string, r: Layout, coeffCmp: int)
    requires SummaryOf(left, lt, l) && SummaryOf(right, rt, r)
    requires coeffCmp == FirstDifference(Significant(DigitsOf(lt, l)), Significant(DigitsOf(rt, r)), left.coeffLenRaw)
    ensures IsJsonNumber(lt) && IsJsonNumber(rt)
    ensures left.trailingZeroes <= left.coeffLenRaw && right.trailingZeroes <= right.coeffLenRaw
    ensures CompareSpec(left, right, coeffCmp) == Order(lt, rt) <==> !(SignOf(left) == SignOf(right) != 0 && Collapse(lt, l, rt, r))
  {
    hide Scaled, TrailingZeroes, FirstDifference, Significant, AdjustedExact, AdjustedSeen, Magnitude, SeenMagnitude, DigitsOf,
         ExponentFits, Matches, MagnitudeSpec, DigitsRank, Value, IsJsonNumber;
    SummarySign(left, lt, l);
    SummarySign(right, rt, r);
    if !left.zero && !right.zero {
      MagnitudeOrder(left, lt, l, right, rt, r, coeffCmp);
    } else if !left.zero {
      MagnitudePositive(left, lt, l);
    } else if !right.zero {
      MagnitudePositive(right, rt, r);
    }
  }

  lemma MagnitudePositive(s: Summary, text: string, l: Layout)
    requires SummaryOf(s, text, l) && !s.zero
    ensures Magnitude(text, l) > 0.0
  {
    SignificantMagnitude(text, l);
    SignificantOf(text, l);
    ScaledLowerBound(Significant(DigitsOf(text, l)), AdjustedExact(text, l));
  }
}
