/** src/lql_number.c: exact comparison of two JSON numbers of any length and exponent. */
module NumberCompare {
  import opened Wrappers
  import opened Digits
  import opened JsonNumber

  const LONG_MAX: int := 0x7fff_ffff_ffff_ffff
  const LONG_MIN: int := -0x8000_0000_0000_0000

  /** A decoded token: the digit spans, the leading zeros to skip, and the length of the stripped coefficient. */
  datatype Decimal = Decimal(integer: string, fraction: string, exponent: string,
                             leadingSkip: nat, coeffLen: nat, decimalAdjust: int,
                             exponentNegative: bool, negative: bool, zero: bool)

  function ClampAdd(left: int, right: int): int {
    if right > 0 && left > LONG_MAX - right then LONG_MAX
    else if right < 0 && left < LONG_MIN - right then LONG_MIN
    else left + right
  }

  function SizeToLong(value: nat): int { if value > LONG_MAX then LONG_MAX else value }

  // ---------------------------------------------------------------- decoding a token

  function DigitAt(number: Decimal, index: nat): char
    requires number.leadingSkip + index < |number.integer| + |number.fraction|
  {
    var raw := number.leadingSkip + index;
    if raw < |number.integer| then number.integer[raw] else number.fraction[raw - |number.integer|]
  }

  /** The digits that carry the value, without leading and trailing zeros. */
  function Coefficient(number: Decimal): string
    requires number.leadingSkip + number.coeffLen <= |number.integer| + |number.fraction|
  {
    (number.integer + number.fraction)[number.leadingSkip..number.leadingSkip + number.coeffLen]
  }

  ghost predicate AllZero(s: string) { forall i :: 0 <= i < |s| ==> s[i] == '0' }

  /** What decoding promises about a token that matches the grammar. */
  ghost predicate Describes(number: Decimal, text: string, l: Layout)
    requires Matches(text, l)
  {
    && number.integer == IntegerOf(text, l) && number.fraction == FractionOf(text, l)
    && (number.zero <==> AllZero(DigitsOf(text, l)))
    && (number.negative <==> IsNegative(text, l) && !number.zero)
    && (!number.zero ==> DescribesNonzero(number, text, l))
  }

  ghost predicate DescribesNonzero(number: Decimal, text: string, l: Layout)
    requires Matches(text, l)
  {
    var digits := DigitsOf(text, l);
    var last := number.leadingSkip + number.coeffLen;
    && number.coeffLen > 0 && last <= |digits| == |number.integer| + |number.fraction|
    && AllZero(digits[..number.leadingSkip]) && AllZero(digits[last..])
    && digits[number.leadingSkip] != '0' && digits[last - 1] != '0'
    && IsStripped(number.exponent, ExponentDigitsOf(text, l))
    && number.exponentNegative == (ExponentIsNegative(text, l) && number.exponent != "")
    && number.decimalAdjust == number.coeffLen - |number.fraction| + (|digits| - last)
  }

  /** s is t without its leading zeros. */
  ghost predicate IsStripped(s: string, t: string) {
    && AllDigits(s) && (s == "" || s[0] != '0')
    && |s| <= |t| && t[|t| - |s|..] == s && AllZero(t[..|t| - |s|])
  }

  lemma {:induction false} StrippedValue(s: string, t: string)
    requires IsStripped(s, t)
    ensures NatOf(s) == NatOf(t)
  {
    var zeroes := t[..|t| - |s|];
    assert t == zeroes + s;
    NatOfConcat(zeroes, s);
    NatOfZeroes(zeroes);
  }

  method SkipDigits(text: string, start: nat) returns (pos: nat)
    requires start <= |text|
    ensures pos == DigitsEnd(text, start)
  {
    pos := start;
    while pos < |text| && IsDigit(text[pos])
      invariant start <= pos <= |text| && DigitsIn(text, start, pos)
    {
      pos := pos + 1;
    }
    DigitsEndIs(text, start, pos);
  }

  ghost predicate ExponentFrom(text: string, start: nat) {
    exists e :: ExponentPart(text, Layout(0, 0, start, e))
  }

  /** Reads the optional exponent at pos, which must end the token. */
  method ParseExponent(text: string, start: nat) returns (ok: bool, negative: bool, digits: string, ghost expStart: nat)
    requires start <= |text|
    ensures ok <==> ExponentFrom(text, start)
    ensures ok ==> ExponentPart(text, Layout(0, 0, start, expStart)) && IsStripped(digits, text[expStart..])
    ensures ok ==> negative == (expStart > start && text[expStart - 1] == '-' && digits != "")
  {
    negative, digits, expStart := false, "", start;
    if start == |text| || !IsMark(text[start]) {
      ok := start == |text|;
      assert ok ==> ExponentPart(text, Layout(0, 0, start, start));
      return;
    }
    var pos := start + 1;
    if pos < |text| && IsPlusMinus(text[pos]) {
      negative := text[pos] == '-';
      pos := pos + 1;
    }
    expStart := pos;
    if pos == |text| || !IsDigit(text[pos]) {
      ok := false;
      return;
    }
    var begin := pos;
    pos := SkipDigits(text, pos);
    ok := pos == |text|;
    if !ok {
      return;
    }
    while begin < pos && text[begin] == '0'
      invariant expStart <= begin <= pos
      invariant forall i :: expStart <= i < begin ==> text[i] == '0'
    {
      begin := begin + 1;
    }
    digits := text[begin..];
    assert ExponentPart(text, Layout(0, 0, start, expStart));
    if digits == "" {
      negative := false;
    }
  }

  /** Reads the minus, the integer digits and the optional fraction; no longer spans are possible. */
  method ParseMantissa(text: string) returns (ok: bool, start: nat, intEnd: nat, fracEnd: nat)
    ensures !ok ==> ReadLayout(text) == None
    ensures ok ==> start == (if text != "" && text[0] == '-' then 1 else 0)
    ensures ok ==> IntegerPart(text, Layout(start, intEnd, fracEnd, fracEnd))
    ensures ok ==> FractionPart(text, Layout(start, intEnd, fracEnd, fracEnd))
    ensures ok ==> intEnd == DigitsEnd(text, start)
    ensures ok ==> fracEnd == if intEnd < |text| && text[intEnd] == '.' then DigitsEnd(text, intEnd + 1) else intEnd
  {
    ok, start, intEnd, fracEnd := false, 0, 0, 0;
    if text == "" {
      return;
    }
    if text[0] == '-' {
      start := 1;
      if start == |text| {
        return;
      }
    }
    if text[start] == '0' {
      intEnd := start + 1;
      if intEnd < |text| && IsDigit(text[intEnd]) {
        return;
      }
      DigitsEndIs(text, start, intEnd);
    } else if IsDigit(text[start]) {
      intEnd := SkipDigits(text, start);
    } else {
      return;
    }
    fracEnd := intEnd;
    if intEnd < |text| && text[intEnd] == '.' {
      if intEnd + 1 == |text| || !IsDigit(text[intEnd + 1]) {
        return;
      }
      fracEnd := SkipDigits(text, intEnd + 1);
    }
    ok := true;
  }

  lemma MantissaLeavesExponent(text: string, l: Layout)
    requires IntegerPart(text, l) && FractionPart(text, l) && l.start == (if text[0] == '-' then 1 else 0)
    requires l.intEnd == DigitsEnd(text, l.start)
    requires l.fracEnd == if l.intEnd < |text| && text[l.intEnd] == '.' then DigitsEnd(text, l.intEnd + 1) else l.intEnd
    ensures IsJsonNumber(text) <==> ExponentFrom(text, l.fracEnd)
    ensures forall e :: ExponentPart(text, Layout(0, 0, l.fracEnd, e)) ==> Matches(text, l.(expStart := e))
  {
    forall e | ExponentPart(text, Layout(0, 0, l.fracEnd, e)) ensures Matches(text, l.(expStart := e)) {
      assert ExponentPart(text, l.(expStart := e));
    }
    forall l' | Matches(text, l') ensures ExponentPart(text, Layout(0, 0, l.fracEnd, l'.expStart)) {
      ReadIsComplete(text, l');
    }
  }

  /** The first half of decoding: the spans of the token, or failure. */
  method ParseSpans(text: string)
    returns (ok: bool, negative: bool, integer: string, fraction: string,
             exponentNegative: bool, exponent: string, ghost l: Layout)
    ensures ok <==> IsJsonNumber(text)
    ensures ok ==> Matches(text, l) && negative == IsNegative(text, l)
    ensures ok ==> integer == IntegerOf(text, l) && fraction == FractionOf(text, l)
    ensures ok ==> IsStripped(exponent, ExponentDigitsOf(text, l))
    ensures ok ==> exponentNegative == (ExponentIsNegative(text, l) && exponent != "")
  {
    hide Matches, IsJsonNumber, ExponentFrom, IntegerPart, FractionPart, ExponentPart, DigitsEnd, ReadLayout;
    hide IntegerOf, FractionOf, ExponentDigitsOf, ExponentIsNegative, IsStripped;
    negative, integer, fraction, exponentNegative, exponent, l := false, "", "", false, "", Layout(0, 0, 0, 0);
    var start, intEnd, fracEnd;
    ok, start, intEnd, fracEnd := ParseMantissa(text);
    if !ok {
      NoLayout(text);
      return;
    }
    negative, integer := start == 1, text[start..intEnd];
    if fracEnd != intEnd {
      fraction := text[intEnd + 1..fracEnd];
    }
    ghost var expStart;
    ok, exponentNegative, exponent, expStart := ParseExponent(text, fracEnd);
    l := Layout(start, intEnd, fracEnd, fracEnd);
    MantissaLeavesExponent(text, l);
    l := l.(expStart := expStart);
    if ok {
      SpansOf(text, l);
    }
  }

  lemma NoLayout(text: string)
    requires ReadLayout(text) == None
    ensures !IsJsonNumber(text)
  {
    LayoutIsUnique(text);
  }

  lemma SpansOf(text: string, l: Layout)
    requires Matches(text, l)
    ensures IntegerOf(text, l) == text[l.start..l.intEnd]
    ensures FractionOf(text, l) == if l.fracEnd == l.intEnd then "" else text[l.intEnd + 1..l.fracEnd]
    ensures ExponentDigitsOf(text, l) == text[l.expStart..]
    ensures ExponentIsNegative(text, l) <==> l.expStart > l.fracEnd && text[l.expStart - 1] == '-'
  {
  }

  /** The number of leading zeros, or all digits. */
  method CountLeadingZeroes(number: Decimal) returns (first: nat)
    requires number.leadingSkip == 0
    ensures first <= |number.integer| + |number.fraction|
    ensures AllZero((number.integer + number.fraction)[..first])
    ensures first < |number.integer| + |number.fraction| ==> (number.integer + number.fraction)[first] != '0'
  {
    first := 0;
    while first < |number.integer| + |number.fraction| && DigitAt(number, first) == '0'
      invariant first <= |number.integer| + |number.fraction|
      invariant forall i :: 0 <= i < first ==> (number.integer + number.fraction)[i] == '0'
    {
      first := first + 1;
    }
  }

  method FindLastNonzero(number: Decimal, first: nat) returns (last: nat)
    requires number.leadingSkip == 0 && first < |number.integer| + |number.fraction|
    requires (number.integer + number.fraction)[first] != '0'
    ensures first <= last < |number.integer| + |number.fraction|
    ensures AllZero((number.integer + number.fraction)[last + 1..])
    ensures (number.integer + number.fraction)[last] != '0'
  {
    last := |number.integer| + |number.fraction| - 1;
    while last > first && DigitAt(number, last) == '0'
      invariant first <= last < |number.integer| + |number.fraction|
      invariant forall i :: last < i < |number.integer| + |number.fraction| ==> (number.integer + number.fraction)[i] == '0'
    {
      last := last - 1;
    }
  }

  /** A C object is at most LONG_MAX bytes long, so no length clamps. */
  method DecimalParse(text: string) returns (ok: bool, out: Decimal)
    requires |text| <= LONG_MAX
    ensures ok <==> IsJsonNumber(text)
    ensures ok ==> forall l :: Matches(text, l) ==> Describes(out, text, l)
  {
    hide Matches, AllZero, IsStripped, ReadLayout, DigitAt;
    ghost var l;
    var negative, integer, fraction, exponentNegative, exponent;
    ok, negative, integer, fraction, exponentNegative, exponent, l := ParseSpans(text);
    out := Decimal(integer, fraction, "", 0, 0, 0, false, negative, false);
    if !ok {
      return;
    }
    assert DigitsOf(text, l) == integer + fraction;
    LayoutIsUnique(text);
    var total := |integer| + |fraction|;
    var first := CountLeadingZeroes(out);
    if first == total {
      out := Decimal(integer, fraction, "", 0, 0, 0, false, false, true);
      assert DigitsOf(text, l)[..first] == DigitsOf(text, l);
      return;
    }
    var last := FindLastNonzero(out, first);
    var coeffLen := last - first + 1;
    var adjust := ClampAdd(ClampAdd(SizeToLong(coeffLen), -SizeToLong(|fraction|)), SizeToLong(total - 1 - last));
    out := Decimal(integer, fraction, exponent, first, coeffLen, adjust, exponentNegative, negative, false);
    LengthsFit(text, l);
    NotAllZero(DigitsOf(text, l), first);
    StrippedEnds(DigitsOf(text, l), first, last);
  }

  lemma NotAllZero(s: string, i: nat)
    requires i < |s| && s[i] != '0'
    ensures !AllZero(s)
  {
  }

  lemma StrippedEnds(s: string, first: nat, last: nat)
    requires first <= last < |s|
    ensures s[first + (last - first + 1)..] == s[last + 1..]
  {
  }

  lemma LengthsFit(text: string, l: Layout)
    requires Matches(text, l)
    ensures |IntegerOf(text, l)| + |FractionOf(text, l)| <= |text|
  {
  }

  // ---------------------------------------------------------------- schoolbook arithmetic on digit text

  /** Digits without a redundant leading zero. */
  ghost predicate IsNatText(t: string) {
    t != "" && AllDigits(t) && (t[0] == '0' ==> |t| == 1)
  }

  /** The shortest decimal text of an integer. */
  ghost predicate IsIntText(t: string, v: int) {
    if v < 0 then t != "" && t[0] == '-' && IsNatText(t[1..]) && NatOf(t[1..]) == -v
    else IsNatText(t) && NatOf(t) == v
  }

  /** The standard library's memcmp on equal lengths: the sign of the first difference. */
  function MemCompare(left: string, right: string): (r: int)
    requires |left| == |right|
  {
    if left == "" then 0
    else if left[0] < right[0] then -1
    else if left[0] > right[0] then 1
    else MemCompare(left[1..], right[1..])
  }

  lemma {:induction false} MemCompareIsNumeric(left: string, right: string)
    requires |left| == |right| && AllDigits(left) && AllDigits(right)
    ensures MemCompare(left, right) == IntSign(NatOf(left) - NatOf(right))
  {
    if left != "" {
      NatOfCons(left);
      NatOfCons(right);
      if left[0] < right[0] {
        FirstDifferenceDecides(left, right, 0);
      } else if right[0] < left[0] {
        FirstDifferenceDecides(right, left, 0);
      } else {
        MemCompareIsNumeric(left[1..], right[1..]);
      }
    }
  }

  function CompareDigits(left: string, right: string): (r: int) {
    if |left| < |right| then -1 else if |left| > |right| then 1 else MemCompare(left, right)
  }

  lemma LongerIsGreater(left: string, right: string)
    requires AllDigits(left) && AllDigits(right) && |left| < |right| && right[0] != '0'
    ensures NatOf(left) < NatOf(right)
  {
    NatOfBound(left);
    NatOfLowerBound(right);
    Pow10Monotone(|left|, |right| - 1);
  }

  lemma CompareDigitsIsNumeric(left: string, right: string)
    requires IsNatText(left) && IsNatText(right)
    ensures CompareDigits(left, right) == IntSign(NatOf(left) - NatOf(right))
  {
    if |left| < |right| {
      LongerIsGreater(left, right);
    } else if |right| < |left| {
      LongerIsGreater(right, left);
    } else {
      MemCompareIsNumeric(left, right);
    }
  }

  /** The last k digits, and the digit before them. */
  function Tail(s: string, k: nat): string { if k <= |s| then s[|s| - k..] else s }

  function DigitBefore(s: string, k: nat): (d: int)
    ensures 0 <= d <= 9
  {
    if k < |s| then DigitValue(s[|s| - 1 - k]) else 0
  }

  lemma TailStep(s: string, k: nat)
    ensures NatOf(Tail(s, k + 1)) == DigitBefore(s, k) * Pow10(k) + NatOf(Tail(s, k))
  {
    if k < |s| {
      NatOfCons(Tail(s, k + 1));
      assert Tail(s, k + 1)[1..] == Tail(s, k);
    }
  }

  lemma PrependDigit(d: int, s: string)
    requires 0 <= d <= 9
    ensures NatOf([DigitChar(d)] + s) == d * Pow10(|s|) + NatOf(s)
  {
    NatOfCons([DigitChar(d)] + s);
  }

  function Carried(carry: nat, k: nat): nat { if carry == 0 then 0 else Pow10(k) }

  lemma NoColumns(left: string, right: string)
    ensures NatOf("") == NatOf(Tail(left, 0)) == NatOf(Tail(right, 0)) == 0
    ensures Carried(0, 0) == 0 && AllDigits("")
  {
  }

  /** One column: both digits and the carry in give a digit d and the carry out c. */
  lemma AddColumn(left: string, right: string, carry: nat, k: nat, out: string, d: int, c: int)
    requires AllDigits(out) && |out| == k && carry <= 1
    requires carry + DigitBefore(left, k) + DigitBefore(right, k) == d + 10 * c && 0 <= d <= 9 && 0 <= c <= 1
    requires NatOf(out) + Carried(carry, k) == NatOf(Tail(left, k)) + NatOf(Tail(right, k))
    ensures AllDigits([DigitChar(d)] + out)
    ensures NatOf([DigitChar(d)] + out) + Carried(c, k + 1) == NatOf(Tail(left, k + 1)) + NatOf(Tail(right, k + 1))
  {
    TailStep(left, k);
    TailStep(right, k);
    PrependDigit(d, out);
    ColumnSum(d, c, DigitBefore(left, k), DigitBefore(right, k), carry, Pow10(k));
  }

  lemma ColumnSum(d: int, c: int, l: int, r: int, carry: int, p: int)
    requires carry + l + r == d + 10 * c && 0 <= carry <= 1 && 0 <= c <= 1
    ensures d * p + (if c == 0 then 0 else 10 * p) == l * p + r * p + (if carry == 0 then 0 else p)
  {
    assert d * p == carry * p + l * p + r * p - 10 * c * p;
  }

  /** src/lql_number.c:201-242: adds from the right into a buffer, drops leading zeros, adds the sign. */
  method AddDigits(left: string, right: string, negative: bool) returns (text: string)
    requires AllDigits(left) && AllDigits(right)
    requires negative ==> NatOf(left) + NatOf(right) > 0
    ensures IsIntText(text, SignedBy(NatOf(left) + NatOf(right), negative))
  {
    hide *;
    NoColumns(left, right);
    var width := (if |left| > |right| then |left| else |right|) + 1;
    var out := new char[width];
    var pos, carry, k := width, 0, 0;
    ghost var done: string := "";
    while pos != 0
      invariant 0 <= pos && pos + k == width && 0 <= carry <= 1
      invariant out[pos..] == done && AllDigits(done)
      invariant NatOf(done) + Carried(carry, k) == NatOf(Tail(left, k)) + NatOf(Tail(right, k))
    {
      AddColumn(left, right, carry, k, done, (carry + DigitBefore(left, k) + DigitBefore(right, k)) % 10,
                (carry + DigitBefore(left, k) + DigitBefore(right, k)) / 10);
      var sum := carry + DigitBefore(left, k) + DigitBefore(right, k);
      pos := pos - 1;
      out[pos] := DigitChar(sum % 10);
      done := [DigitChar(sum % 10)] + done;
      carry := sum / 10;
      k := k + 1;
    }
    NoFinalCarry(left, right, carry, width, done);
    text := FinishText(out[0..], negative);
  }

  function SignedBy(n: int, negative: bool): int { if negative then -n else n }

  lemma NoFinalCarry(left: string, right: string, carry: nat, width: nat, out: string)
    requires carry <= 1
    requires width > |left| && width > |right|
    requires NatOf(out) + Carried(carry, width) == NatOf(Tail(left, width)) + NatOf(Tail(right, width))
    ensures carry == 0 && NatOf(out) == NatOf(left) + NatOf(right)
  {
    hide NatOf, Pow10;
    NatOfBelow(left, width - 1);
    NatOfBelow(right, width - 1);
    CarryIsZero(NatOf(left), NatOf(right), NatOf(out), carry, width);
  }

  lemma NatOfBelow(s: string, n: nat)
    requires |s| <= n
    ensures NatOf(s) < Pow10(n)
  {
    NatOfBound(s);
    Pow10Monotone(|s|, n);
  }

  lemma CarryIsZero(l: nat, r: nat, out: nat, carry: nat, width: nat)
    requires width >= 1 && l < Pow10(width - 1) && r < Pow10(width - 1)
    requires out + Carried(carry, width) == l + r
    ensures carry == 0
  {
  }

  /** Drops leading zeros and puts the sign in front. */
  method FinishText(digits: string, negative: bool) returns (text: string)
    requires digits != "" && AllDigits(digits)
    requires negative ==> NatOf(digits) > 0
    ensures IsIntText(text, SignedBy(NatOf(digits), negative))
  {
    var first := 0;
    while digits[first] == '0' && first + 1 < |digits|
      invariant 0 <= first < |digits|
      invariant NatOf(digits[first..]) == NatOf(digits)
    {
      NatOfCons(digits[first..]);
      assert digits[first..][1..] == digits[first + 1..];
      first := first + 1;
    }
    text := digits[first..];
    if negative {
      text := "-" + text;
      assert text[1..] == digits[first..];
    }
  }

  /** One column of a subtraction: the borrow in and out. */
  lemma SubColumn(left: string, right: string, borrow: nat, k: nat, out: string)
    requires AllDigits(out) && |out| == k && borrow <= 1
    requires NatOf(out) + NatOf(Tail(right, k)) == NatOf(Tail(left, k)) + Carried(borrow, k)
    ensures
      var diff := DigitBefore(left, k) - borrow - DigitBefore(right, k);
      && -10 <= diff <= 9
      && AllDigits([DigitChar(if diff < 0 then diff + 10 else diff)] + out)
      && NatOf([DigitChar(if diff < 0 then diff + 10 else diff)] + out) + NatOf(Tail(right, k + 1))
         == NatOf(Tail(left, k + 1)) + Carried(if diff < 0 then 1 else 0, k + 1)
  {
    var l, r := DigitBefore(left, k), DigitBefore(right, k);
    var diff := l - borrow - r;
    var d := if diff < 0 then diff + 10 else diff;
    TailStep(left, k);
    TailStep(right, k);
    PrependDigit(d, out);
    ColumnDifference(diff, l, r, borrow, Pow10(k));
  }

  lemma ColumnDifference(diff: int, l: int, r: int, borrow: int, p: int)
    requires diff == l - borrow - r && 0 <= borrow <= 1
    ensures (if diff < 0 then diff + 10 else diff) * p + r * p + (if borrow == 0 then 0 else p)
         == l * p + (if diff < 0 then 10 * p else 0)
  {
    assert diff * p == l * p - borrow * p - r * p;
    assert (diff + 10) * p == diff * p + 10 * p;
  }

  /** src/lql_number.c:244-289: subtracts the smaller digits from the larger ones. */
  method SubDigits(left: string, right: string, negative: bool) returns (text: string)
    requires AllDigits(left) && AllDigits(right) && left != "" && |right| <= |left|
    requires NatOf(right) <= NatOf(left)
    ensures IsIntText(text, SignedBy(NatOf(left) - NatOf(right), negative))
  {
    hide *;
    NoColumns(left, right);
    var out := new char[|left|];
    var pos, borrow, k := |left|, 0, 0;
    ghost var done: string := "";
    while pos != 0
      invariant 0 <= pos && pos + k == |left| && 0 <= borrow <= 1
      invariant out[pos..] == done && AllDigits(done)
      invariant NatOf(done) + NatOf(Tail(right, k)) == NatOf(Tail(left, k)) + Carried(borrow, k)
    {
      SubColumn(left, right, borrow, k, done);
      var diff := DigitBefore(left, k) - borrow - DigitBefore(right, k);
      pos := pos - 1;
      out[pos] := DigitChar(if diff < 0 then diff + 10 else diff);
      done := [DigitChar(if diff < 0 then diff + 10 else diff)] + done;
      borrow := if diff < 0 then 1 else 0;
      k := k + 1;
    }
    WholeTail(left, |left|);
    WholeTail(right, |left|);
    NoFinalBorrow(NatOf(left), NatOf(right), done, borrow);
    ZeroTakesNoSign(NatOf(done), negative);
    var zero := IsAllZeroText(out[0..]);
    text := FinishText(out[0..], negative && !zero);
  }

  lemma WholeTail(s: string, k: nat)
    requires k >= |s|
    ensures Tail(s, k) == s
  {
  }

  lemma ZeroTakesNoSign(n: nat, negative: bool)
    ensures SignedBy(n, negative && n != 0) == SignedBy(n, negative)
  {
  }

  lemma NoFinalBorrow(l: nat, r: nat, out: string, borrow: nat)
    requires borrow <= 1 && r <= l
    requires NatOf(out) + r == l + Carried(borrow, |out|)
    ensures NatOf(out) == l - r
  {
    NatOfBound(out);
  }

  /** Whether stripping leaves the single digit zero, which takes no sign. */
  method IsAllZeroText(digits: string) returns (zero: bool)
    requires AllDigits(digits)
    ensures zero <==> NatOf(digits) == 0
  {
    var i := 0;
    while i < |digits| && digits[i] == '0'
      invariant 0 <= i <= |digits|
      invariant NatOf(digits[i..]) == NatOf(digits)
    {
      NatOfCons(digits[i..]);
      assert digits[i..][1..] == digits[i + 1..];
      i := i + 1;
    }
    zero := i == |digits|;
    if !zero {
      NatOfLowerBound(digits[i..]);
    }
  }

  /** The number whose upper part is still to be written in front of the digits. */
  ghost function WithRest(rest: nat, digits: string): nat { NatOf(digits) + rest * Pow10(|digits|) }

  lemma NoRest(digits: string)
    ensures WithRest(0, digits) == NatOf(digits)
  {
  }

  /** src/lql_number.c:92-104: the decimal text of an unsigned long, at most 20 digits. */
  method UlongText(value: nat) returns (text: string)
    requires value <= LONG_MAX + 1
    ensures IsNatText(text) && NatOf(text) == value && |text| <= 32
  {
    hide *;
    var tmp := [DigitChar(value % 10)];
    var rest: nat := value / 10;
    FirstDigit(value);
    while rest != 0
      invariant 1 <= |tmp| <= 20 && AllDigits(tmp)
      invariant rest == 0 ==> IsNatText(tmp)
      invariant rest < Pow10(20 - |tmp|)
      invariant WithRest(rest, tmp) == value
    {
      MoveDigit(rest, tmp);
      PowerLeft(rest, |tmp|);
      tmp := [DigitChar(rest % 10)] + tmp;
      rest := rest / 10;
    }
    NoRest(tmp);
    text := tmp;
  }

  lemma FirstDigit(value: nat)
    requires value <= LONG_MAX + 1
    ensures WithRest(value / 10, [DigitChar(value % 10)]) == value && AllDigits([DigitChar(value % 10)])
    ensures value / 10 < Pow10(19)
    ensures IsNatText([DigitChar(value % 10)])
  {
    OneDigit(DigitChar(value % 10));
    assert Pow10(1) == 10;
    TwentyDigits();
  }

  lemma PowerLeft(rest: nat, k: nat)
    requires k <= 20 && rest < Pow10(20 - k) && rest != 0
    ensures k < 20 && rest / 10 < Pow10(20 - (k + 1))
  {
    if k == 20 {
      assert false;
    }
  }

  lemma TwentyDigits()
    ensures LONG_MAX + 1 < Pow10(20)
  {
    assert Pow10(5) == 100_000;
    assert Pow10(10) == 100_000 * 100_000;
    assert Pow10(15) == 100_000 * 10_000_000_000;
  }

  lemma MoveDigit(rest: nat, tmp: string)
    requires AllDigits(tmp)
    ensures AllDigits([DigitChar(rest % 10)] + tmp)
    ensures rest != 0 && rest / 10 == 0 ==> IsNatText([DigitChar(rest % 10)] + tmp)
    ensures WithRest(rest / 10, [DigitChar(rest % 10)] + tmp) == WithRest(rest, tmp)
  {
    PrependDigit(rest % 10, tmp);
    SplitByTen(rest, Pow10(|tmp|));
  }

  lemma SplitByTen(rest: nat, p: nat)
    ensures rest * p == rest % 10 * p + rest / 10 * (10 * p)
  {
    var q, r := rest / 10, rest % 10;
    assert rest == 10 * q + r;
    assert (10 * q + r) * p == 10 * q * p + r * p;
  }

  // ---------------------------------------------------------------- comparing magnitudes

  /** The exponent of the value written as 0.d1d2d3... with d1 the first significant digit. */
  ghost function Adjusted(number: Decimal): int {
    SignedBy(NatOf(number.exponent), number.exponentNegative) + number.decimalAdjust
  }

  ghost predicate HasExponent(number: Decimal) {
    && AllDigits(number.exponent) && (number.exponent != "" ==> number.exponent[0] != '0')
    && (number.exponent == "" ==> !number.exponentNegative)
    && LONG_MIN <= number.decimalAdjust <= LONG_MAX
  }

  lemma StrippedIsPositive(s: string)
    requires AllDigits(s) && s != "" && s[0] != '0'
    ensures IsNatText(s) && NatOf(s) > 0
  {
    NatOfLowerBound(s);
  }

  lemma ZeroText()
    ensures IsNatText("0") && NatOf("0") == 0
  {
    OneDigit('0');
  }

  /** src/lql_number.c:291-346: exponent plus decimal adjustment as exact decimal text. */
  method AdjustedExponent(number: Decimal) returns (text: string)
    requires HasExponent(number)
    ensures IsIntText(text, Adjusted(number))
  {
    var small := number.decimalAdjust;
    var smallNegative := small < 0;
    var smallMag: nat := if small < 0 then -small else small;
    var smallDigits := UlongText(smallMag);
    var base, baseNegative := number.exponent, number.exponentNegative;
    ZeroText();
    if |base| == 0 {
      text := AddDigits("0", smallDigits, smallNegative);
      return;
    }
    StrippedIsPositive(base);
    CompareDigitsIsNumeric(base, smallDigits);
    hide NatOf, CompareDigits, IsIntText;
    if smallMag == 0 || baseNegative == smallNegative {
      text := AddDigits(base, smallDigits, baseNegative);
      return;
    }
    var cmp := CompareDigits(base, smallDigits);
    if cmp == 0 {
      text := SubDigits("0", "0", false);
    } else if cmp > 0 {
      CompareOrdersLengths(smallDigits, base);
      text := SubDigits(base, smallDigits, baseNegative);
    } else {
      CompareOrdersLengths(base, smallDigits);
      text := SubDigits(smallDigits, base, smallNegative);
    }
  }

  lemma CompareOrdersLengths(left: string, right: string)
    requires IsNatText(left) && IsNatText(right) && NatOf(left) < NatOf(right)
    ensures |left| <= |right|
  {
    CompareDigitsIsNumeric(left, right);
  }

  /** src/lql_number.c:348-370. */
  method CompareSignedDecimal(left: string, right: string, ghost l: int, ghost r: int) returns (cmp: int)
    requires IsIntText(left, l) && IsIntText(right, r)
    ensures cmp == IntSign(l - r)
  {
    var leftNegative, rightNegative := left[0] == '-', right[0] == '-';
    var leftDigits := if leftNegative then left[1..] else left;
    var rightDigits := if rightNegative then right[1..] else right;
    if leftNegative != rightNegative {
      return if leftNegative then -1 else 1;
    }
    CompareDigitsIsNumeric(leftDigits, rightDigits);
    cmp := CompareDigits(leftDigits, rightDigits);
    cmp := if leftNegative then -cmp else cmp;
  }

  ghost predicate IsNonzero(number: Decimal) {
    && HasExponent(number)
    && number.coeffLen > 0 && number.leadingSkip + number.coeffLen <= |number.integer| + |number.fraction|
    && AllDigits(number.integer) && AllDigits(number.fraction)
    && Coefficient(number)[0] != '0'
  }

  ghost function ScaledOf(number: Decimal): real
    requires IsNonzero(number)
  {
    Scaled(Coefficient(number), Adjusted(number))
  }

  lemma CoefficientAt(number: Decimal, i: nat)
    requires IsNonzero(number)
    ensures AllDigits(Coefficient(number)) && |Coefficient(number)| == number.coeffLen
    ensures i < number.coeffLen ==> Coefficient(number)[i] == DigitAt(number, i)
  {
  }

  /** src/lql_number.c:464-508: first the adjusted exponents, then the digits padded with zeros. */
  method CompareAbs(left: Decimal, right: Decimal) returns (out: int)
    requires IsNonzero(left) && IsNonzero(right)
    ensures out == Sign(ScaledOf(left) - ScaledOf(right))
  {
    hide IsIntText, Scaled, Coefficient;
    var leftAdjusted := AdjustedExponent(left);
    var rightAdjusted := AdjustedExponent(right);
    var adjustedCmp := CompareSignedDecimal(leftAdjusted, rightAdjusted, Adjusted(left), Adjusted(right));
    CoefficientAt(left, 0);
    CoefficientAt(right, 0);
    ghost var x, y := Coefficient(left), Coefficient(right);
    if adjustedCmp != 0 {
      if adjustedCmp < 0 {
        SmallerPointIsSmaller(x, Adjusted(left), y, Adjusted(right));
      } else {
        SmallerPointIsSmaller(y, Adjusted(right), x, Adjusted(left));
      }
      return adjustedCmp;
    }
    var max := if left.coeffLen > right.coeffLen then left.coeffLen else right.coeffLen;
    var i := 0;
    while i < max
      invariant 0 <= i <= max
      invariant forall j :: 0 <= j < i ==> PaddedAt(x, j) == PaddedAt(y, j)
    {
      CoefficientAt(left, i);
      CoefficientAt(right, i);
      var a := if i < left.coeffLen then DigitAt(left, i) else '0';
      var b := if i < right.coeffLen then DigitAt(right, i) else '0';
      if a < b {
        FirstPaddedDifferenceDecides(x, y, Adjusted(left), i);
        return -1;
      }
      if a > b {
        FirstPaddedDifferenceDecides(y, x, Adjusted(left), i);
        return 1;
      }
      i := i + 1;
    }
    SamePaddedDigits(x, y, Adjusted(left));
    out := 0;
  }

  lemma DescribedIsNonzero(number: Decimal, text: string, l: Layout)
    requires Matches(text, l) && |text| <= LONG_MAX && Describes(number, text, l) && !number.zero
    ensures IsNonzero(number)
  {
    LengthsFit(text, l);
  }

  /** The stripped coefficient at the adjusted exponent is the magnitude of the token. */
  lemma DescribedMagnitude(number: Decimal, text: string, l: Layout)
    requires Matches(text, l) && |text| <= LONG_MAX && Describes(number, text, l) && !number.zero
    ensures IsNonzero(number) && ScaledOf(number) == Magnitude(text, l)
  {
    hide Magnitude, Scaled, ExponentOf, Adjusted, IsNonzero, Matches;
    DescribedIsNonzero(number, text, l);
    MagnitudeIsScaled(text, l);
    DescribedExponent(number, text, l);
    TrimmedIsScaled(DigitsOf(text, l), number.leadingSkip, number.coeffLen, ExponentOf(text, l) + |IntegerOf(text, l)|);
  }

  lemma DescribedExponent(number: Decimal, text: string, l: Layout)
    requires Matches(text, l) && Describes(number, text, l) && !number.zero
    ensures Adjusted(number) == ExponentOf(text, l) + |IntegerOf(text, l)| - number.leadingSkip
  {
    StrippedValue(number.exponent, ExponentDigitsOf(text, l));
  }

  lemma TrimmedIsScaled(digits: string, first: nat, n: nat, point: int)
    requires first + n <= |digits|
    requires AllZero(digits[..first]) && AllZero(digits[first + n..])
    ensures Scaled(digits[first..first + n], point - first) == Scaled(digits, point)
  {
    forall i | 0 <= i < first ensures digits[i] == '0' {
      assert digits[i] == digits[..first][i];
    }
    DropLeadingZeroes(digits, first, point);
    var rest := digits[first..];
    forall i | n <= i < |rest| ensures rest[i] == '0' {
      assert rest[i] == digits[first + n..][i - n];
    }
    DropTrailingZeroes(rest, n, point - first);
    assert rest[..n] == digits[first..first + n];
  }

  lemma ZeroValue(text: string, l: Layout)
    requires Matches(text, l) && AllZero(DigitsOf(text, l))
    ensures Magnitude(text, l) == 0.0
  {
    NatOfZeroes(DigitsOf(text, l));
    MagnitudeIsScaled(text, l);
  }

  lemma NonzeroMagnitude(number: Decimal, text: string, l: Layout)
    requires Matches(text, l) && |text| <= LONG_MAX && Describes(number, text, l) && !number.zero
    ensures Magnitude(text, l) > 0.0
  {
    DescribedMagnitude(number, text, l);
    ScaledLowerBound(Coefficient(number), Adjusted(number));
  }

  /** The value is what the decoded sign, coefficient and exponent say. */
  ghost predicate HasValue(number: Decimal, v: real) {
    if number.zero then v == 0.0
    else
      && IsNonzero(number) && ScaledOf(number) > 0.0
      && v == if number.negative then -ScaledOf(number) else ScaledOf(number)
  }

  lemma DescribedValue(number: Decimal, text: string)
    requires IsJsonNumber(text) && |text| <= LONG_MAX
    requires forall l :: Matches(text, l) ==> Describes(number, text, l)
    ensures HasValue(number, Value(text))
  {
    var l :| Matches(text, l);
    ValueIs(text, l);
    DescribedMagnitudes(number, text, l);
  }

  lemma DescribedMagnitudes(number: Decimal, text: string, l: Layout)
    requires Matches(text, l) && |text| <= LONG_MAX && Describes(number, text, l)
    ensures HasValue(number, if number.negative then -Magnitude(text, l) else Magnitude(text, l))
    ensures number.zero ==> Magnitude(text, l) == 0.0
  {
    if number.zero {
      ZeroValue(text, l);
    } else {
      DescribedMagnitude(number, text, l);
      NonzeroMagnitude(number, text, l);
    }
  }

  // ---------------------------------------------------------------- the entry point

  ghost function Order(left: string, right: string): int
    requires IsJsonNumber(left) && IsJsonNumber(right)
  {
    Sign(Value(left) - Value(right))
  }

  /** src/lql_number.c:120-162: a token that is an integer without fraction and exponent. */
  method PlainInteger(text: string) returns (ok: bool, digits: string, negative: bool, zero: bool)
    ensures ok ==> IsPlain(text, digits, negative, zero)
  {
    ok, digits, negative, zero := false, "", false, false;
    if |text| == 0 {
      return;
    }
    var pos := 0;
    if text[0] == '-' {
      negative, pos := true, 1;
      if pos == |text| {
        return;
      }
    }
    ghost var l := Layout(pos, |text|, |text|, |text|);
    if text[pos] == '0' {
      if pos + 1 != |text| {
        return;
      }
      assert text[pos..] == "0";
      assert IsPlainUnder(text, l, "0", false, true);
      return true, "0", false, true;
    }
    if !IsDigit(text[pos]) {
      return;
    }
    var end := SkipDigits(text, pos);
    if end != |text| {
      return;
    }
    digits := text[pos..];
    ok := true;
    assert IsPlainUnder(text, l, digits, negative, zero);
  }

  ghost predicate IsPlainUnder(text: string, l: Layout, digits: string, negative: bool, zero: bool) {
    && Matches(text, l) && l.intEnd == |text| && digits == text[l.start..]
    && IsNatText(digits) && (zero <==> digits == "0")
    && negative == (IsNegative(text, l) && !zero)
  }

  ghost predicate IsPlain(text: string, digits: string, negative: bool, zero: bool) {
    exists l :: IsPlainUnder(text, l, digits, negative, zero)
  }

  lemma PlainValue(text: string, digits: string, negative: bool, zero: bool)
    requires IsPlain(text, digits, negative, zero)
    ensures IsJsonNumber(text) && Value(text) == SignedBy(NatOf(digits), negative) as real
    ensures IsNatText(digits) && (zero <==> NatOf(digits) == 0)
  {
    var l :| IsPlainUnder(text, l, digits, negative, zero);
    ValueIs(text, l);
    PlainMagnitude(text, l);
    PlainZero(digits);
    hide NatOf, Value, IsNatText, Magnitude, TenPow;
  }

  lemma PlainZero(digits: string)
    requires IsNatText(digits)
    ensures NatOf(digits) == 0 <==> digits == "0"
  {
    ZeroText();
    if digits[0] != '0' {
      StrippedIsPositive(digits);
    }
  }

  lemma PlainMagnitude(text: string, l: Layout)
    requires Matches(text, l) && l.intEnd == |text|
    ensures Magnitude(text, l) == NatOf(text[l.start..]) as real
  {
    assert DigitsOf(text, l) == text[l.start..];
    assert ExponentDigitsOf(text, l) == "";
    assert ExponentOf(text, l) - |FractionOf(text, l)| == 0;
    assert TenPow(0) == 1.0;
  }

  /** src/lql_number.c:164-199. */
  method ComparePlainInteger(left: string, right: string) returns (ok: bool, out: int)
    ensures ok ==> IsJsonNumber(left) && IsJsonNumber(right) && out == Order(left, right)
  {
    hide NatOf, IsPlain, Value, CompareDigits, IsNatText;
    out := 0;
    var leftDigits, leftNegative, leftZero;
    ok, leftDigits, leftNegative, leftZero := PlainInteger(left);
    if !ok {
      return;
    }
    var rightDigits, rightNegative, rightZero;
    ok, rightDigits, rightNegative, rightZero := PlainInteger(right);
    if !ok {
      return;
    }
    PlainValue(left, leftDigits, leftNegative, leftZero);
    PlainValue(right, rightDigits, rightNegative, rightZero);
    CompareDigitsIsNumeric(leftDigits, rightDigits);
    if leftZero && rightZero {
      return;
    }
    if leftZero != rightZero {
      out := if leftZero then (if rightNegative then 1 else -1) else (if leftNegative then -1 else 1);
      return;
    }
    if leftNegative != rightNegative {
      out := if leftNegative then -1 else 1;
      return;
    }
    var cmp := CompareDigits(leftDigits, rightDigits);
    out := if leftNegative then -cmp else cmp;
  }

  /** src/lql_number.c:510-548: succeeds exactly on two JSON numbers, with the sign of their exact difference. */
  method CompareJson(left: string, right: string) returns (ok: bool, out: int)
    requires |left| <= LONG_MAX && |right| <= LONG_MAX
    ensures ok <==> IsJsonNumber(left) && IsJsonNumber(right)
    ensures ok ==> out == Order(left, right)
  {
    ok, out := ComparePlainInteger(left, right);
    if ok {
      return;
    }
    var a, b;
    ok, a := DecimalParse(left);
    if !ok {
      return;
    }
    ok, b := DecimalParse(right);
    if !ok {
      return;
    }
    DescribedValue(a, left);
    DescribedValue(b, right);
    out := CompareDecimals(a, b, Value(left), Value(right));
  }

  method CompareDecimals(a: Decimal, b: Decimal, ghost x: real, ghost y: real) returns (out: int)
    requires HasValue(a, x) && HasValue(b, y)
    ensures out == Sign(x - y)
  {
    hide IsNonzero, ScaledOf;
    if a.zero && b.zero {
      out := 0;
      return;
    }
    if a.zero != b.zero {
      out := if a.zero then (if b.negative then 1 else -1) else (if a.negative then -1 else 1);
      return;
    }
    if a.negative != b.negative {
      out := if a.negative then -1 else 1;
      return;
    }
    var cmp := CompareAbs(a, b);
    out := if a.negative then -cmp else cmp;
  }
}
