/** JSON numbers written out of their parts (section 6 of RFC 8259): every such text is one with the value its parts say, and every
    JSON number is such a text. */
module NumberText {
  import opened Wrappers
  import opened Digits
  import opened JsonNumber

  /** The exponent of a number: e or E, an optional sign, and digits. */
  datatype Exponent = Exponent(mark: string, sign: string, digits: string)

  datatype Parts = Parts(minus: bool, integer: string, fraction: Option<string>, exponent: Option<Exponent>)

  predicate IsDigits(s: string) { |s| > 0 && forall i :: 0 <= i < |s| ==> '0' <= s[i] <= '9' }

  predicate AreParts(p: Parts) {
    && IsDigits(p.integer) && (p.integer[0] == '0' ==> p.integer == "0")
    && (p.fraction.Some? ==> IsDigits(p.fraction.value))
    && (p.exponent.Some? ==> IsExponent(p.exponent.value))
  }

  predicate IsExponent(e: Exponent) { (e.mark == "e" || e.mark == "E") && (e.sign == "" || e.sign == "+" || e.sign == "-") && IsDigits(e.digits) }

  function FractionText(p: Parts): string { if p.fraction.None? then "" else "." + p.fraction.value }

  function ExponentText(p: Parts): string {
    if p.exponent.None? then "" else p.exponent.value.mark + p.exponent.value.sign + p.exponent.value.digits
  }

  function Spelling(p: Parts): string { (if p.minus then "-" else "") + p.integer + FractionText(p) + ExponentText(p) }

  function FractionDigits(p: Parts): string { if p.fraction.None? then "" else p.fraction.value }

  ghost function PowerOf(p: Parts): int {
    if p.exponent.None? then 0 else
    var n: int := NatOf(p.exponent.value.digits);
    if p.exponent.value.sign == "-" then -n else n
  }

  /** All digits as one whole number, with the point moved to its place. */
  ghost function Worth(p: Parts): real {
    var magnitude := NatOf(p.integer + FractionDigits(p)) as real * TenPow(PowerOf(p) - |FractionDigits(p)|);
    if p.minus then -magnitude else magnitude
  }

  function LayoutOf(p: Parts): Layout {
    var start: nat := if p.minus then 1 else 0;
    var intEnd := start + |p.integer|;
    var fracEnd := intEnd + |FractionText(p)|;
    Layout(start, intEnd, fracEnd, fracEnd + if p.exponent.None? then 0 else |p.exponent.value.mark| + |p.exponent.value.sign|)
  }

  lemma PartsLie(p: Parts)
    requires AreParts(p)
    ensures var text, l := Spelling(p), LayoutOf(p);
      && (p.minus ==> text[0] == '-') && l.start < l.intEnd <= l.fracEnd <= l.expStart <= |text|
      && text[l.start..l.intEnd] == p.integer && text[l.intEnd..l.fracEnd] == FractionText(p)
      && text[l.fracEnd..] == ExponentText(p)
  {
    var a := if p.minus then "-" else "";
    assert Spelling(p) == a + p.integer + FractionText(p) + ExponentText(p);
  }

  lemma TextMatches(p: Parts)
    requires AreParts(p)
    ensures var text, l := Spelling(p), LayoutOf(p);
      && Matches(text, l) && IsNegative(text, l) == p.minus && IntegerOf(text, l) == p.integer && FractionOf(text, l) == FractionDigits(p)
      && (p.exponent.Some? ==> ExponentDigitsOf(text, l) == p.exponent.value.digits)
      && (p.exponent.None? ==> ExponentDigitsOf(text, l) == "")
      && (ExponentIsNegative(text, l) <==> p.exponent.Some? && p.exponent.value.sign == "-")
  {
    hide Spelling;
    var text, l := Spelling(p), LayoutOf(p);
    PartsLie(p);
    IntegerMatches(text, l, p);
    FractionMatches(text, l, p);
    ExponentMatches(text, l, p);
  }

  lemma IntegerMatches(text: string, l: Layout, p: Parts)
    requires AreParts(p) && l == LayoutOf(p) && l.start < l.intEnd <= |text| && (p.minus ==> text[0] == '-')
    requires text[l.start..l.intEnd] == p.integer
    ensures IntegerPart(text, l)
  {
    assert forall i :: l.start <= i < l.intEnd ==> text[i] == p.integer[i - l.start];
  }

  lemma FractionMatches(text: string, l: Layout, p: Parts)
    requires AreParts(p) && l == LayoutOf(p) && l.intEnd <= l.fracEnd <= |text| && text[l.intEnd..l.fracEnd] == FractionText(p)
    ensures FractionPart(text, l)
    ensures (if l.fracEnd == l.intEnd then "" else text[l.intEnd + 1..l.fracEnd]) == FractionDigits(p)
  {
    assert forall i :: l.intEnd <= i < l.fracEnd ==> text[i] == FractionText(p)[i - l.intEnd];
    if p.fraction.Some? {
      assert text[l.intEnd + 1..l.fracEnd] == text[l.intEnd..l.fracEnd][1..];
    }
  }

  lemma ExponentMatches(text: string, l: Layout, p: Parts)
    requires AreParts(p) && l == LayoutOf(p) && l.fracEnd <= |text| && text[l.fracEnd..] == ExponentText(p)
    ensures ExponentPart(text, l) && text[l.expStart..] == (if p.exponent.None? then "" else p.exponent.value.digits)
    ensures l.expStart > l.fracEnd ==> (text[l.expStart - 1] == '-' <==> p.exponent.Some? && p.exponent.value.sign == "-")
    ensures l.expStart > l.fracEnd <==> p.exponent.Some?
  {
    if p.exponent.Some? {
      ExponentStands(text, l.fracEnd, p.exponent.value);
    }
  }

  lemma ExponentStands(text: string, at: nat, e: Exponent)
    requires IsExponent(e) && at <= |text| && text[at..] == e.mark + e.sign + e.digits
    ensures var k := |e.mark| + |e.sign|;
      && 1 <= k <= 2 && at + k < |text| && IsMark(text[at]) && (k == 2 ==> IsPlusMinus(text[at + 1]))
      && DigitsIn(text, at + k, |text|) && text[at + k..] == e.digits && (text[at + k - 1] == '-' <==> e.sign == "-")
  {
    var tail, k := text[at..], |e.mark| + |e.sign|;
    TailParts(tail, e);
    assert text[at] == tail[0] && text[at + k - 1] == tail[k - 1];
    assert text[at + k..] == tail[k..];
    forall i | at + k <= i < |text| ensures IsDigit(text[i]) {
      assert text[i] == text[at + k..][i - at - k];
    }
  }

  lemma TailParts(tail: string, e: Exponent)
    requires IsExponent(e) && tail == e.mark + e.sign + e.digits
    ensures var k := |e.mark| + |e.sign|;
      && 1 <= k <= 2 && k < |tail| && tail[0] == e.mark[0] && (k == 2 ==> tail[1] == e.sign[0]) && tail[k..] == e.digits
      && (tail[k - 1] == '-' <==> e.sign == "-")
  {
  }

  /** A text of the grammar is a JSON number, and its value is what its parts are worth. */
  lemma TextIsNumber(p: Parts)
    requires AreParts(p)
    ensures IsJsonNumber(Spelling(p)) && Value(Spelling(p)) == Worth(p)
  {
    hide Matches, Spelling, IsNegative, IntegerOf, FractionOf, ExponentDigitsOf, ExponentIsNegative, NatOf, TenPow, LayoutOf, AreParts;
    TextMatches(p);
    NothingIsZero();
    ValueIs(Spelling(p), LayoutOf(p));
  }

  lemma NothingIsZero()
    ensures NatOf("") == 0
  {
  }

  function Cut(text: string, l: Layout): Parts
    requires Matches(text, l)
  {
    Parts(l.start == 1, text[l.start..l.intEnd], if l.fracEnd == l.intEnd then None else Some(text[l.intEnd + 1..l.fracEnd]),
          if l.expStart == l.fracEnd then None
          else Some(Exponent([text[l.fracEnd]], text[l.fracEnd + 1..l.expStart], text[l.expStart..])))
  }

  /** And every JSON number is such a text. */
  lemma NumberIsText(text: string) returns (p: Parts)
    requires IsJsonNumber(text)
    ensures AreParts(p) && Spelling(p) == text
  {
    hide Matches;
    var l :| Matches(text, l);
    p := Cut(text, l);
    CutIs(text, l);
  }

  lemma CutIs(text: string, l: Layout)
    requires Matches(text, l)
    ensures AreParts(Cut(text, l)) && Spelling(Cut(text, l)) == text
  {
    hide Matches, Cut;
    CutParts(text, l);
    CutPieces(text, l);
    FourPieces(text, l.start, l.intEnd, l.fracEnd);
  }

  lemma CutPieces(text: string, l: Layout)
    requires Matches(text, l)
    ensures var p := Cut(text, l);
      && l.start <= l.intEnd <= l.fracEnd <= |text| && (if p.minus then "-" else "") == text[..l.start]
      && p.integer == text[l.start..l.intEnd] && FractionText(p) == text[l.intEnd..l.fracEnd] && ExponentText(p) == text[l.fracEnd..]
  {
    if l.expStart > l.fracEnd {
      TailPieces(text, l.fracEnd, l.expStart);
    }
    if l.fracEnd > l.intEnd {
      assert text[l.intEnd..l.fracEnd] == [text[l.intEnd]] + text[l.intEnd + 1..l.fracEnd];
    }
  }

  lemma TailPieces(text: string, a: nat, b: nat)
    requires a < b <= |text|
    ensures [text[a]] + text[a + 1..b] + text[b..] == text[a..]
  {
  }

  lemma FourPieces(text: string, a: nat, b: nat, c: nat)
    requires a <= b <= c <= |text|
    ensures text[..a] + text[a..b] + text[b..c] + text[c..] == text
  {
  }

  lemma CutParts(text: string, l: Layout)
    requires Matches(text, l)
    ensures AreParts(Cut(text, l))
  {
    var p := Cut(text, l);
    assert p.integer[0] == text[l.start];
    if l.intEnd == l.start + 1 {
      assert p.integer == [text[l.start]];
    }
    if l.expStart == l.fracEnd + 2 {
      assert text[l.fracEnd + 1..l.expStart] == [text[l.fracEnd + 1]];
    }
  }
}
