/** Tokens that the bounded-memory comparison orders wrongly: exponents at the ends of the long range. */
module NumberLimits {
  import opened Digits
  import opened JsonNumber
  import opened NumberCompare
  import opened NumberSummary
  import opened NumberStream

  /** An exponent of LONG_MAX, written with zeroes in front. */
  function LargestExponent(width: nat): (e: string)
    ensures |e| == width && AllDigits(e)
  {
    ZeroPadded(LONG_MAX, width)
  }

  lemma LargestExponentValue(width: nat)
    requires width >= 19
    ensures NatOf(LargestExponent(width)) == LONG_MAX
  {
    hide NatOf;
    Thousands(0);
    Thousands(3);
    Thousands(6);
    Thousands(9);
    Thousands(12);
    Thousands(15);
    assert Pow10(0) == 1 && Pow10(19) == 10 * Pow10(18);
    Pow10Monotone(19, width);
    ZeroPaddedValue(LONG_MAX, width);
  }

  lemma Thousands(n: nat)
    ensures Pow10(n + 3) == 1000 * Pow10(n)
  {
    assert Pow10(n + 3) == 10 * Pow10(n + 2) && Pow10(n + 2) == 10 * Pow10(n + 1);
  }

  // ---------------------------------------------------------------- a token with an exponent

  function Token(head: string, mark: string, e: string): string { head + mark + e }

  function TokenLayout(head: string, mark: string): Layout { Layout(0, |head|, |head|, |head| + |mark|) }

  predicate IsExponentMark(mark: string) { mark == "e" || mark == "e-" }

  function Signed(mark: string, n: int): int { if mark == "e" then n else -n }

  lemma TokenParts(head: string, mark: string, e: string)
    requires |head| > 0 && AllDigits(head) && head[0] != '0' && IsExponentMark(mark) && |e| > 0 && AllDigits(e)
    ensures var text, l := Token(head, mark, e), TokenLayout(head, mark);
            && Matches(text, l) && DigitsOf(text, l) == head && FractionOf(text, l) == "" && !IsNegative(text, l)
            && ExponentOf(text, l) == Signed(mark, NatOf(e))
  {
    hide NatOf, Matches, AllDigits, Token;
    TokenMatches(head, mark, e);
    TokenSlices(head, mark, e);
    var text, l := Token(head, mark, e), TokenLayout(head, mark);
    assert IntegerOf(text, l) == head && FractionOf(text, l) == "";
    assert ExponentDigitsOf(text, l) == e && ExponentIsNegative(text, l) == (mark == "e-");
    assert head + "" == head;
  }

  lemma TokenSlices(head: string, mark: string, e: string)
    requires |mark| > 0
    ensures var text := Token(head, mark, e);
            && |text| == |head| + |mark| + |e| && text[0..|head|] == head && text[|head| + |mark|..] == e
            && text[|head| + |mark| - 1] == mark[|mark| - 1]
  {
    var text := Token(head, mark, e);
    assert text[0..|head|] == head && text[|head| + |mark|..] == e;
  }

  lemma TokenMatches(head: string, mark: string, e: string)
    requires |head| > 0 && AllDigits(head) && head[0] != '0' && IsExponentMark(mark) && |e| > 0 && AllDigits(e)
    ensures Matches(Token(head, mark, e), TokenLayout(head, mark))
  {
    var text := Token(head, mark, e);
    forall i | 0 <= i < |text| && !(|head| <= i < |head| + |mark|) ensures IsDigit(text[i]) {
      assert text[i] == if i < |head| then head[i] else e[i - |head| - |mark|];
    }
    assert text[0] == head[0] && text[|head|] == 'e';
    assert mark == "e-" ==> text[|head| + 1] == '-';
  }

  /** What such tokens of ten and of one are worth, exactly and as the summaries see them. */
  lemma TenAndOne(mark: string, e: string, f: string)
    requires IsExponentMark(mark) && |e| > 0 && AllDigits(e) && NatOf(e) <= LONG_MAX && |f| > 0 && AllDigits(f) && NatOf(f) <= LONG_MAX
    ensures var ten, one, l, r := Token("10", mark, e), Token("1", mark, f), TokenLayout("10", mark), TokenLayout("1", mark);
            && Matches(ten, l) && Matches(one, r) && IsJsonNumber(ten) && IsJsonNumber(one) && Unclamped(ten) && Unclamped(one)
            && AdjustedExact(ten, l) == 2 + ExponentOf(ten, l) && AdjustedExact(one, r) == 1 + ExponentOf(one, r)
            && AdjustedSeen(ten, l) == Clamp(2 + SeenExponent(ten, l)) && AdjustedSeen(one, r) == Clamp(1 + SeenExponent(one, r))
            && Order(ten, one) == IntSign(AdjustedExact(ten, l) - AdjustedExact(one, r))
            && SeenOrder(ten, one) == IntSign(AdjustedSeen(ten, l) - AdjustedSeen(one, r))
  {
    hide NatOf, Significant, Scaled, Matches, DigitsOf, ExponentOf, FractionOf, Magnitude, IsNegative, TokenSeen;
    var ten, one, l, r := Token("10", mark, e), Token("1", mark, f), TokenLayout("10", mark), TokenLayout("1", mark);
    TokenParts("10", mark, e);
    TokenParts("1", mark, f);
    TheOnlyLayouts(ten, l);
    TheOnlyLayouts(one, r);
    TokenFits(mark, e);
    TokenFits(mark, f);
    SignificantHeads();
    TokenSeenIs(ten, l);
    TokenSeenIs(one, r);
    ValueIs(ten, l);
    ValueIs(one, r);
    SignificantMagnitude(ten, l);
    SignificantMagnitude(one, r);
    TenIsOne(AdjustedExact(ten, l), AdjustedExact(one, r));
    TenIsOne(AdjustedSeen(ten, l), AdjustedSeen(one, r));
  }

  lemma TokenFits(mark: string, e: string)
    requires NatOf(e) <= LONG_MAX
    ensures -LONG_MAX <= Signed(mark, NatOf(e)) <= LONG_MAX
  {
  }

  lemma SignificantHeads()
    ensures Significant("10") == "10" && Significant("1") == "1"
  {
    assert "1"[..0] == "" && "10"[..1] == "1";
    assert Significant("1") == "1";
  }

  /** Digits 10 and 1 are the same fraction: the points decide. */
  lemma TenIsOne(p: int, q: int)
    ensures Sign(Scaled("10", p) - Scaled("1", q)) == IntSign(p - q)
  {
    hide Scaled;
    ScaledOrder("10", p, "1", q);
    if p == q {
      PaddingKeepsScaled("1", 2, p);
      assert Padded("1", 2) == "10";
    }
  }

  // ---------------------------------------------------------------- the wrong answers

  /** The first is ten times the second, and the summaries take them for equal. */
  lemma LongExponentsMislead(e: string, f: string)
    requires |e| > 0 && AllDigits(e) && NatOf(e) == LONG_MAX && |f| > 0 && AllDigits(f) && NatOf(f) == LONG_MAX
    ensures IsJsonNumber(Token("10", "e", e)) && IsJsonNumber(Token("1", "e", f))
    ensures Order(Token("10", "e", e), Token("1", "e", f)) == 1 && SeenOrder(Token("10", "e", e), Token("1", "e", f)) == 0
  {
    hide NatOf, Order, SeenOrder, AdjustedExact, AdjustedSeen, DigitsOf, Matches;
    TokenParts("10", "e", e);
    TokenParts("1", "e", f);
    TenAndOne("e", e, f);
  }

  /** The two are equal, and the summaries take the first for less: an exponent of -LONG_MAX counts as one less. */
  lemma LongestNegativeExponentMisleads(e: string, f: string)
    requires |e| > 0 && AllDigits(e) && NatOf(e) == LONG_MAX && |f| > 0 && AllDigits(f) && NatOf(f) == LONG_MAX - 1
    ensures IsJsonNumber(Token("10", "e-", e)) && IsJsonNumber(Token("1", "e-", f))
    ensures Order(Token("10", "e-", e), Token("1", "e-", f)) == 0 && SeenOrder(Token("10", "e-", e), Token("1", "e-", f)) == -1
  {
    hide NatOf, Order, SeenOrder, AdjustedExact, AdjustedSeen, DigitsOf, Matches;
    TokenParts("10", "e-", e);
    TokenParts("1", "e-", f);
    TenAndOne("e-", e, f);
  }

  /** The comparator run over a whole token. */
  method CompareToken(token: string, bound: string) returns (out: int)
    requires IsJsonNumber(token) && |token| <= LONG_MAX && IsJsonNumber(bound) && |bound| <= LONG_MAX
    ensures |token| < MatchLimit([bound]) ==> out == Order(token, bound)
    ensures |token| >= MatchLimit([bound]) && Unclamped(token) && Unclamped(bound) ==> out == SeenOrder(token, bound)
  {
    hide NumberMatch.Valid, IsJsonNumber, Unclamped, SeenOrder, Order, MatchLimit;
    var num := new NumberMatch([bound], MATCH_BYTES);
    for i := 0 to |token|
      invariant num.Valid() && num.fed == token[..i] && fresh(num) && fresh(num.buffer)
    {
      num.Byte(token[i]);
      assert token[..i + 1] == token[..i] + [token[i]];
    }
    assert token[..|token|] == token;
    var ok;
    ok, out := num.CompareCurrent(0);
  }

  /** A token that gets there: the comparator answers that it equals a bound that it is ten times of. */
  method LongTokenMisjudged() returns (out: int)
    ensures out == 0
    ensures var token, bound := Token("10", "e", LargestExponent(MATCH_BYTES)), Token("1", "e", LargestExponent(19));
            IsJsonNumber(token) && IsJsonNumber(bound) && Order(token, bound) == 1
  {
    hide NatOf, IsJsonNumber, Unclamped, SeenOrder, Order, LargestExponent;
    var e, f := LargestExponent(MATCH_BYTES), LargestExponent(19);
    LargestExponentValue(MATCH_BYTES);
    LargestExponentValue(19);
    LongExponentsMislead(e, f);
    TenAndOne("e", e, f);
    ShortBound(Token("1", "e", f));
    out := CompareToken(Token("10", "e", e), Token("1", "e", f));
  }

  lemma ShortBound(bound: string)
    requires |bound| < 100
    ensures MatchLimit([bound]) == MATCH_BYTES
  {
    assert [bound][..|[bound]| - 1] == [] && LongestOf([]) == 0;
    assert LongestOf([bound]) == |bound|;
  }
}
