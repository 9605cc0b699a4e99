/** Decimal digit strings: their natural value, their value as a fraction, and powers of ten. */
module Digits {

  predicate IsDigit(c: char) { '0' <= c <= '9' }

  /** The value of a digit; zero for any other character. */
  function DigitValue(c: char): (d: int)
    ensures 0 <= d <= 9
  {
    if IsDigit(c) then c as int - '0' as int else 0
  }

  function DigitChar(d: int): (c: char)
    requires 0 <= d <= 9
    ensures IsDigit(c) && DigitValue(c) == d
  {
    ('0' as int + d) as char
  }

  predicate AllDigits(s: string) { forall i :: 0 <= i < |s| ==> IsDigit(s[i]) }

  function Pow10(n: nat): (p: nat)
    ensures p >= 1
  {
    if n == 0 then 1 else 10 * Pow10(n - 1)
  }

  /** The number a digit string writes, most significant digit first. */
  ghost function NatOf(s: string): nat {
    if |s| == 0 then 0 else 10 * NatOf(s[..|s| - 1]) + DigitValue(s[|s| - 1])
  }

  lemma NatOfSnoc(digits: string, c: char)
    ensures NatOf(digits + [c]) == 10 * NatOf(digits) + DigitValue(c)
  {
    assert (digits + [c])[..|digits|] == digits;
  }

  lemma {:induction false} NatOfConcat(a: string, b: string)
    ensures NatOf(a + b) == NatOf(a) * Pow10(|b|) + NatOf(b)
  {
    if |b| == 0 {
      assert a + b == a;
    } else {
      var b' := b[..|b| - 1];
      NatOfConcat(a, b');
      assert (a + b)[..|a + b| - 1] == a + b';
      Distribute(NatOf(a), Pow10(|b'|), NatOf(b'), DigitValue(b[|b| - 1]));
    }
  }

  lemma Distribute(x: int, p: int, y: int, d: int)
    ensures 10 * (x * p + y) + d == x * (10 * p) + (10 * y + d)
  {
  }

  lemma OneDigit(c: char)
    ensures NatOf([c]) == DigitValue(c)
  {
    assert [c][..0] == [];
  }

  lemma NatOfCons(s: string)
    requires |s| > 0
    ensures NatOf(s) == DigitValue(s[0]) * Pow10(|s| - 1) + NatOf(s[1..])
  {
    hide NatOf;
    assert s == [s[0]] + s[1..];
    NatOfConcat([s[0]], s[1..]);
    OneDigit(s[0]);
  }

  lemma {:induction false} NatOfBound(s: string)
    ensures NatOf(s) < Pow10(|s|)
  {
    if |s| > 0 {
      NatOfBound(s[..|s| - 1]);
    }
  }

  lemma NatOfLowerBound(s: string)
    requires |s| > 0 && IsDigit(s[0]) && s[0] != '0'
    ensures NatOf(s) >= Pow10(|s| - 1)
  {
    NatOfCons(s);
    assert DigitValue(s[0]) >= 1;
    MulAtLeast(DigitValue(s[0]), Pow10(|s| - 1));
  }

  lemma MulAtLeast(d: nat, p: nat)
    requires d >= 1
    ensures d * p >= p
  {
  }

  lemma {:induction false} Pow10Monotone(m: nat, n: nat)
    requires m <= n
    ensures Pow10(m) <= Pow10(n)
    decreases n - m
  {
    if m < n {
      Pow10Monotone(m, n - 1);
    }
  }

  lemma {:induction false} NatOfZeroes(s: string)
    requires forall i :: 0 <= i < |s| ==> s[i] == '0'
    ensures NatOf(s) == 0
  {
    if |s| > 0 {
      NatOfZeroes(s[..|s| - 1]);
    }
  }

  // ---------------------------------------------------------------- a number of a given width

  /** sprintf's zero-padded decimal. */
  function ZeroPadded(n: nat, width: nat): (r: string)
    ensures |r| == width && AllDigits(r)
    decreases width
  {
    if width == 0 then "" else ZeroPadded(n / 10, width - 1) + [DigitChar(n % 10)]
  }

  lemma {:induction false} ZeroPaddedValue(n: nat, width: nat)
    requires n < Pow10(width)
    ensures NatOf(ZeroPadded(n, width)) == n
    decreases width
  {
    hide NatOf;
    if width == 0 {
      NatOfNothing();
    } else {
      ZeroPaddedValue(n / 10, width - 1);
      NatOfSnoc(ZeroPadded(n / 10, width - 1), DigitChar(n % 10));
    }
  }

  lemma NatOfNothing()
    ensures NatOf("") == 0
  {
  }

  // ---------------------------------------------------------------- scaling over the reals

  function Sign(x: real): int { if x < 0.0 then -1 else if x > 0.0 then 1 else 0 }

  function IntSign(x: int): int { if x < 0 then -1 else if x > 0 then 1 else 0 }

  /** 10^e for an exponent of either sign. */
  ghost function TenPow(e: int): (r: real)
    ensures r > 0.0
    decreases if e < 0 then -e else e
  {
    if e == 0 then 1.0 else if e > 0 then 10.0 * TenPow(e - 1) else TenPow(e + 1) / 10.0
  }

  lemma TenPowStep(e: int)
    ensures TenPow(e + 1) == 10.0 * TenPow(e)
  {
  }

  lemma {:induction false} TenPowMonotone(a: int, b: int)
    requires a <= b
    ensures TenPow(a) <= TenPow(b)
    decreases b - a
  {
    if a < b {
      TenPowMonotone(a, b - 1);
      TenPowStep(b - 1);
    }
  }

  /** n copies of u added up; equal to the product, and linear for the verifier. */
  ghost function Times(n: nat, u: real): real { if n == 0 then 0.0 else Times(n - 1, u) + u }

  lemma {:induction false} TimesIsProduct(n: nat, u: real)
    ensures Times(n, u) == n as real * u
  {
    if n > 0 {
      TimesIsProduct(n - 1, u);
      OneMore((n - 1) as real, u);
    }
  }

  lemma OneMore(x: real, u: real)
    ensures (x + 1.0) * u == x * u + u
  {
  }

  lemma TimesTen(n: nat, u: real)
    ensures Times(10 * n, u) == Times(n, 10.0 * u)
  {
    TimesIsProduct(10 * n, u);
    TimesIsProduct(n, 10.0 * u);
  }

  lemma {:induction false} TimesMonotone(m: nat, n: nat, u: real)
    requires m <= n && u > 0.0
    ensures Times(m, u) <= Times(n, u)
    ensures m < n ==> Times(m, u) < Times(n, u)
    decreases n - m
  {
    if m < n {
      TimesMonotone(m, n - 1, u);
    }
  }

  // ---------------------------------------------------------------- comparing scaled digit strings

  /** Digit k of a string that is followed by infinitely many zeros. */
  function PaddedAt(s: string, k: nat): char { if k < |s| then s[k] else '0' }

  function Padded(s: string, n: nat): (r: string)
    requires |s| <= n
    ensures |r| == n && forall k :: 0 <= k < n ==> r[k] == PaddedAt(s, k)
    decreases n - |s|
  {
    if |s| == n then s else Padded(s + "0", n)
  }

  /** A digit string as the significand "0.d1d2d3..." scaled by 10^point. */
  ghost function Scaled(s: string, point: int): real {
    Times(NatOf(s), TenPow(point - |s|))
  }

  lemma {:induction false} PaddingKeepsScaled(s: string, n: nat, point: int)
    requires |s| <= n
    ensures Scaled(Padded(s, n), point) == Scaled(s, point)
    decreases n - |s|
  {
    if |s| < n {
      assert (s + "0")[..|s|] == s;
      TenPowStep(point - |s| - 1);
      TimesTen(NatOf(s), TenPow(point - |s| - 1));
      PaddingKeepsScaled(s + "0", n, point);
    }
  }

  lemma {:induction false} FirstDifferenceDecides(x: string, y: string, k: nat)
    requires AllDigits(x) && AllDigits(y) && |x| == |y| && k < |x|
    requires x[..k] == y[..k] && x[k] < y[k]
    ensures NatOf(x) < NatOf(y)
  {
    var tail := |x| - k - 1;
    assert x == x[..k] + x[k..] && y == y[..k] + y[k..];
    NatOfConcat(x[..k], x[k..]);
    NatOfConcat(y[..k], y[k..]);
    NatOfCons(x[k..]);
    NatOfCons(y[k..]);
    assert x[k..][1..] == x[k + 1..] && y[k..][1..] == y[k + 1..];
    NatOfBound(x[k + 1..]);
    Dominates(DigitValue(x[k]), DigitValue(y[k]), Pow10(tail));
  }

  lemma Dominates(a: int, b: int, p: nat)
    requires a < b
    ensures a * p + p <= b * p
  {
    MulAtLeast(b - a, p);
    assert b * p == (b - a) * p + a * p;
  }

  lemma {:induction false} ScaledUpperBound(s: string, point: int)
    ensures Times(NatOf(s) + 1, TenPow(point - |s|)) <= TenPow(point)
  {
    if |s| == 0 {
      assert Times(1, TenPow(point)) == Times(0, TenPow(point)) + TenPow(point);
    } else {
      var s' := s[..|s| - 1];
      ScaledUpperBound(s', point);
      TenPowStep(point - |s|);
      TimesTen(NatOf(s') + 1, TenPow(point - |s|));
      TimesMonotone(NatOf(s) + 1, 10 * (NatOf(s') + 1), TenPow(point - |s|));
    }
  }

  lemma {:induction false} ScaledLowerBound(s: string, point: int)
    requires |s| > 0 && IsDigit(s[0]) && s[0] != '0'
    ensures Scaled(s, point) >= TenPow(point - 1)
  {
    var s' := s[..|s| - 1];
    var t := TenPow(point - |s|);
    if |s'| == 0 {
      assert NatOf(s) == DigitValue(s[0]) >= 1;
      assert Times(1, t) == Times(0, t) + t;
      TimesMonotone(1, NatOf(s), t);
    } else {
      ScaledLowerBound(s', point);
      TenPowStep(point - |s|);
      TimesTen(NatOf(s'), t);
      TimesMonotone(10 * NatOf(s'), NatOf(s), t);
    }
  }

  /** Significands without a leading zero: the one with the smaller point is the smaller number. */
  lemma SmallerPointIsSmaller(x: string, px: int, y: string, py: int)
    requires AllDigits(y) && |y| > 0 && y[0] != '0' && px < py
    ensures Scaled(x, px) < Scaled(y, py)
  {
    ScaledUpperBound(x, px);
    TimesMonotone(NatOf(x), NatOf(x) + 1, TenPow(px - |x|));
    TenPowMonotone(px, py - 1);
    ScaledLowerBound(y, py);
  }

  /** Equal points: the first position where the zero-padded digits differ decides. */
  lemma FirstPaddedDifferenceDecides(x: string, y: string, point: int, k: nat)
    requires AllDigits(x) && AllDigits(y)
    requires forall j :: 0 <= j < k ==> PaddedAt(x, j) == PaddedAt(y, j)
    requires PaddedAt(x, k) < PaddedAt(y, k)
    ensures Scaled(x, point) < Scaled(y, point)
  {
    var n := if |x| > |y| then |x| else |y|;
    var n' := if n > k then n else k + 1;
    var x', y' := Padded(x, n'), Padded(y, n');
    PaddingKeepsScaled(x, n', point);
    PaddingKeepsScaled(y, n', point);
    assert AllDigits(x') && AllDigits(y');
    FirstDifferenceDecides(x', y', k);
    TimesMonotone(NatOf(x'), NatOf(y'), TenPow(point - n'));
  }

  lemma SamePaddedDigits(x: string, y: string, point: int)
    requires forall j :: 0 <= j < |x| || 0 <= j < |y| ==> PaddedAt(x, j) == PaddedAt(y, j)
    ensures Scaled(x, point) == Scaled(y, point)
  {
    var n := if |x| > |y| then |x| else |y|;
    PaddingKeepsScaled(x, n, point);
    PaddingKeepsScaled(y, n, point);
    assert Padded(x, n) == Padded(y, n);
  }

  lemma DropLeadingZero(s: string, point: int)
    requires |s| > 0 && s[0] == '0'
    ensures Scaled(s[1..], point - 1) == Scaled(s, point)
  {
    NatOfCons(s);
  }

  lemma {:induction false} DropLeadingZeroes(s: string, k: nat, point: int)
    requires k <= |s| && forall i :: 0 <= i < k ==> s[i] == '0'
    ensures Scaled(s[k..], point - k) == Scaled(s, point)
    decreases k
  {
    if k > 0 {
      DropLeadingZeroes(s, k - 1, point);
      DropLeadingZero(s[k - 1..], point - (k - 1));
      assert s[k - 1..][1..] == s[k..];
    }
  }

  lemma {:induction false} DropTrailingZeroes(s: string, n: nat, point: int)
    requires n <= |s| && forall i :: n <= i < |s| ==> s[i] == '0'
    ensures Scaled(s[..n], point) == Scaled(s, point)
  {
    PaddingKeepsScaled(s[..n], |s|, point);
    assert Padded(s[..n], |s|) == s;
  }
}
