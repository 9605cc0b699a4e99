/** src/lql_unicode_lower.c: UTF-8 (section 4 of RFC 3629) and simple lowercasing by a sorted range table.
    A byte is a character below 256. */
module Utf8 {
  import opened Wrappers

  predicate IsScalar(v: int) { 0 <= v <= 0x10ffff && !(0xd800 <= v <= 0xdfff) }

  predicate IsTail(c: char) { 0x80 <= c as int <= 0xbf }

  /** The byte sequences UTF8-1 to UTF8-4 of section 4 of RFC 3629. */
  predicate IsUnit(s: string) {
    || (|s| == 1 && s[0] as int <= 0x7f)
    || (|s| == 2 && 0xc2 <= s[0] as int <= 0xdf && IsTail(s[1]))
    || (|s| == 3 && IsTail(s[2]) && IsThree(s[0] as int, s[1] as int))
    || (|s| == 4 && IsTail(s[2]) && IsTail(s[3]) && IsFour(s[0] as int, s[1] as int))
  }

  predicate IsThree(a: int, b: int) {
    || (a == 0xe0 && 0xa0 <= b <= 0xbf)
    || (0xe1 <= a <= 0xec && 0x80 <= b <= 0xbf)
    || (a == 0xed && 0x80 <= b <= 0x9f)
    || (0xee <= a <= 0xef && 0x80 <= b <= 0xbf)
  }

  predicate IsFour(a: int, b: int) {
    || (a == 0xf0 && 0x90 <= b <= 0xbf)
    || (0xf1 <= a <= 0xf3 && 0x80 <= b <= 0xbf)
    || (a == 0xf4 && 0x80 <= b <= 0x8f)
  }

  /** The bits of the first byte and of its continuations, put together. */
  function UnitValue(s: string): (v: int)
    requires IsUnit(s)
  {
    if |s| == 1 then s[0] as int
    else if |s| == 2 then (s[0] as int - 0xc0) * 64 + (s[1] as int - 0x80)
    else if |s| == 3 then ((s[0] as int - 0xe0) * 64 + (s[1] as int - 0x80)) * 64 + (s[2] as int - 0x80)
    else (((s[0] as int - 0xf0) * 64 + (s[1] as int - 0x80)) * 64 + (s[2] as int - 0x80)) * 64 + (s[3] as int - 0x80)
  }

  /** src/lql_unicode_lower.c:257-283. */
  function Encode(v: int): (s: string)
    requires IsScalar(v)
    ensures 1 <= |s| <= 4 && forall i :: 0 <= i < |s| ==> s[i] as int < 256
  {
    if v < 0x80 then [v as char]
    else if v < 0x800 then [(0xc0 + v / 64) as char, (0x80 + v % 64) as char]
    else if v < 0x10000 then [(0xe0 + v / 4096) as char, (0x80 + v / 64 % 64) as char, (0x80 + v % 64) as char]
    else [(0xf0 + v / 262144) as char, (0x80 + v / 4096 % 64) as char, (0x80 + v / 64 % 64) as char, (0x80 + v % 64) as char]
  }

  lemma DecodeOfEncode(v: int)
    requires IsScalar(v)
    ensures IsUnit(Encode(v)) && UnitValue(Encode(v)) == v
  {
    if v < 0x80 {
    } else if v < 0x800 {
    } else if v < 0x10000 {
      Split64(v);
      ThreeBytes(v / 4096, v / 64 % 64, v % 64, Encode(v));
    } else {
      Split64(v);
      Split64(v / 64);
      FourBytes(v / 262144, v / 4096 % 64, v / 64 % 64, v % 64, Encode(v));
    }
  }

  lemma EncodeOfDecode(s: string)
    requires IsUnit(s)
    ensures IsScalar(UnitValue(s)) && Encode(UnitValue(s)) == s
  {
    if |s| == 3 {
      ThreeBack(s[0] as int - 0xe0, s[1] as int - 0x80, s[2] as int - 0x80, s);
    } else if |s| == 4 {
      FourBack(s[0] as int - 0xf0, s[1] as int - 0x80, s[2] as int - 0x80, s[3] as int - 0x80, s);
    }
  }

  lemma Split64(v: int)
    requires 0 <= v
    ensures v == (v / 4096 * 64 + v / 64 % 64) * 64 + v % 64
    ensures v / 64 / 4096 == v / 262144 && v / 64 / 64 == v / 4096 && v / 64 == v / 4096 * 64 + v / 64 % 64
  {
    NestedDivision(v, 64, 64);
    NestedDivision(v, 64, 4096);
    var q := v / 64;
    assert v == q * 64 + v % 64;
    assert q == q / 64 * 64 + q % 64;
  }

  lemma NestedDivision(v: int, a: int, b: int)
    requires 0 <= v && a == 64 && (b == 64 || b == 4096)
    ensures v / a / b == v / (a * b)
  {
  }

  lemma ThreeBytes(a: int, b: int, c: int, s: string)
    requires 0 <= a < 16 && 0 <= b < 64 && 0 <= c < 64
    requires s == [(0xe0 + a) as char, (0x80 + b) as char, (0x80 + c) as char]
    requires 0x800 <= (a * 64 + b) * 64 + c && IsScalar((a * 64 + b) * 64 + c)
    ensures IsUnit(s) && UnitValue(s) == (a * 64 + b) * 64 + c
  {
  }

  lemma FourBytes(a: int, b: int, c: int, d: int, s: string)
    requires 0 <= a < 5 && 0 <= b < 64 && 0 <= c < 64 && 0 <= d < 64
    requires s == [(0xf0 + a) as char, (0x80 + b) as char, (0x80 + c) as char, (0x80 + d) as char]
    requires 0x10000 <= ((a * 64 + b) * 64 + c) * 64 + d && IsScalar(((a * 64 + b) * 64 + c) * 64 + d)
    ensures IsUnit(s) && UnitValue(s) == ((a * 64 + b) * 64 + c) * 64 + d
  {
  }

  lemma ThreeBack(a: int, b: int, c: int, s: string)
    requires IsUnit(s) && |s| == 3
    requires a == s[0] as int - 0xe0 && b == s[1] as int - 0x80 && c == s[2] as int - 0x80
    ensures IsScalar(UnitValue(s)) && Encode(UnitValue(s)) == s
  {
    Digits64(a, b, c);
    assert UnitValue(s) == (a * 64 + b) * 64 + c >= 0x800;
  }

  lemma FourBack(a: int, b: int, c: int, d: int, s: string)
    requires IsUnit(s) && |s| == 4
    requires a == s[0] as int - 0xf0 && b == s[1] as int - 0x80 && c == s[2] as int - 0x80 && d == s[3] as int - 0x80
    ensures IsScalar(UnitValue(s)) && Encode(UnitValue(s)) == s
  {
    var v := ((a * 64 + b) * 64 + c) * 64 + d;
    Digits64(a * 64 + b, c, d);
    Digits64(a, b, c);
    assert v / 262144 == a && v / 4096 % 64 == b;
    assert UnitValue(s) == v && 0x10000 <= v <= 0x10ffff;
  }

  lemma Digits64(a: int, b: int, c: int)
    requires 0 <= a && 0 <= b < 64 && 0 <= c < 64
    ensures var v := (a * 64 + b) * 64 + c;
      v % 64 == c && v / 64 == a * 64 + b && v / 64 % 64 == b && v / 4096 == a
  {
  }

  // ---------------------------------------------------------------- decoding

  /** How many bytes a sequence with this first byte has; 0 when none starts with it. */
  function Width(first: char): nat {
    var b := first as int;
    if b < 0x80 then 1
    else if 0xc2 <= b <= 0xdf then 2
    else if 0xe0 <= b <= 0xef then 3
    else if 0xf0 <= b <= 0xf4 then 4
    else 0
  }

  /** The sequence at the offset, if it is well-formed. */
  function UnitAt(input: string, offset: nat): (r: Option<string>)
    requires offset <= |input|
    ensures r.Some? ==> IsUnit(r.value) && |r.value| > 0
    ensures r.Some? ==> offset + |r.value| <= |input| && input[offset..offset + |r.value|] == r.value
  {
    if offset == |input| then None else
    var width := Width(input[offset]);
    if width == 0 || offset + width > |input| || !IsUnit(input[offset..offset + width]) then None
    else Some(input[offset..offset + width])
  }

  lemma UnitWidth(s: string)
    requires IsUnit(s)
    ensures Width(s[0]) == |s|
  {
  }

  /** src/lql_unicode_lower.c:203-247: succeeds exactly on a well-formed sequence. */
  method Decode(input: string, offset: nat) returns (ok: bool, value: int, next: nat)
    requires offset <= |input|
    ensures ok <==> UnitAt(input, offset).Some?
    ensures ok ==> value == UnitValue(UnitAt(input, offset).value) && next == offset + |UnitAt(input, offset).value|
  {
    ok, value, next := false, 0, offset;
    if offset == |input| {
      return;
    }
    var first := input[offset] as int;
    if first < 0x80 {
      return true, first, offset + 1;
    }
    var width;
    if 0xc2 <= first <= 0xdf {
      width, value := 2, first % 32;
    } else if 0xe0 <= first <= 0xef {
      width, value := 3, first % 16;
    } else if 0xf0 <= first <= 0xf4 {
      width, value := 4, first % 8;
    } else {
      return;
    }
    if width > |input| - offset {
      return;
    }
    var k := 1;
    while k < width
      invariant 1 <= k <= width
      invariant forall i :: offset < i < offset + k ==> IsTail(input[i])
      invariant value == Accumulated(input[offset..offset + width], k)
      invariant next == offset + k - 1
    {
      next := next + 1;
      if !IsTail(input[next]) {
        NotAUnit(input, offset, width, k);
        return;
      }
      value := value * 64 + input[next] as int % 64;
      k := k + 1;
    }
    next := next + 1;
    var unit := input[offset..offset + width];
    AccumulatedIsValue(unit);
    ok := PassesRanges(first, value);
  }

  /** The value after the first k bytes. */
  function Accumulated(s: string, k: nat): int
    requires 1 <= k <= |s|
  {
    if k == 1 then (if |s| == 2 then s[0] as int % 32 else if |s| == 3 then s[0] as int % 16 else s[0] as int % 8)
    else Accumulated(s, k - 1) * 64 + s[k - 1] as int % 64
  }

  lemma NotAUnit(input: string, offset: nat, width: nat, k: nat)
    requires offset < |input| && width == Width(input[offset]) && 1 <= k < width && offset + width <= |input|
    requires !IsTail(input[offset + k])
    ensures UnitAt(input, offset).None?
  {
    assert input[offset..offset + width][k] == input[offset + k];
  }

  /** The C range checks after the continuation bytes. */
  predicate PassesRanges(first: int, v: int) {
    !(0xd800 <= v <= 0xdfff || v > 0x10ffff || (first == 0xe0 && v < 0x800) || (first == 0xf0 && v < 0x10000))
  }

  /** All continuation bytes present: the C range checks are the well-formedness rules. */
  lemma AccumulatedIsValue(s: string)
    requires 2 <= |s| <= 4 && Width(s[0]) == |s|
    requires forall i :: 1 <= i < |s| ==> IsTail(s[i])
    ensures IsUnit(s) <==> PassesRanges(s[0] as int, Accumulated(s, |s|))
    ensures IsUnit(s) ==> Accumulated(s, |s|) == UnitValue(s)
  {
    assert Accumulated(s, 2) == Accumulated(s, 1) * 64 + s[1] as int % 64;
    if |s| == 2 {
      AccumulatedTwo(s);
    } else if |s| == 3 {
      assert Accumulated(s, 3) == Accumulated(s, 2) * 64 + s[2] as int % 64;
      AccumulatedThree(s, s[0] as int, s[1] as int, s[2] as int);
    } else {
      assert Accumulated(s, 3) == Accumulated(s, 2) * 64 + s[2] as int % 64;
      assert Accumulated(s, 4) == Accumulated(s, 3) * 64 + s[3] as int % 64;
      AccumulatedFour(s, s[0] as int, s[1] as int, s[2] as int, s[3] as int);
    }
  }

  lemma AccumulatedTwo(s: string)
    requires |s| == 2 && Width(s[0]) == 2 && IsTail(s[1])
    ensures IsUnit(s) && UnitValue(s) == s[0] as int % 32 * 64 + s[1] as int % 64 < 0x800
  {
  }

  lemma AccumulatedThree(s: string, a: int, b: int, c: int)
    requires |s| == 3 && s[0] as int == a && s[1] as int == b && s[2] as int == c
    requires 0xe0 <= a <= 0xef && IsTail(s[1]) && IsTail(s[2])
    ensures IsUnit(s) <==> PassesRanges(a, (a % 16 * 64 + b % 64) * 64 + c % 64)
    ensures IsUnit(s) ==> UnitValue(s) == (a % 16 * 64 + b % 64) * 64 + c % 64
  {
    assert a % 16 == a - 0xe0 && b % 64 == b - 0x80 && c % 64 == c - 0x80;
    assert IsUnit(s) <==> IsThree(a, b);
  }

  lemma AccumulatedFour(s: string, a: int, b: int, c: int, d: int)
    requires |s| == 4 && s[0] as int == a && s[1] as int == b && s[2] as int == c && s[3] as int == d
    requires 0xf0 <= a <= 0xf4 && IsTail(s[1]) && IsTail(s[2]) && IsTail(s[3])
    ensures IsUnit(s) <==> PassesRanges(a, ((a % 8 * 64 + b % 64) * 64 + c % 64) * 64 + d % 64)
    ensures IsUnit(s) ==> UnitValue(s) == ((a % 8 * 64 + b % 64) * 64 + c % 64) * 64 + d % 64
  {
    assert a % 8 == a - 0xf0 && b % 64 == b - 0x80 && c % 64 == c - 0x80 && d % 64 == d - 0x80;
    assert IsUnit(s) <==> IsFour(a, b);
  }
}
