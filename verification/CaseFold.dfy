/** Simple lowercasing of UTF-8 text, as a whole (src/lql_unicode_lower.c) and byte by byte
    (src/lql_json_scan.c:2230-2258). */
module CaseFold {
  import opened Wrappers
  import opened Utf8

  const UPPER_LOWER := 1114112

  /** src/lql_unicode_lower.c:7-11. */
  datatype CaseRange = CaseRange(first: int, last: int, delta: int)

  ghost predicate Sorted(ranges: seq<CaseRange>) {
    && (forall i :: 0 <= i < |ranges| ==> ranges[i].first <= ranges[i].last)
    && (forall i, j :: 0 <= i < j < |ranges| ==> ranges[i].last < ranges[j].first)
  }

  /** A table that is sorted and maps no ASCII character outside A to Z to another one. */
  ghost predicate WellFormedTable(ranges: seq<CaseRange>) {
    && Sorted(ranges)
    && forall i, v :: 0 <= i < |ranges| && ranges[i].first <= v <= ranges[i].last && 0 <= v < 0x80 && !IsUpperAscii(v)
                      ==> LowerIn(ranges[i], v) == v
  }

  predicate IsUpperAscii(v: int) { 'A' as int <= v <= 'Z' as int }

  /** x | 1 on a non-negative x. */
  function OrOne(x: int): int { if x % 2 == 0 then x + 1 else x }

  function LowerIn(range: CaseRange, v: int): int {
    if range.delta == UPPER_LOWER then range.first + OrOne(v - range.first) else v + range.delta
  }

  ghost predicate Covers(ranges: seq<CaseRange>, i: int, v: int) {
    0 <= i < |ranges| && ranges[i].first <= v <= ranges[i].last
  }

  /** The lowercase of a code point by looking at every range. */
  ghost function Lower(ranges: seq<CaseRange>, v: int): int {
    if IsUpperAscii(v) then v + 32
    else if exists i :: Covers(ranges, i, v) then
      var i :| Covers(ranges, i, v); LowerIn(ranges[i], v)
    else v
  }

  lemma OnlyOneCovers(ranges: seq<CaseRange>, i: nat, j: nat, v: int)
    requires Sorted(ranges) && Covers(ranges, i, v) && Covers(ranges, j, v)
    ensures i == j
  {
  }

  lemma LowerIs(ranges: seq<CaseRange>, i: int, v: int)
    requires Sorted(ranges) && Covers(ranges, i, v) && !IsUpperAscii(v)
    ensures Lower(ranges, v) == LowerIn(ranges[i], v)
  {
    assert forall j :: Covers(ranges, j, v) ==> j == i by {
      forall j | Covers(ranges, j, v) ensures j == i {
        OnlyOneCovers(ranges, i, j, v);
      }
    }
  }

  /** src/lql_unicode_lower.c:181-201: the same by binary search. */
  method SimpleLower(ranges: seq<CaseRange>, v: int) returns (lower: int)
    requires Sorted(ranges)
    ensures lower == Lower(ranges, v)
  {
    if IsUpperAscii(v) {
      return v + 32;
    }
    var first, last := 0, |ranges|;
    while first < last
      invariant 0 <= first <= last <= |ranges|
      invariant forall i :: 0 <= i < first ==> ranges[i].last < v
      invariant forall i :: last <= i < |ranges| ==> v < ranges[i].first
    {
      var middle := first + (last - first) / 2;
      var range := ranges[middle];
      if v < range.first {
        last := middle;
      } else if v > range.last {
        first := middle + 1;
      } else {
        LowerIs(ranges, middle, v);
        if range.delta == UPPER_LOWER {
          return range.first + OrOne(v - range.first);
        }
        return v + range.delta;
      }
    }
    lower := v;
  }

  // ---------------------------------------------------------------- what the table says

  const UPPER_LETTERS := "ABCDEFGHIJKLMNOPQRSTUVWXYZ"
  const LOWER_LETTERS := "abcdefghijklmnopqrstuvwxyz"

  /** Every capital letter becomes its small letter, whatever the table holds. */
  lemma LettersLower(ranges: seq<CaseRange>, k: nat)
    requires k < 26
    ensures Lower(ranges, UPPER_LETTERS[k] as int) == LOWER_LETTERS[k] as int
  {
    assert UPPER_LETTERS[k] == ('A' as int + k) as char && LOWER_LETTERS[k] == ('a' as int + k) as char;
  }

  /** An alternating range holds pairs: the first of a pair becomes the second, the second stays. */
  lemma PairsLower(ranges: seq<CaseRange>, i: int, v: int)
    requires Sorted(ranges) && Covers(ranges, i, v) && !IsUpperAscii(v) && ranges[i].delta == UPPER_LOWER
    ensures (v - ranges[i].first) % 2 == 0 ==> Lower(ranges, v) == v + 1
    ensures (v - ranges[i].first) % 2 == 1 ==> Lower(ranges, v) == v
  {
    LowerIs(ranges, i, v);
  }

  /** A range of whole pairs is lowercased by lowercasing it once. */
  lemma PairsLowerOnce(ranges: seq<CaseRange>, i: int, v: int)
    requires Sorted(ranges) && Covers(ranges, i, v) && ranges[i].delta == UPPER_LOWER
    requires ranges[i].first >= 0x80 && (ranges[i].last - ranges[i].first) % 2 == 1
    ensures Covers(ranges, i, Lower(ranges, v)) && Lower(ranges, Lower(ranges, v)) == Lower(ranges, v)
  {
    hide Lower;
    PairsLower(ranges, i, v);
    if (v - ranges[i].first) % 2 == 0 {
      assert v != ranges[i].last;
      assert Covers(ranges, i, v + 1);
      PairsLower(ranges, i, v + 1);
    }
  }

  /** Any other range moves by its distance. */
  lemma RangeLowers(ranges: seq<CaseRange>, i: int, v: int)
    requires Sorted(ranges) && Covers(ranges, i, v) && !IsUpperAscii(v) && ranges[i].delta != UPPER_LOWER
    ensures Lower(ranges, v) - v == ranges[i].delta
  {
    LowerIs(ranges, i, v);
  }

  /** Nothing else changes. */
  lemma OthersStay(ranges: seq<CaseRange>, v: int)
    requires !IsUpperAscii(v) && forall i :: 0 <= i < |ranges| ==> !(ranges[i].first <= v <= ranges[i].last)
    ensures Lower(ranges, v) == v
  {
  }

  // ---------------------------------------------------------------- a whole string

  /** One well-formed sequence in lowercase, None when the lowercase is no scalar value. */
  ghost function LowerUnit(ranges: seq<CaseRange>, unit: string): (r: Option<string>)
    requires IsUnit(unit)
  {
    var v := Lower(ranges, UnitValue(unit));
    if IsScalar(v) then Some(Encode(v)) else None
  }

  ghost function LowerText(ranges: seq<CaseRange>, input: string): Option<string>
    decreases |input|
  {
    if |input| == 0 then Some("") else
    var unit := UnitAt(input, 0);
    if unit.None? || LowerUnit(ranges, unit.value).None? then None else
    var rest := LowerText(ranges, input[|unit.value|..]);
    if rest.None? then None else Some(LowerUnit(ranges, unit.value).value + rest.value)
  }

  /** src/lql_unicode_lower.c:299-325: fails on malformed text or when the output does not fit. */
  method Utf8Lower(ranges: seq<CaseRange>, input: string, capacity: nat) returns (ok: bool, output: string)
    requires Sorted(ranges)
    ensures ok <==> LowerText(ranges, input).Some? && |LowerText(ranges, input).value| <= capacity
    ensures ok ==> output == LowerText(ranges, input).value
  {
    hide LowerText, LowerUnit, Remaining, IsUnit, UnitAt, Encode;
    var offset := 0;
    output := "";
    RemainingStart(ranges, input);
    while offset < |input|
      invariant 0 <= offset <= |input| && |output| <= capacity
      invariant Remaining(ranges, input, offset, output)
    {
      RemainingStep(ranges, input, offset, output);
      var found, value, next := Decode(input, offset);
      if !found {
        return false, output;
      }
      var lower := SimpleLower(ranges, value);
      LowerUnitIs(ranges, UnitAt(input, offset).value, lower);
      if !IsScalar(lower) || |Encode(lower)| > capacity - |output| {
        return false, output;
      }
      output := output + Encode(lower);
      offset := next;
    }
    RemainingEnd(ranges, input, offset, output);
    ok := true;
  }

  /** What is written, and the lowercase of what is left, make up the whole. */
  ghost predicate Remaining(ranges: seq<CaseRange>, input: string, offset: nat, output: string)
    requires offset <= |input|
  {
    var rest := LowerText(ranges, input[offset..]);
    LowerText(ranges, input) == if rest.None? then None else Some(output + rest.value)
  }

  lemma RemainingStart(ranges: seq<CaseRange>, input: string)
    ensures Remaining(ranges, input, 0, "")
  {
    assert input[0..] == input;
    if LowerText(ranges, input).Some? {
      assert "" + LowerText(ranges, input).value == LowerText(ranges, input).value;
    }
  }

  lemma RemainingStep(ranges: seq<CaseRange>, input: string, offset: nat, output: string)
    requires offset < |input| && Remaining(ranges, input, offset, output)
    ensures UnitAt(input, offset).Some? ==>
      var unit := UnitAt(input, offset).value;
      && (LowerUnit(ranges, unit).None? ==> LowerText(ranges, input).None?)
      && (LowerUnit(ranges, unit).Some? ==>
            && Remaining(ranges, input, offset + |unit|, output + LowerUnit(ranges, unit).value)
            && (LowerText(ranges, input).Some? ==> |LowerText(ranges, input).value| >= |output| + |LowerUnit(ranges, unit).value|))
    ensures UnitAt(input, offset).None? ==> LowerText(ranges, input).None?
  {
    hide LowerUnit, IsUnit, UnitAt;
    UnitAtDrop(input, offset);
    if UnitAt(input, offset).Some? {
      var next := offset + |UnitAt(input, offset).value|;
      assert input[offset..][next - offset..] == input[next..];
      var unit := LowerUnit(ranges, UnitAt(input, offset).value);
      if unit.Some? && LowerText(ranges, input[next..]).Some? {
        assert output + (unit.value + LowerText(ranges, input[next..]).value) == output + unit.value + LowerText(ranges, input[next..]).value;
      }
    }
  }

  lemma RemainingEnd(ranges: seq<CaseRange>, input: string, offset: nat, output: string)
    requires offset == |input| && Remaining(ranges, input, offset, output)
    ensures LowerText(ranges, input) == Some(output)
  {
    assert input[offset..] == "";
    assert output + "" == output;
  }

  lemma LowerUnitIs(ranges: seq<CaseRange>, unit: string, lower: int)
    requires IsUnit(unit) && lower == Lower(ranges, UnitValue(unit))
    ensures LowerUnit(ranges, unit) == if IsScalar(lower) then Some(Encode(lower)) else None
  {
  }

  lemma UnitAtDrop(input: string, offset: nat)
    requires offset <= |input|
    ensures UnitAt(input[offset..], 0) == UnitAt(input, offset)
  {
    if offset < |input| {
      var width := Width(input[offset]);
      if offset + width <= |input| {
        assert input[offset..][0..width] == input[offset..offset + width];
      }
    }
  }

  // ---------------------------------------------------------------- byte by byte

  /** The lowercase of the complete sequences so far, and the bytes of the one that is not complete. */
  datatype Folding = Folding(lowered: string, pending: string)

  /** src/lql_json_scan.c:2235-2241. */
  function Need(first: char): nat {
    var b := first as int;
    if b < 0x80 then 1 else if b < 0xe0 then 2 else if b < 0xf0 then 3 else 4
  }

  /** A sequence that does not decode contributes nothing. */
  ghost function LowerOrNothing(ranges: seq<CaseRange>, bytes: string): string {
    if IsUnit(bytes) && LowerUnit(ranges, bytes).Some? then LowerUnit(ranges, bytes).value else ""
  }

  ghost function FoldByte(ranges: seq<CaseRange>, f: Folding, c: char): Folding {
    var pending := f.pending + [c];
    if |pending| < Need(pending[0]) then Folding(f.lowered, pending)
    else Folding(f.lowered + LowerOrNothing(ranges, pending), "")
  }

  ghost function Fold(ranges: seq<CaseRange>, fed: string): Folding {
    if |fed| == 0 then Folding("", "") else FoldByte(ranges, Fold(ranges, fed[..|fed| - 1]), fed[|fed| - 1])
  }

  lemma FoldSnoc(ranges: seq<CaseRange>, fed: string, c: char)
    ensures Fold(ranges, fed + [c]) == FoldByte(ranges, Fold(ranges, fed), c)
  {
    assert (fed + [c])[..|fed|] == fed;
  }

  /** The pending bytes never reach the length their first byte asks for. */
  lemma {:induction false} PendingIsShort(ranges: seq<CaseRange>, fed: string)
    ensures var p := Fold(ranges, fed).pending; |p| > 0 ==> |p| < Need(p[0])
  {
    if |fed| > 0 {
      PendingIsShort(ranges, fed[..|fed| - 1]);
    }
  }

  /** A well-formed sequence that starts on a boundary. */
  lemma {:induction false} FoldPartOfUnit(ranges: seq<CaseRange>, fed: string, unit: string, k: nat)
    requires IsUnit(unit) && k < |unit| && Fold(ranges, fed).pending == ""
    ensures Fold(ranges, fed + unit[..k]) == Folding(Fold(ranges, fed).lowered, unit[..k])
  {
    hide Fold, LowerOrNothing, IsUnit;
    if k == 0 {
      assert fed + unit[..0] == fed;
    } else {
      FoldPartOfUnit(ranges, fed, unit, k - 1);
      FoldSnoc(ranges, fed + unit[..k - 1], unit[k - 1]);
      assert fed + unit[..k - 1] + [unit[k - 1]] == fed + unit[..k];
      assert unit[..k - 1] + [unit[k - 1]] == unit[..k];
      NeedIsWidth(unit);
    }
  }

  lemma NeedIsWidth(unit: string)
    requires IsUnit(unit)
    ensures |unit| > 0 && Need(unit[0]) == |unit|
  {
  }

  lemma FoldUnit(ranges: seq<CaseRange>, fed: string, unit: string)
    requires IsUnit(unit) && Fold(ranges, fed).pending == ""
    ensures Fold(ranges, fed + unit) == Folding(Fold(ranges, fed).lowered + LowerOrNothing(ranges, unit), "")
  {
    hide Fold, LowerOrNothing, IsUnit;
    NeedIsWidth(unit);
    var k := |unit| - 1;
    FoldPartOfUnit(ranges, fed, unit, k);
    FoldSnoc(ranges, fed + unit[..k], unit[k]);
    assert fed + unit[..k] + [unit[k]] == fed + unit;
    assert unit[..k] + [unit[k]] == unit;
  }

  /** On text that lowercases as a whole, the byte-by-byte fold ends on a boundary with the same result. */
  lemma {:induction false} FoldIsLowerText(ranges: seq<CaseRange>, fed: string, input: string)
    requires Fold(ranges, fed).pending == "" && LowerText(ranges, input).Some?
    ensures Fold(ranges, fed + input) == Folding(Fold(ranges, fed).lowered + LowerText(ranges, input).value, "")
    decreases |input|
  {
    hide Fold, LowerUnit, IsUnit, UnitAt;
    if |input| == 0 {
      assert fed + input == fed;
    } else {
      var unit := UnitAt(input, 0).value;
      FoldUnit(ranges, fed, unit);
      FoldIsLowerText(ranges, fed + unit, input[|unit|..]);
      assert fed + unit + input[|unit|..] == fed + input;
    }
  }

  // ---------------------------------------------------------------- spans of ASCII

  function LowerAscii(c: char): char { if 'A' <= c <= 'Z' then (c as int + 32) as char else c }

  lemma FoldAscii(ranges: seq<CaseRange>, fed: string, c: char)
    requires WellFormedTable(ranges) && Fold(ranges, fed).pending == "" && c as int < 0x80
    ensures Fold(ranges, fed + [c]) == Folding(Fold(ranges, fed).lowered + [LowerAscii(c)], "")
  {
    FoldUnit(ranges, fed, [c]);
    AsciiStays(ranges, c as int);
  }

  lemma AsciiStays(ranges: seq<CaseRange>, v: int)
    requires WellFormedTable(ranges) && 0 <= v < 0x80
    ensures Lower(ranges, v) == if IsUpperAscii(v) then v + 32 else v
  {
  }
}
