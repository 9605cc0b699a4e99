/** The number part of `lql_json_scan`: one token arrives byte by byte and is compared with every bound. */
module NumberStream {
  import opened Digits
  import opened JsonNumber
  import opened NumberCompare
  import opened NumberSummary

  const MATCH_BYTES := 8192
  const HEAP_LIMIT := 128 * 1024
  const ULONG_MAX := 0xffff_ffff_ffff_ffff

  /** src/lql_json_scan.c:47-54, as far as the coefficient uses it. */
  datatype Cursor = Cursor(pos: nat, index: nat, started: bool, done: bool)

  /** One bound's running comparison (src/lql_json_scan.c:130-149). */
  datatype Slot = Slot(coeffCmp: int, cursor: Cursor)

  const FRESH := Slot(0, Cursor(0, 0, false, false))

  /** The mantissa digits of the first pos bytes. */
  ghost function MantissaUpTo(text: string, l: Layout, pos: nat): string
    requires Matches(text, l) && pos <= |text|
  {
    if pos <= l.start then ""
    else if pos <= l.intEnd then text[l.start..pos]
    else if pos <= l.fracEnd then text[l.start..l.intEnd] + text[l.intEnd + 1..pos]
    else DigitsOf(text, l)
  }

  lemma MantissaWhole(text: string, l: Layout, pos: nat)
    requires Matches(text, l) && l.fracEnd <= pos <= |text|
    ensures MantissaUpTo(text, l, pos) == DigitsOf(text, l)
  {
  }

  /** One more byte: a mantissa digit is appended, nothing else counts. */
  lemma MantissaNext(text: string, l: Layout, pos: nat)
    requires Matches(text, l) && pos < |text|
    ensures pos < l.fracEnd && IsDigit(text[pos]) ==> MantissaUpTo(text, l, pos + 1) == MantissaUpTo(text, l, pos) + [text[pos]]
    ensures pos < l.fracEnd && !IsDigit(text[pos]) ==> MantissaUpTo(text, l, pos + 1) == MantissaUpTo(text, l, pos)
    ensures IsMark(text[pos]) <==> pos == l.fracEnd
  {
    if l.start <= pos < l.intEnd {
      SliceGrows(text, l.start, pos);
    } else if l.intEnd < pos < l.fracEnd {
      SliceGrows(text, l.intEnd + 1, pos);
    }
  }

  lemma SliceGrows(s: string, a: nat, b: nat)
    requires a <= b < |s|
    ensures s[a..b + 1] == s[a..b] + [s[b]]
  {
  }

  /** The cursor has handed out exactly the first `index` significant digits. */
  ghost predicate CursorAt(cursor: Cursor, text: string, l: Layout)
    requires Matches(text, l)
  {
    if cursor.done then |Significant(DigitsOf(text, l))| <= cursor.index
    else
      && cursor.pos <= l.fracEnd
      && |Significant(MantissaUpTo(text, l, cursor.pos))| == cursor.index
      && (cursor.started <==> cursor.index > 0)
  }

  /** Passing over the minus, the point or a leading zero. */
  lemma CursorSkips(cursor: Cursor, text: string, l: Layout)
    requires Matches(text, l) && CursorAt(cursor, text, l) && !cursor.done
    requires cursor.pos < |text| && !IsMark(text[cursor.pos])
    requires !IsDigit(text[cursor.pos]) || (!cursor.started && text[cursor.pos] == '0')
    ensures CursorAt(cursor.(pos := cursor.pos + 1), text, l)
  {
    hide Significant, MantissaUpTo, Matches, DigitsOf, IsMark;
    BeforeMark(text, l, cursor.pos);
    SkippedKeeps(text, l, cursor.pos);
  }

  lemma BeforeMark(text: string, l: Layout, pos: nat)
    requires Matches(text, l) && pos < |text|
    ensures pos <= l.fracEnd ==> (IsMark(text[pos]) <==> pos == l.fracEnd)
  {
  }

  lemma SkippedKeeps(text: string, l: Layout, pos: nat)
    requires Matches(text, l) && pos < l.fracEnd
    requires !IsDigit(text[pos]) || (|Significant(MantissaUpTo(text, l, pos))| == 0 && text[pos] == '0')
    ensures Significant(MantissaUpTo(text, l, pos + 1)) == Significant(MantissaUpTo(text, l, pos))
  {
    hide Significant, MantissaUpTo, DigitsOf;
    MantissaNext(text, l, pos);
    SignificantStep(MantissaUpTo(text, l, pos), text[pos]);
  }

  lemma CursorEmits(cursor: Cursor, text: string, l: Layout)
    requires Matches(text, l) && CursorAt(cursor, text, l) && !cursor.done
    requires cursor.pos < |text| && IsDigit(text[cursor.pos]) && (cursor.started || text[cursor.pos] != '0')
    ensures CursorAt(Cursor(cursor.pos + 1, cursor.index + 1, true, false), text, l)
    ensures PaddedAt(Significant(DigitsOf(text, l)), cursor.index) == text[cursor.pos]
  {
    hide Significant, MantissaUpTo, Matches, DigitsOf, IsMark;
    DigitBeforeMark(text, l, cursor.pos);
    EmittedNext(text, l, cursor.pos);
    ElementOfPrefix(Significant(DigitsOf(text, l)), Significant(MantissaUpTo(text, l, cursor.pos)), text[cursor.pos]);
  }

  lemma DigitBeforeMark(text: string, l: Layout, pos: nat)
    requires Matches(text, l) && pos <= l.fracEnd && pos < |text| && IsDigit(text[pos])
    ensures pos < l.fracEnd
  {
  }

  lemma EmittedNext(text: string, l: Layout, pos: nat)
    requires Matches(text, l) && pos < l.fracEnd && IsDigit(text[pos])
    requires |Significant(MantissaUpTo(text, l, pos))| > 0 || text[pos] != '0'
    ensures Significant(MantissaUpTo(text, l, pos + 1)) == Significant(MantissaUpTo(text, l, pos)) + [text[pos]]
    ensures |Significant(MantissaUpTo(text, l, pos))| < |Significant(DigitsOf(text, l))|
    ensures Significant(DigitsOf(text, l))[..|Significant(MantissaUpTo(text, l, pos))| + 1]
         == Significant(MantissaUpTo(text, l, pos)) + [text[pos]]
  {
    hide Significant, MantissaUpTo, DigitsOf;
    MantissaNext(text, l, pos);
    SignificantStep(MantissaUpTo(text, l, pos), text[pos]);
    SignificantPrefix(text, l, pos + 1);
  }

  lemma ElementOfPrefix(s: string, p: string, c: char)
    requires |p| < |s| && s[..|p| + 1] == p + [c]
    ensures s[|p|] == c
  {
    assert s[|p|] == s[..|p| + 1][|p|];
  }

  lemma CursorInText(cursor: Cursor, text: string, l: Layout)
    requires Matches(text, l) && CursorAt(cursor, text, l)
    ensures !cursor.done ==> cursor.pos <= |text|
  {
  }

  lemma CursorEnds(cursor: Cursor, text: string, l: Layout)
    requires Matches(text, l) && CursorAt(cursor, text, l)
    requires !cursor.done ==> cursor.pos == |text| || (cursor.pos < |text| && IsMark(text[cursor.pos]))
    ensures |Significant(DigitsOf(text, l))| <= cursor.index
  {
    if !cursor.done {
      if cursor.pos < |text| {
        MantissaNext(text, l, cursor.pos);
      }
      MantissaWhole(text, l, cursor.pos);
    }
  }

  /** src/lql_json_scan.c:749-790: the digit at the cursor's own index, zeros after the last one. */
  method CoeffDigitNext(text: string, cursor: Cursor, ghost l: Layout) returns (digit: char, next: Cursor)
    requires Matches(text, l) && CursorAt(cursor, text, l)
    ensures digit == PaddedAt(Significant(DigitsOf(text, l)), cursor.index)
    ensures CursorAt(next, text, l) && next.index == cursor.index + 1
  {
    hide Matches, Significant, MantissaUpTo;
    CursorInText(cursor, text, l);
    digit, next := '0', cursor;
    if cursor.done {
      next := next.(index := cursor.index + 1);
      return;
    }
    if next.pos == 0 && next.pos < |text| && text[next.pos] == '-' {
      CursorSkips(next, text, l);
      next := next.(pos := 1);
    }
    while next.pos < |text| && !IsMark(text[next.pos])
      invariant !next.done && next.index == cursor.index && CursorAt(next, text, l) && next.pos <= |text|
      decreases |text| - next.pos
    {
      var ch := text[next.pos];
      if !IsDigit(ch) || (!next.started && ch == '0') {
        CursorSkips(next, text, l);
        next := next.(pos := next.pos + 1);
        continue;
      }
      CursorEmits(next, text, l);
      digit := ch;
      next := Cursor(next.pos + 1, cursor.index + 1, true, false);
      return;
    }
    CursorEnds(next, text, l);
    next := next.(done := true, index := cursor.index + 1);
  }

  lemma {:induction false} SignificantOfPrefix(s: string, k: nat)
    requires k <= |s|
    ensures |Significant(s[..k])| <= |Significant(s)|
    ensures Significant(s)[..|Significant(s[..k])|] == Significant(s[..k])
    decreases |s| - k
  {
    if k == |s| {
      assert s[..k] == s;
    } else {
      SignificantOfPrefix(s, k + 1);
      assert s[..k + 1] == s[..k] + [s[k]];
      SignificantStep(s[..k], s[k]);
    }
  }

  lemma SignificantPrefix(text: string, l: Layout, pos: nat)
    requires Matches(text, l) && pos <= |text|
    ensures |Significant(MantissaUpTo(text, l, pos))| <= |Significant(DigitsOf(text, l))|
    ensures Significant(DigitsOf(text, l))[..|Significant(MantissaUpTo(text, l, pos))|] == Significant(MantissaUpTo(text, l, pos))
  {
    MantissaIsPrefix(text, l, pos);
    SignificantOfPrefix(DigitsOf(text, l), |MantissaUpTo(text, l, pos)|);
  }

  lemma MantissaIsPrefix(text: string, l: Layout, pos: nat)
    requires Matches(text, l) && pos <= |text|
    ensures |MantissaUpTo(text, l, pos)| <= |DigitsOf(text, l)|
    ensures DigitsOf(text, l)[..|MantissaUpTo(text, l, pos)|] == MantissaUpTo(text, l, pos)
  {
    if l.start < pos <= l.intEnd {
      TakeOfConcat(IntegerOf(text, l), FractionOf(text, l), pos - l.start);
      TakeOfSlice(text, l.start, l.intEnd, pos);
    } else if l.intEnd < pos <= l.fracEnd {
      TakeOfConcat(IntegerOf(text, l), FractionOf(text, l), pos - l.start - 1);
      TakeOfSlice(text, l.intEnd + 1, l.fracEnd, pos);
    }
  }

  lemma TakeOfSlice(text: string, a: nat, b: nat, pos: nat)
    requires a <= pos <= b <= |text|
    ensures text[a..b][..pos - a] == text[a..pos]
  {
  }

  lemma TakeOfConcat(a: string, b: string, n: nat)
    requires n <= |a| + |b|
    ensures (a + b)[..n] == if n <= |a| then a[..n] else a + b[..n - |a|]
  {
  }

  // ---------------------------------------------------------------- tracking the bounds

  /** The significant digits among the bytes so far. */
  ghost function Emitted(fed: string): string {
    if |fed| == 0 then "" else
    var before, c := fed[..|fed| - 1], fed[|fed| - 1];
    if Emits(After(before), c) then Emitted(before) + [c] else Emitted(before)
  }

  lemma FedSnoc(fed: string, c: char)
    ensures After(fed + [c]) == SummaryByte(After(fed), c)
    ensures Emitted(fed + [c]) == if Emits(After(fed), c) then Emitted(fed) + [c] else Emitted(fed)
  {
    assert (fed + [c])[..|fed|] == fed;
  }

  /** While the mantissa is read, the emitted digits are its significant digits. */
  ghost predicate EmitsMantissa(text: string, l: Layout, k: nat)
    requires Matches(text, l) && k <= |text|
  {
    && Emitted(text[..k]) == Significant(MantissaUpTo(text, l, k))
    && (k <= l.fracEnd ==> After(text[..k]).coeffLenRaw == |Significant(MantissaUpTo(text, l, k))| && !After(text[..k]).inExponent)
    && (k > l.fracEnd ==> After(text[..k]).inExponent)
  }

  lemma {:induction false} EmittedIsSignificant(text: string, l: Layout, k: nat)
    requires Matches(text, l) && k <= |text|
    ensures EmitsMantissa(text, l, k)
    decreases k
  {
    hide MantissaUpTo, SummaryByte;
    if k == 0 {
      assert text[..0] == "";
      MantissaStarts(text, l);
    } else {
      EmittedIsSignificant(text, l, k - 1);
      EmitStep(text, l, k - 1);
    }
  }

  lemma MantissaStarts(text: string, l: Layout)
    requires Matches(text, l)
    ensures MantissaUpTo(text, l, 0) == ""
  {
  }

  lemma EmitStep(text: string, l: Layout, k: nat)
    requires Matches(text, l) && k < |text| && EmitsMantissa(text, l, k)
    ensures EmitsMantissa(text, l, k + 1)
  {
    hide MantissaUpTo, Significant, Matches, After, Emitted, DigitsOf, SummaryByte, Emits;
    assert text[..k + 1] == text[..k] + [text[k]];
    FedSnoc(text[..k], text[k]);
    if k < l.fracEnd {
      EmitMantissaByte(text, l, k);
    } else {
      EmitExponentByte(text, l, k, After(text[..k]));
    }
  }

  lemma EmitExponentByte(text: string, l: Layout, k: nat, s: Summary)
    requires Matches(text, l) && l.fracEnd <= k < |text| && (k > l.fracEnd ==> s.inExponent)
    ensures !Emits(s, text[k]) && SummaryByte(s, text[k]).inExponent
    ensures MantissaUpTo(text, l, k + 1) == MantissaUpTo(text, l, k)
  {
    hide DigitsOf, MantissaUpTo;
    BeforeMark(text, l, k);
    MantissaWhole(text, l, k);
    MantissaWhole(text, l, k + 1);
  }

  lemma MantissaByteCounts(s: Summary, c: char)
    requires !s.inExponent && !IsMark(c)
    ensures !SummaryByte(s, c).inExponent
    ensures SummaryByte(s, c).coeffLenRaw == s.coeffLenRaw + (if Emits(s, c) then 1 else 0)
  {
    hide ExponentDigit, DigitValue;
    if IsDigit(c) {
      assert SummaryByte(s, c) == CoefficientDigit(s, c).(signAllowed := false);
    }
  }

  lemma EmitMantissaByte(text: string, l: Layout, k: nat)
    requires Matches(text, l) && k < l.fracEnd && k < |text|
    requires After(text[..k]).coeffLenRaw == |Significant(MantissaUpTo(text, l, k))| && !After(text[..k]).inExponent
    ensures var s, m := After(text[..k]), MantissaUpTo(text, l, k);
      && !SummaryByte(s, text[k]).inExponent
      && SummaryByte(s, text[k]).coeffLenRaw == |Significant(MantissaUpTo(text, l, k + 1))|
      && Significant(MantissaUpTo(text, l, k + 1)) == if Emits(s, text[k]) then Significant(m) + [text[k]] else Significant(m)
  {
    hide MantissaUpTo, Significant, Matches, After, DigitsOf, SummaryByte, IsMark;
    BeforeMark(text, l, k);
    MantissaByteCounts(After(text[..k]), text[k]);
    if Emits(After(text[..k]), text[k]) {
      EmittedNext(text, l, k);
    } else {
      SkippedKeeps(text, l, k);
    }
  }

  lemma EmittedWhole(text: string, l: Layout)
    requires Matches(text, l)
    ensures Emitted(text) == Significant(DigitsOf(text, l))
    ensures After(text).coeffLenRaw == |Emitted(text)|
  {
    EmittedIsSignificant(text, l, |text|);
    assert text[..|text|] == text;
    MantissaWhole(text, l, |text|);
    AfterToken(text, l);
  }

  lemma {:induction false} FirstDifferenceSnoc(x: string, y: string, c: char, n: nat)
    requires n <= |x|
    ensures FirstDifference(x + [c], y, n) == FirstDifference(x, y, n)
  {
    if n > 0 {
      FirstDifferenceSnoc(x, y, c, n - 1);
    }
  }

  /** A slot holds the first difference between the emitted digits and its bound's, and while there is
      none its cursor stands at the next digit of the bound. */
  ghost predicate Tracks(slot: Slot, emitted: string, bound: string, l: Layout)
    requires Matches(bound, l)
  {
    var y := Significant(DigitsOf(bound, l));
    && slot.coeffCmp == FirstDifference(emitted, y, |emitted|)
    && (slot.coeffCmp == 0 ==> CursorAt(slot.cursor, bound, l) && slot.cursor.index == |emitted|)
  }

  lemma FreshTracks(bound: string, l: Layout)
    requires Matches(bound, l)
    ensures Tracks(FRESH, "", bound, l)
  {
    MantissaStarts(bound, l);
  }

  /** src/lql_json_scan.c:842-855: one more emitted digit against one bound. */
  method TrackOne(slot: Slot, ghost emitted: string, digit: char, bound: string, ghost l: Layout) returns (next: Slot)
    requires Matches(bound, l) && Tracks(slot, emitted, bound, l)
    ensures Tracks(next, emitted + [digit], bound, l)
  {
    hide Significant, CursorAt, DigitsOf, Matches;
    FirstDifferenceSnoc(emitted, Significant(DigitsOf(bound, l)), digit, |emitted|);
    next := slot;
    if slot.coeffCmp != 0 {
      return;
    }
    var other, cursor := CoeffDigitNext(bound, slot.cursor, l);
    next := Slot(CompareChars(digit, other), cursor);
  }

  // ---------------------------------------------------------------- the bounded buffer

  /** The value of the token while it is a run of digits (src/lql_json_scan.c:1131-1142). */
  datatype Unsigned = Unsigned(value: nat, ready: bool, overflow: bool)

  function UnsignedByte(u: Unsigned, value: char): Unsigned {
    if !u.ready then u
    else if !IsDigit(value) then u.(ready := false)
    else
      var digit := DigitValue(value);
      if u.value > (ULONG_MAX - digit) / 10 then u.(overflow := true)
      else if !u.overflow then u.(value := u.value * 10 + digit)
      else u
  }

  ghost predicate UnsignedOf(u: Unsigned, fed: string) {
    && (u.ready <==> AllDigits(fed))
    && (u.ready ==> u.value <= ULONG_MAX && (u.overflow <==> NatOf(fed) > ULONG_MAX) && (!u.overflow ==> u.value == NatOf(fed)))
  }

  lemma UnsignedStep(u: Unsigned, fed: string, value: char)
    requires UnsignedOf(u, fed)
    ensures UnsignedOf(UnsignedByte(u, value), fed + [value])
  {
    NatOfSnoc(fed, value);
    assert AllDigits(fed + [value]) <==> AllDigits(fed) && IsDigit(value) by {
      assert (fed + [value])[|fed|] == value;
      assert forall i :: 0 <= i < |fed| ==> (fed + [value])[i] == fed[i];
    }
  }

  lemma UnsignedEmpty()
    ensures UnsignedOf(Unsigned(0, true, false), "")
  {
  }

  ghost predicate JsonNumbers(bounds: seq<string>) {
    forall i :: 0 <= i < |bounds| ==> IsJsonNumber(bounds[i]) && |bounds[i]| <= LONG_MAX
  }

  /** Every slot tracks its bound. */
  ghost predicate AllTrack(slots: seq<Slot>, emitted: string, bounds: seq<string>) {
    && |slots| == |bounds|
    && forall i :: 0 <= i < |bounds| ==> TracksBound(slots[i], emitted, bounds[i])
  }

  ghost predicate TracksBound(slot: Slot, emitted: string, bound: string) {
    exists l :: Matches(bound, l) && Tracks(slot, emitted, bound, l)
  }

  lemma AllFresh(bounds: seq<string>)
    requires JsonNumbers(bounds)
    ensures AllTrack(seq(|bounds|, _ => FRESH), "", bounds)
  {
    forall i | 0 <= i < |bounds| ensures TracksBound(FRESH, "", bounds[i]) {
      var l :| Matches(bounds[i], l);
      FreshTracks(bounds[i], l);
    }
  }

  /** src/lql_json_scan.c:871-916: an emitted digit is compared with every bound. */
  method TrackAll(slots: seq<Slot>, ghost emitted: string, digit: char, bounds: seq<string>) returns (next: seq<Slot>)
    requires AllTrack(slots, emitted, bounds)
    ensures AllTrack(next, emitted + [digit], bounds)
  {
    hide Tracks, Matches;
    next := [];
    for i := 0 to |bounds|
      invariant |next| == i
      invariant forall j :: 0 <= j < i ==> TracksBound(next[j], emitted + [digit], bounds[j])
    {
      assert TracksBound(slots[i], emitted, bounds[i]);
      ghost var l :| Matches(bounds[i], l) && Tracks(slots[i], emitted, bounds[i], l);
      var slot := TrackOne(slots[i], emitted, digit, bounds[i], l);
      assert TracksBound(slot, emitted + [digit], bounds[i]);
      next := next + [slot];
    }
  }

  class NumberMatch {
    const bounds: seq<string>
    /** The first token length that does not fit: the limit, or the capacity that an earlier token left when that is larger. */
    const reach: nat
    var buffer: array<char>
    var matchLen: nat
    var matchLimit: nat
    var tokenLen: nat
    var unsigned: Unsigned
    var overflow: bool
    var summary: Summary
    var slots: seq<Slot>
    ghost var fed: string

    ghost predicate Valid()
      reads this, buffer
    {
      && JsonNumbers(bounds)
      && MATCH_BYTES <= buffer.Length <= reach && MATCH_BYTES <= matchLimit <= reach && matchLen < buffer.Length
      && (reach == matchLimit || reach == buffer.Length)
      && tokenLen == |fed| && UnsignedOf(unsigned, fed)
      && (!overflow ==> buffer[..matchLen] == fed && AllTrack(slots, "", bounds))
      && (overflow <==> |fed| >= reach) && (overflow ==> Overflown(summary, slots, fed, bounds))
    }

    /** src/lql_json_scan.c:1021-1107: the limit follows the longest bound. */
    constructor (bounds: seq<string>, capacity: nat)
      requires JsonNumbers(bounds) && MATCH_BYTES <= capacity
      ensures Valid() && fed == "" && this.bounds == bounds && reach == Larger(capacity, MatchLimit(bounds)) && fresh(buffer)
    {
      hide JsonNumbers, UnsignedOf, AllTrack;
      this.bounds := bounds;
      buffer := new char[capacity];
      matchLen, tokenLen, fed := 0, 0, "";
      unsigned, overflow, summary := Unsigned(0, true, false), false, EMPTY;
      slots := seq(|bounds|, _ => FRESH);
      var limit := LimitFor(bounds);
      matchLimit, reach := limit, if capacity < limit then limit else capacity;
      new;
      FreshState(bounds);
    }

    /** src/lql_json_scan.c:1122-1209: one more byte of the token. */
    method Byte(value: char)
      requires Valid()
      modifies this, buffer
      ensures Valid() && fed == old(fed) + [value] && (buffer == old(buffer) || fresh(buffer))
    {
      hide JsonNumbers, UnsignedOf, UnsignedByte, AllTrack, Overflown;
      UnsignedStep(unsigned, fed, value);
      tokenLen := tokenLen + 1;
      unsigned := UnsignedByte(unsigned, value);
      if overflow {
        summary, slots := Follow(summary, slots, fed, value, bounds);
        fed := fed + [value];
        return;
      }
      if matchLen + 1 >= buffer.Length {
        if matchLen + 1 >= matchLimit {
          summary, slots := Replay(buffer[..matchLen], slots, bounds);
          summary, slots := Follow(summary, slots, fed, value, bounds);
          overflow := true;
          fed := fed + [value];
          return;
        }
        buffer := Grow(buffer, matchLen, matchLimit);
      }
      buffer[matchLen] := value;
      matchLen := matchLen + 1;
      fed := fed + [value];
    }

    method Capacity() returns (capacity: nat)
      requires Valid()
      ensures capacity == buffer.Length >= MATCH_BYTES
    {
      capacity := buffer.Length;
    }

    /** src/lql_json_scan.c:1393-1421: the order of the whole token and one bound. */
    method CompareCurrent(i: nat) returns (ok: bool, out: int)
      requires Valid() && i < |bounds|
      requires IsJsonNumber(fed) && |fed| <= LONG_MAX
      ensures ok
      ensures |fed| < reach ==> out == Order(fed, bounds[i])
      ensures |fed| >= reach && Unclamped(fed) && Unclamped(bounds[i]) ==> out == SeenOrder(fed, bounds[i])
    {
      hide UnsignedOf, Overflown, IsJsonNumber, Order, Unclamped, SeenOrder, AllTrack;
      assert IsJsonNumber(bounds[i]) && |bounds[i]| <= LONG_MAX;
      if overflow {
        out := CompareOverflown(summary, slots, fed, bounds, i);
        return true, out;
      }
      ok, out := CompareBuffered(buffer[..matchLen], unsigned, bounds[i]);
    }
  }

  ghost predicate Overflown(summary: Summary, slots: seq<Slot>, fed: string, bounds: seq<string>) {
    summary == After(fed) && AllTrack(slots, Emitted(fed), bounds)
  }

  lemma FreshState(bounds: seq<string>)
    requires JsonNumbers(bounds)
    ensures UnsignedOf(Unsigned(0, true, false), "") && AllTrack(seq(|bounds|, _ => FRESH), "", bounds)
  {
    UnsignedEmpty();
    AllFresh(bounds);
  }

  function Larger(a: nat, b: nat): nat { if a < b then b else a }

  function LongestOf(bounds: seq<string>): nat {
    if |bounds| == 0 then 0 else Larger(LongestOf(bounds[..|bounds| - 1]), |bounds[|bounds| - 1]|)
  }

  /** A token of this length no longer fits a buffer that is not larger: 64 bytes more than the longest bound, within limits. */
  function MatchLimit(bounds: seq<string>): (r: nat)
    ensures r >= MATCH_BYTES
  {
    var limit := Larger(LongestOf(bounds) + 64, MATCH_BYTES);
    if limit > HEAP_LIMIT then HEAP_LIMIT else limit
  }

  method LimitFor(bounds: seq<string>) returns (limit: nat)
    ensures limit == MatchLimit(bounds)
  {
    limit := 0;
    for i := 0 to |bounds|
      invariant limit == LongestOf(bounds[..i])
    {
      assert bounds[..i + 1][..i] == bounds[..i];
      if |bounds[i]| > limit {
        limit := |bounds[i]|;
      }
    }
    assert bounds[..|bounds|] == bounds;
    limit := limit + 64;
    if limit < MATCH_BYTES {
      limit := MATCH_BYTES;
    }
    if limit > HEAP_LIMIT {
      limit := HEAP_LIMIT;
    }
  }

  /** src/lql_json_scan.c:1185-1205: a larger buffer with the same bytes. */
  method Grow(buffer: array<char>, len: nat, limit: nat) returns (next: array<char>)
    requires len < buffer.Length && buffer.Length <= len + 1 < limit
    ensures fresh(next) && len + 1 < next.Length <= limit && next[..len] == buffer[..len]
  {
    var cap := buffer.Length * 2;
    if cap <= buffer.Length || cap > limit {
      cap := limit;
    }
    if cap <= len + 1 {
      cap := len + 2;
    }
    next := new char[cap];
    forall i | 0 <= i < len {
      next[i] := buffer[i];
    }
  }

  /** One byte through the summary and, when it is a significant digit, past every bound. */
  method Follow(summary: Summary, slots: seq<Slot>, ghost fed: string, value: char, bounds: seq<string>)
    returns (summary': Summary, slots': seq<Slot>)
    requires Overflown(summary, slots, fed, bounds)
    ensures Overflown(summary', slots', fed + [value], bounds)
  {
    hide AllTrack, SummaryByte, Emits, Emitted, After;
    FedSnoc(fed, value);
    summary', slots' := SummaryByte(summary, value), slots;
    if Emits(summary, value) {
      slots' := TrackAll(slots, Emitted(fed), value, bounds);
    }
  }

  /** src/lql_json_scan.c:1158-1170: the buffered bytes go through the summary. */
  method Replay(bytes: string, slots: seq<Slot>, bounds: seq<string>) returns (summary: Summary, slots': seq<Slot>)
    requires AllTrack(slots, "", bounds)
    ensures Overflown(summary, slots', bytes, bounds)
  {
    summary, slots' := EMPTY, slots;
    for i := 0 to |bytes|
      invariant Overflown(summary, slots', bytes[..i], bounds)
    {
      summary, slots' := Follow(summary, slots', bytes[..i], bytes[i], bounds);
      assert bytes[..i + 1] == bytes[..i] + [bytes[i]];
    }
    assert bytes[..|bytes|] == bytes;
  }

  // ---------------------------------------------------------------- comparing with one bound

  /** src/lql_json_scan.c:1226-1258: an integer token without a sign that fits an unsigned long. */
  method ParseUnsigned(text: string) returns (ok: bool, value: nat)
    ensures ok ==> IsPlain(text, text, false, text == "0") && value == NatOf(text)
  {
    value := 0;
    if |text| == 0 {
      return false, 0;
    }
    if text[0] == '0' {
      if |text| != 1 {
        return false, 0;
      }
      OneDigit('0');
      PlainDigits(text);
      return true, 0;
    }
    if !IsDigit(text[0]) {
      return false, 0;
    }
    for i := 0 to |text|
      invariant AllDigits(text[..i]) && value == NatOf(text[..i])
    {
      if !IsDigit(text[i]) {
        return false, 0;
      }
      var digit := DigitValue(text[i]);
      if value > (ULONG_MAX - digit) / 10 {
        return false, 0;
      }
      assert text[..i + 1] == text[..i] + [text[i]];
      NatOfSnoc(text[..i], text[i]);
      value := value * 10 + digit;
    }
    assert text[..|text|] == text;
    PlainDigits(text);
    ok := true;
  }

  lemma PlainDigits(text: string)
    requires |text| > 0 && AllDigits(text) && (text[0] == '0' ==> |text| == 1)
    ensures IsPlain(text, text, false, text == "0")
  {
    var l := Layout(0, |text|, |text|, |text|);
    assert Matches(text, l) && text[0..] == text;
    assert IsPlainUnder(text, l, text, false, text == "0");
  }

  lemma AfterIntegerDigits(text: string, l: Layout)
    requires Matches(text, l)
    ensures l.start == 1 ==> !IsDigit(text[0])
    ensures l.intEnd < |text| ==> !IsDigit(text[l.intEnd])
  {
  }

  /** A number token that is a run of digits is a plain integer. */
  lemma DigitsAreValue(text: string)
    requires IsJsonNumber(text) && AllDigits(text)
    ensures Value(text) == NatOf(text) as real
  {
    var l :| Matches(text, l);
    AfterIntegerDigits(text, l);
    PlainDigits(text);
    PlainValue(text, text, false, text == "0");
  }

  /** src/lql_json_scan.c:1302-1347: two integer tokens without signs, of any length. */
  method CompareUnsignedTokens(left: string, right: string) returns (ok: bool, out: int)
    ensures ok ==> IsJsonNumber(left) && IsJsonNumber(right) && out == Order(left, right)
  {
    hide Value, NatOf, IsPlain, IsJsonNumber, CompareDigits, IsNatText;
    out := 0;
    ok := IsUnsignedToken(left);
    if !ok {
      return;
    }
    ok := IsUnsignedToken(right);
    if !ok {
      return;
    }
    PlainValue(left, left, false, left == "0");
    PlainValue(right, right, false, right == "0");
    CompareDigitsIsNumeric(left, right);
    out := CompareDigits(left, right);
  }

  method IsUnsignedToken(text: string) returns (ok: bool)
    ensures ok ==> IsPlain(text, text, false, text == "0")
  {
    if |text| == 0 || !IsDigit(text[0]) || (text[0] == '0' && |text| != 1) {
      return false;
    }
    for i := 1 to |text|
      invariant forall j :: 0 <= j < i ==> IsDigit(text[j])
    {
      if !IsDigit(text[i]) {
        return false;
      }
    }
    PlainDigits(text);
    ok := true;
  }

  /** The three integer fast paths and the exact comparison behind them agree. */
  method CompareBuffered(text: string, unsigned: Unsigned, bound: string) returns (ok: bool, out: int)
    requires IsJsonNumber(text) && |text| <= LONG_MAX && IsJsonNumber(bound) && |bound| <= LONG_MAX
    requires UnsignedOf(unsigned, text)
    ensures ok && out == Order(text, bound)
  {
    hide IsJsonNumber, Value, NatOf, IsPlain;
    if unsigned.ready && !unsigned.overflow {
      var right;
      ok, right := ParseUnsigned(bound);
      if ok {
        DigitsAreValue(text);
        PlainValue(bound, bound, false, bound == "0");
        out := if unsigned.value < right then -1 else if unsigned.value > right then 1 else 0;
        return;
      }
    }
    ok, out := CompareUnsignedTokens(text, bound);
    if ok {
      return;
    }
    ok, out := ComparePlainInteger(text, bound);
    if ok {
      return;
    }
    ok, out := CompareJson(text, bound);
  }

  /** The token is zero or its exponent did not clamp. */
  ghost predicate Unclamped(text: string) {
    forall l :: Matches(text, l) ==> |Significant(DigitsOf(text, l))| == 0 || ExponentFits(text, l)
  }

  /** Equal signs, and exponents that order the other way once they are kept in the long range. */
  ghost predicate Misleads(left: string, right: string) {
    exists l, r ::
      && Matches(left, l) && Matches(right, r)
      && Nonzero(left, l) && Nonzero(right, r) && IsNegative(left, l) == IsNegative(right, r)
      && Collapse(left, l, right, r)
  }

  /** The value that a summary of the token stands for. */
  ghost function TokenSeen(text: string): real
    requires IsJsonNumber(text)
  {
    var l :| Matches(text, l);
    SeenValue(text, l)
  }

  /** What the comparison of a token that did not fit answers. */
  ghost function SeenOrder(left: string, right: string): int
    requires IsJsonNumber(left) && IsJsonNumber(right)
  {
    Sign(TokenSeen(left) - TokenSeen(right))
  }

  ghost predicate Nonzero(text: string, l: Layout)
    requires Matches(text, l)
  {
    |Significant(DigitsOf(text, l))| > 0
  }

  /** src/lql_json_scan.c:731-742: the summary of a bound. */
  method SummaryParse(text: string, ghost l: Layout) returns (summary: Summary)
    requires Matches(text, l)
    ensures Summarises(summary, text, l)
  {
    summary := EMPTY;
    for i := 0 to |text|
      invariant summary == After(text[..i])
    {
      AfterStep(text, i);
      summary := SummaryByte(summary, text[i]);
    }
    assert text[..|text|] == text;
    summary := Finish(summary);
    FinishedSummary(text, l);
  }

  /** src/lql_json_scan.c:1211-1224. */
  method CompareOverflown(summary: Summary, slots: seq<Slot>, ghost fed: string, bounds: seq<string>, i: nat) returns (out: int)
    requires i < |bounds| && Overflown(summary, slots, fed, bounds)
    requires IsJsonNumber(fed) && |fed| <= LONG_MAX && IsJsonNumber(bounds[i]) && |bounds[i]| <= LONG_MAX
    ensures Unclamped(fed) && Unclamped(bounds[i]) ==> out == SeenOrder(fed, bounds[i])
  {
    hide Summarises, Tracks, TokenSeen, SeenValue, Unclamped, Matches, DigitsOf, Significant, Finish;
    ghost var l :| Matches(fed, l);
    assert TracksBound(slots[i], Emitted(fed), bounds[i]);
    ghost var r :| Matches(bounds[i], r) && Tracks(slots[i], Emitted(fed), bounds[i], r);
    var left := Finish(summary);
    FinishedSummary(fed, l);
    var right := SummaryParse(bounds[i], r);
    SummaryCounts(left, fed, l);
    SummaryCounts(right, bounds[i], r);
    if Unclamped(fed) && Unclamped(bounds[i]) {
      UnclampedSummary(left, fed, l);
      UnclampedSummary(right, bounds[i], r);
      OverflownSlot(slots[i], left, fed, l, bounds[i], r);
      SummaryOrdersSeen(left, fed, l, right, bounds[i], r, slots[i].coeffCmp);
      TokenSeenIs(fed, l);
      TokenSeenIs(bounds[i], r);
    }
    out := CompareWithCoefficients(left, right, slots[i].coeffCmp);
  }

  lemma TokenSeenIs(text: string, l: Layout)
    requires Matches(text, l)
    ensures IsJsonNumber(text) && TokenSeen(text) == SeenValue(text, l)
  {
    hide Matches, SeenValue;
    TheOnlyLayouts(text, l);
  }

  /** Where no exponent clamps, the answer for a token that did not fit is the order exactly when the pair does not mislead. */
  lemma SeenOrderExactly(left: string, right: string)
    requires IsJsonNumber(left) && |left| <= LONG_MAX && IsJsonNumber(right) && |right| <= LONG_MAX
    requires Unclamped(left) && Unclamped(right)
    ensures SeenOrder(left, right) == Order(left, right) <==> !Misleads(left, right)
  {
    hide Summarises, TokenSeen, SeenValue, Unclamped, Misleads, Matches, DigitsOf, Significant, Finish, Order, FirstDifference;
    var l :| Matches(left, l);
    var r :| Matches(right, r);
    var a, b := Finish(After(left)), Finish(After(right));
    FinishedSummary(left, l);
    FinishedSummary(right, r);
    UnclampedSummary(a, left, l);
    UnclampedSummary(b, right, r);
    var coeffCmp := FirstDifference(Significant(DigitsOf(left, l)), Significant(DigitsOf(right, r)), a.coeffLenRaw);
    SummaryOrdersSeen(a, left, l, b, right, r, coeffCmp);
    SummaryOrderExactly(a, left, l, b, right, r, coeffCmp);
    TokenSeenIs(left, l);
    TokenSeenIs(right, r);
    MisleadsIs(a, left, l, b, right, r);
  }

  lemma UnclampedSummary(s: Summary, text: string, l: Layout)
    requires Matches(text, l) && |text| <= LONG_MAX && Unclamped(text) && Summarises(s, text, l)
    ensures SummaryOf(s, text, l) && Settled(s)
  {
  }

  lemma SummaryCounts(s: Summary, text: string, l: Layout)
    requires Matches(text, l) && Summarises(s, text, l)
    ensures s.trailingZeroes <= s.coeffLenRaw
  {
  }

  lemma OverflownSlot(slot: Slot, left: Summary, fed: string, l: Layout, bound: string, r: Layout)
    requires Matches(fed, l) && Matches(bound, r) && Summarises(left, fed, l)
    requires Tracks(slot, Emitted(fed), bound, r)
    ensures slot.coeffCmp == FirstDifference(Significant(DigitsOf(fed, l)), Significant(DigitsOf(bound, r)), left.coeffLenRaw)
  {
    EmittedWhole(fed, l);
  }

  lemma MisleadsIs(left: Summary, lt: string, l: Layout, right: Summary, rt: string, r: Layout)
    requires SummaryOf(left, lt, l) && SummaryOf(right, rt, r)
    ensures Misleads(lt, rt) <==> SignOf(left) == SignOf(right) != 0 && Collapse(lt, l, rt, r)
  {
    hide Scaled, ExponentFits, Collapse, Significant, DigitsOf, TrailingZeroes;
    TheOnlyLayouts(lt, l);
    TheOnlyLayouts(rt, r);
  }

  lemma TheOnlyLayouts(text: string, l: Layout)
    requires Matches(text, l)
    ensures forall l' :: Matches(text, l') ==> l' == l
  {
    LayoutIsUnique(text);
  }
}
