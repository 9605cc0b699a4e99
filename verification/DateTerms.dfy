/** Terms that compare a string value with dates (src/lql_json_scan.c:1423-1462 and 1682-1729). */
module DateTerms {
  import opened Wrappers
  import opened Digits
  import opened Timestamp
  import Calendar
  import JsonNumber
  import NumberStream

  const ANY := Options(true, true, true)

  /** The bounds of a temporal range; an absent bound does not restrict. */
  datatype DateBounds = DateBounds(eq: Option<Temporal>, gt: Option<Temporal>, gte: Option<Temporal>, lt: Option<Temporal>,
                                   lte: Option<Temporal>)

  const NO_DATES := DateBounds(None, None, None, None, None)

  // ---------------------------------------------------------------- what a term asks

  /** The parser reads a C string: what follows a NUL is not seen. */
  function UntilNul(text: string): (r: string)
    ensures r <= text && '\0' !in r && (|r| < |text| ==> text[|r|] == '\0')
  {
    if |text| == 0 || text[0] == '\0' then ""
    else
      assert text == [text[0]] + text[1..];
      [text[0]] + UntilNul(text[1..])
  }

  /** The date a decoded string is taken for; one that fills the buffer is not looked at. */
  ghost function DateOf(text: string): Option<Temporal> {
    var stamp := Literal(UntilNul(text), ANY);
    if |text| >= NumberStream.MATCH_BYTES || stamp.None? then None else Some(Meaning(stamp.value))
  }

  predicate Before(a: Temporal, b: Temporal) {
    a.seconds < b.seconds || (a.seconds == b.seconds && a.nanoseconds < b.nanoseconds)
  }

  /** A day is compared as a day, whatever the time of the other. */
  predicate SameDate(a: Temporal, b: Temporal) {
    if a.dateOnly || b.dateOnly then a.date == b.date else !Before(a, b) && !Before(b, a)
  }

  predicate Within(value: Temporal, bounds: DateBounds) {
    && (bounds.eq.Some? ==> SameDate(value, bounds.eq.value))
    && (bounds.gt.Some? ==> Before(bounds.gt.value, value))
    && (bounds.gte.Some? ==> !Before(value, bounds.gte.value))
    && (bounds.lt.Some? ==> Before(value, bounds.lt.value))
    && (bounds.lte.Some? ==> !Before(bounds.lte.value, value))
  }

  ghost predicate DateWithin(text: string, bounds: DateBounds) {
    DateOf(text).Some? && Within(DateOf(text).value, bounds)
  }

  // ---------------------------------------------------------------- the comparisons

  /** src/lql_temporal.c:370-385. */
  method Compare(left: Temporal, right: Temporal) returns (order: int)
    ensures order < 0 <==> Before(left, right)
    ensures order > 0 <==> Before(right, left)
  {
    if left.seconds < right.seconds {
      return -1;
    }
    if left.seconds > right.seconds {
      return 1;
    }
    if left.nanoseconds < right.nanoseconds {
      return -1;
    }
    if left.nanoseconds > right.nanoseconds {
      return 1;
    }
    order := 0;
  }

  /** src/lql_temporal.c:387-394. */
  method Equal(left: Temporal, right: Temporal) returns (same: bool)
    ensures same == SameDate(left, right)
  {
    if left.dateOnly || right.dateOnly {
      return left.date.year == right.date.year && left.date.month == right.date.month && left.date.day == right.date.day;
    }
    var order := Compare(left, right);
    same := order == 0;
  }

  /** src/lql_json_scan.c:1707-1726: one term's bounds. */
  method InBounds(value: Temporal, bounds: DateBounds) returns (hit: bool)
    ensures hit == Within(value, bounds)
  {
    hide Before, SameDate;
    if bounds.eq.Some? {
      var same := Equal(value, bounds.eq.value);
      if !same {
        return false;
      }
    }
    var order;
    if bounds.gt.Some? {
      order := Compare(value, bounds.gt.value);
      if order <= 0 {
        return false;
      }
    }
    if bounds.gte.Some? {
      order := Compare(value, bounds.gte.value);
      if order < 0 {
        return false;
      }
    }
    if bounds.lt.Some? {
      order := Compare(value, bounds.lt.value);
      if order >= 0 {
        return false;
      }
    }
    if bounds.lte.Some? {
      order := Compare(value, bounds.lte.value);
      if order > 0 {
        return false;
      }
    }
    hit := true;
  }

  // ---------------------------------------------------------------- when a string is taken for a date

  /** No literal holds a NUL. */
  ghost predicate Clean(s: string, from: nat, to: nat) { forall i :: from <= i < to && i < |s| ==> s[i] != '\0' }

  lemma {:induction false} SpaceIsClean(s: string, p: nat)
    requires p <= |s|
    ensures Clean(s, p, SpaceEnd(s, p))
    decreases |s| - p
  {
    if p < |s| && IsSpace(s[p]) {
      SpaceIsClean(s, p + 1);
    }
  }

  lemma DateIsClean(s: string, p: nat)
    requires DateAt(s, p).Some?
    ensures Clean(s, p, p + 10)
  {
    assert DigitAt(s, p) && DigitAt(s, p + 1) && DigitAt(s, p + 2) && DigitAt(s, p + 3);
    assert DigitAt(s, p + 5) && DigitAt(s, p + 6) && DigitAt(s, p + 8) && DigitAt(s, p + 9);
  }

  lemma ZoneIsClean(s: string, p: nat)
    requires p <= |s| && ZoneAt(s, p).Some?
    ensures Clean(s, p, ZoneAt(s, p).value.next)
  {
    if IsAt(s, p, '+') || IsAt(s, p, '-') {
      assert DigitAt(s, p + 1) && DigitAt(s, p + 2) && DigitAt(s, p + 4) && DigitAt(s, p + 5);
    }
  }

  lemma FractionIsClean(s: string, p: nat)
    requires p <= |s| && FractionAt(s, p).Some?
    ensures Clean(s, p, p + FractionLength(FractionAt(s, p).value))
  {
    var f := FractionAt(s, p).value;
    if f != "" {
      forall i | p < i < p + 1 + |f| ensures s[i] != '\0' {
        assert f[i - p - 1] == s[i] && IsDigit(f[i - p - 1]);
      }
    }
  }

  lemma TimeIsClean(s: string, p: nat, date: Calendar.Date)
    requires TimeAt(s, p, date).Some?
    ensures Clean(s, p, TimeAt(s, p, date).value.next)
  {
    hide FractionAt, ZoneAt;
    assert DigitAt(s, p) && DigitAt(s, p + 1) && DigitAt(s, p + 3) && DigitAt(s, p + 4) && DigitAt(s, p + 6) && DigitAt(s, p + 7);
    FractionIsClean(s, p + 8);
    ZoneIsClean(s, p + 8 + FractionLength(FractionAt(s, p + 8).value));
  }

  lemma LiteralIsClean(s: string)
    requires Literal(s, ANY).Some?
    ensures '\0' !in s
  {
    hide DateAt, TimeAt;
    var p := SpaceEnd(s, 0);
    var r := StampAt(s, p).value;
    SpaceIsClean(s, 0);
    SpaceIsClean(s, r.next);
    DateIsClean(s, p);
    if IsAt(s, p + 10, 'T') {
      TimeIsClean(s, p + 11, DateAt(s, p).value);
    }
  }

  /** A string that fits is taken for a date exactly when it is one, unless a NUL cuts it off behind one. */
  lemma DatesExactly(text: string)
    requires |text| < NumberStream.MATCH_BYTES
    ensures (DateOf(text).Some? <==> Literal(text, ANY).Some?) <==> !('\0' in text && Literal(UntilNul(text), ANY).Some?)
    ensures Literal(text, ANY).Some? ==> DateOf(text) == Some(Meaning(Literal(text, ANY).value))
  {
    hide Literal, Meaning;
    if Literal(text, ANY).Some? {
      LiteralIsClean(text);
    }
    if '\0' !in text {
      assert UntilNul(text) == text;
    }
  }

  /** A date with a NUL and anything behind it is no literal, but is taken for the date. */
  lemma NulHidesTheRest(date: string, rest: string)
    requires Literal(date, ANY).Some? && |date| + 1 + |rest| < NumberStream.MATCH_BYTES
    ensures Literal(date + "\0" + rest, ANY).None? && DateOf(date + "\0" + rest) == DateOf(date)
  {
    hide Literal, Meaning;
    var text := date + "\0" + rest;
    LiteralIsClean(date);
    CutAtNul(date, rest);
    CutAtNul(date, "");
    DatesExactly(date);
    assert text[|date|] == '\0';
    if Literal(text, ANY).Some? {
      LiteralIsClean(text);
    }
  }

  lemma {:induction false} CutAtNul(before: string, after: string)
    requires '\0' !in before
    ensures UntilNul(before + "\0" + after) == before
  {
    if |before| > 0 {
      var text := before + "\0" + after;
      assert text[1..] == before[1..] + "\0" + after;
      CutAtNul(before[1..], after);
    }
  }

  lemma DayIsLiteral()
    ensures Literal("2024-02-29", ANY).Some?
  {
    var day := "2024-02-29";
    assert DateAt(day, 0) == Some(Calendar.Date(2024, 2, 29));
    assert Exactly(day, ANY).Some?;
    ExactIsLiteral(day, ANY);
  }

  /** Such a text exists. */
  lemma NulHidesALetter()
    ensures Literal("2024-02-29" + "\0" + "x", ANY).None? && DateOf("2024-02-29" + "\0" + "x").Some?
  {
    hide Literal, Meaning, DateOf;
    DayIsLiteral();
    DatesExactly("2024-02-29");
    NulHidesTheRest("2024-02-29", "x");
  }
}
