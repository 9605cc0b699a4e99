/** RFC 3339 timestamps (src/lql_temporal.c:124-352 and 396-438): two parsers and a formatter. */
module Timestamp {
  import opened Wrappers
  import opened Utf8
  import opened Digits
  import opened Calendar
  import JsonNumber

  /** lql_temporal. */
  datatype Temporal = Temporal(date: Date, dateOnly: bool, seconds: int, nanoseconds: int)

  datatype Zone = Utc | Shifted(negative: bool, hours: int, minutes: int) | Naive

  /** What a literal says: a day, or a time of day on it. */
  datatype Stamp = Day(date: Date)
                 | Instant(date: Date, hour: int, minute: int, second: int, fraction: string, zone: Zone)

  const DAY := 86400

  // ---------------------------------------------------------------- what a literal means

  function Offset(zone: Zone): int {
    if !zone.Shifted? then 0
    else if zone.negative then -(zone.hours * 3600 + zone.minutes * 60)
    else zone.hours * 3600 + zone.minutes * 60
  }

  function Min9(n: nat): nat { if n < 9 then n else 9 }

  /** The first nine digits of a fraction as nanoseconds. */
  ghost function Nanoseconds(fraction: string): int {
    var n := Min9(|fraction|);
    NatOf(fraction[..n]) * Pow10(9 - n)
  }

  ghost function Meaning(stamp: Stamp): Temporal {
    match stamp
    case Day(date) => Temporal(date, true, DaysFromCivil(date) * DAY, 0)
    case Instant(date, h, m, s, fraction, zone) =>
      Temporal(date, false, DaysFromCivil(date) * DAY + (h * 3600 + m * 60 + s - Offset(zone)), Nanoseconds(fraction))
  }

  // ---------------------------------------------------------------- reading a literal

  predicate DigitAt(s: string, p: nat) { p < |s| && IsDigit(s[p]) }

  predicate IsAt(s: string, p: nat, c: char) { p < |s| && s[p] == c }

  /** src/lql_temporal.c:38-48. */
  function TwoAt(s: string, p: nat): (r: Option<int>)
    ensures r.Some? ==> p + 2 <= |s| && 0 <= r.value <= 99
  {
    if DigitAt(s, p) && DigitAt(s, p + 1) then Some(DigitValue(s[p]) * 10 + DigitValue(s[p + 1])) else None
  }

  /** src/lql_temporal.c:50-64. */
  function FourAt(s: string, p: nat): (r: Option<int>)
    ensures r.Some? ==> p + 4 <= |s| && 0 <= r.value <= 9999
  {
    var a, b := TwoAt(s, p), TwoAt(s, p + 2);
    if a.Some? && b.Some? then Some(a.value * 100 + b.value) else None
  }

  function DateAt(s: string, p: nat): (r: Option<Date>)
    ensures r.Some? ==> p + 10 <= |s| && ValidYmd(r.value)
  {
    var y, m, d := FourAt(s, p), TwoAt(s, p + 5), TwoAt(s, p + 8);
    if y.None? || !IsAt(s, p + 4, '-') || m.None? || !IsAt(s, p + 7, '-') || d.None? then None
    else if ValidYmd(Date(y.value, m.value, d.value)) then Some(Date(y.value, m.value, d.value))
    else None
  }

  datatype ZoneEnd = ZoneEnd(zone: Zone, next: nat)

  function ZoneAt(s: string, p: nat): (r: Option<ZoneEnd>)
    requires p <= |s|
    ensures r.Some? ==> p <= r.value.next <= |s|
  {
    if IsAt(s, p, 'Z') then Some(ZoneEnd(Utc, p + 1))
    else if IsAt(s, p, '+') || IsAt(s, p, '-') then
      var h, m := TwoAt(s, p + 1), TwoAt(s, p + 4);
      if h.None? || !IsAt(s, p + 3, ':') || m.None? || h.value > 23 || m.value > 59 then None
      else Some(ZoneEnd(Shifted(s[p] == '-', h.value, m.value), p + 6))
    else Some(ZoneEnd(Naive, p))
  }

  /** The fraction's digits, none when there is no point; None when a point has no digit after it. */
  function FractionAt(s: string, p: nat): (r: Option<string>)
    requires p <= |s|
    ensures r.Some? ==> FractionLength(r.value) + p <= |s|
  {
    if !IsAt(s, p, '.') then Some("")
    else if DigitAt(s, p + 1) then Some(s[p + 1..JsonNumber.DigitsEnd(s, p + 1)])
    else None
  }

  function FractionLength(fraction: string): nat { if fraction == "" then 0 else |fraction| + 1 }

  datatype StampEnd = StampEnd(stamp: Stamp, next: nat)

  function TimeAt(s: string, p: nat, date: Date): (r: Option<StampEnd>)
    ensures r.Some? ==> p < r.value.next <= |s| && r.value.stamp.Instant? && r.value.stamp.date == date
  {
    var h, m, sec := TwoAt(s, p), TwoAt(s, p + 3), TwoAt(s, p + 6);
    if h.None? || !IsAt(s, p + 2, ':') || m.None? || !IsAt(s, p + 5, ':') || sec.None? then None
    else if h.value > 23 || m.value > 59 || sec.value > 59 then None
    else
      var fraction := FractionAt(s, p + 8);
      if fraction.None? then None else
      var zone := ZoneAt(s, p + 8 + FractionLength(fraction.value));
      if zone.None? then None
      else Some(StampEnd(Instant(date, h.value, m.value, sec.value, fraction.value, zone.value.zone), zone.value.next))
  }

  /** The literal at p and where it ends. */
  function StampAt(s: string, p: nat): (r: Option<StampEnd>)
    ensures r.Some? ==> p < r.value.next <= |s|
  {
    var date := DateAt(s, p);
    if date.None? then None
    else if IsAt(s, p + 10, 'T') then TimeAt(s, p + 11, date.value)
    else Some(StampEnd(Day(date.value), p + 10))
  }

  datatype Options = Options(dateOnly: bool, naive: bool, outerSpace: bool)

  const RFC3339 := Options(false, false, false)

  predicate Allowed(stamp: Stamp, options: Options) {
    if stamp.Day? then options.dateOnly else stamp.zone.Naive? ==> options.naive
  }

  predicate IsSpace(c: char) { c == ' ' || 9 <= c as int <= 13 }

  function SpaceEnd(s: string, p: nat): (end: nat)
    requires p <= |s|
    ensures p <= end <= |s| && (end < |s| ==> !IsSpace(s[end]))
    decreases |s| - p
  {
    if p < |s| && IsSpace(s[p]) then SpaceEnd(s, p + 1) else p
  }

  /** The whole text is an allowed literal. */
  function Exactly(s: string, options: Options): (r: Option<Stamp>) {
    var r := StampAt(s, 0);
    if r.Some? && r.value.next == |s| && Allowed(r.value.stamp, options) then Some(r.value.stamp) else None
  }

  /** The same with white space around it, where that is allowed. */
  function Literal(s: string, options: Options): (r: Option<Stamp>) {
    var p := SpaceEnd(s, 0);
    var r := StampAt(s, p);
    if r.None? || !Allowed(r.value.stamp, options) || SpaceEnd(s, r.value.next) != |s| then None
    else if !options.outerSpace && (p != 0 || r.value.next != |s|) then None
    else Some(r.value.stamp)
  }

  /** Whatever the exact reading accepts, the general one accepts as the same. */
  lemma ExactIsLiteral(s: string, options: Options)
    requires Exactly(s, options).Some?
    ensures Literal(s, options) == Exactly(s, options)
  {
    assert DateAt(s, 0).Some?;
    assert DigitAt(s, 0);
    assert !IsSpace(s[0]);
    assert SpaceEnd(s, 0) == 0 && SpaceEnd(s, |s|) == |s|;
  }

  // ---------------------------------------------------------------- the parsers

  /** src/lql_temporal.c:15-36. */
  method ParseDigits(s: string, p: nat, n: nat) returns (ok: bool, value: int, next: nat)
    ensures ok <==> p + n <= |s| && AllDigits(s[p..p + n])
    ensures ok ==> next == p + n && value == NatOf(s[p..p + n])
  {
    value, next := 0, p;
    for i := 0 to n
      invariant next == p + i && (i > 0 ==> next <= |s|)
      invariant p <= |s| ==> next <= |s| && AllDigits(s[p..next]) && value == NatOf(s[p..next])
    {
      if next >= |s| {
        return false, 0, p;
      }
      if !IsDigit(s[next]) {
        assert p + n <= |s| ==> s[p..p + n][i] == s[next];
        return false, 0, p;
      }
      assert s[p..next + 1] == s[p..next] + [s[next]];
      NatOfSnoc(s[p..next], s[next]);
      value := value * 10 + DigitValue(s[next]);
      next := next + 1;
    }
    ok := next <= |s|;
  }

  lemma TwoDigits(s: string, p: nat)
    ensures TwoAt(s, p).Some? <==> p + 2 <= |s| && AllDigits(s[p..p + 2])
    ensures TwoAt(s, p).Some? ==> TwoAt(s, p).value == NatOf(s[p..p + 2])
  {
    if p + 2 <= |s| {
      var t := s[p..p + 2];
      assert t[0] == s[p] && t[1] == s[p + 1];
      assert t == [] + [t[0]] + [t[1]];
      NatOfSnoc([], t[0]);
      NatOfSnoc([] + [t[0]], t[1]);
    }
  }

  lemma FourDigits(s: string, p: nat)
    ensures FourAt(s, p).Some? <==> p + 4 <= |s| && AllDigits(s[p..p + 4])
    ensures FourAt(s, p).Some? ==> FourAt(s, p).value == NatOf(s[p..p + 4])
  {
    TwoDigits(s, p);
    TwoDigits(s, p + 2);
    if p + 4 <= |s| {
      var a, b := s[p..p + 2], s[p + 2..p + 4];
      assert s[p..p + 4] == a + b;
      assert AllDigits(a + b) <==> AllDigits(a) && AllDigits(b) by {
        assert forall i :: 0 <= i < 2 ==> (a + b)[i] == a[i] && (a + b)[i + 2] == b[i];
      }
      NatOfConcat(a, b);
      assert Pow10(2) == 10 * Pow10(1) && Pow10(1) == 10 * Pow10(0);
    }
  }

  /** The loops of src/lql_temporal.c:192-210 and 294-309: digits beyond the ninth are dropped, missing ones are zero. */
  method ParseFraction(s: string, p: nat) returns (ok: bool, nanos: int, next: nat)
    requires p <= |s|
    ensures ok <==> FractionAt(s, p).Some?
    ensures ok ==> nanos == Nanoseconds(FractionAt(s, p).value) && next == p + FractionLength(FractionAt(s, p).value)
  {
    hide NatOf, Pow10;
    nanos, next := 0, p;
    NoFraction();
    if !IsAt(s, p, '.') {
      return true, 0, p;
    }
    next := p + 1;
    if !DigitAt(s, next) {
      return false, 0, next;
    }
    var digits := 0;
    assert s[p + 1..p + 1] == "";
    while DigitAt(s, next)
      invariant p + 1 <= next <= |s| && digits == next - (p + 1)
      invariant JsonNumber.DigitsEnd(s, next) == JsonNumber.DigitsEnd(s, p + 1)
      invariant nanos == NatOf(s[p + 1..p + 1 + Min9(digits)])
      decreases |s| - next
    {
      if digits < 9 {
        assert s[p + 1..next + 1] == s[p + 1..next] + [s[next]];
        NatOfSnoc(s[p + 1..next], s[next]);
        nanos := nanos * 10 + DigitValue(s[next]);
      }
      next := next + 1;
      digits := digits + 1;
    }
    ghost var fraction := s[p + 1..next];
    SliceOfSlice(s, p + 1, next, Min9(digits));
    nanos := PadNanos(nanos, digits);
    ok := true;
  }

  lemma SliceOfSlice(s: string, a: nat, b: nat, n: nat)
    requires a <= b <= |s| && n <= b - a
    ensures s[a..b][..n] == s[a..a + n]
  {
  }

  lemma NoFraction()
    ensures Nanoseconds("") == 0
  {
    assert ""[..0] == "";
  }

  method PadNanos(nanos: int, digits: nat) returns (padded: int)
    ensures padded == nanos * Pow10(9 - Min9(digits))
  {
    padded := nanos;
    ghost var zeroes := 0;
    var n: int := digits;
    while n < 9
      invariant zeroes <= 9 - Min9(digits) && n == (if digits < 9 then digits + zeroes else digits)
      invariant padded == nanos * Pow10(zeroes)
      decreases 9 - n
    {
      TenTimes(nanos, Pow10(zeroes));
      padded := padded * 10;
      n := n + 1;
      zeroes := zeroes + 1;
    }
  }

  lemma TenTimes(a: int, b: int)
    ensures a * b * 10 == a * (10 * b)
  {
  }

  /** src/lql_temporal.c:141-239. */
  method ParseFast(s: string, options: Options) returns (ok: bool, value: Temporal)
    ensures ok <==> Exactly(s, options).Some?
    ensures ok ==> value == Meaning(Exactly(s, options).value)
  {
    hide DaysFromCivil, Nanoseconds;
    value := Temporal(Date(0, 0, 0), false, 0, 0);
    if |s| != 10 && |s| < 19 {
      return false, value;
    }
    var date := DateAt(s, 0);
    if date.None? {
      return false, value;
    }
    if |s| == 10 {
      if !options.dateOnly {
        return false, value;
      }
      return true, Temporal(date.value, true, DaysFromCivil(date.value) * DAY, 0);
    }
    if !IsAt(s, 10, 'T') {
      return false, value;
    }
    var h, m, sec := TwoAt(s, 11), TwoAt(s, 14), TwoAt(s, 17);
    if h.None? || s[13] != ':' || m.None? || s[16] != ':' || sec.None? || h.value > 23 || m.value > 59 || sec.value > 59 {
      return false, value;
    }
    var nanos, next;
    ok, nanos, next := ParseFraction(s, 19);
    if !ok {
      return false, value;
    }
    var offset, naive;
    ok, offset, naive, next := ZoneFast(s, next);
    if !ok || (naive && !options.naive) || next != |s| {
      return false, value;
    }
    value := Temporal(date.value, false,
                      DaysFromCivil(date.value) * DAY + (h.value * 3600 + m.value * 60 + sec.value - offset), nanos);
  }

  /** src/lql_temporal.c:211-226. */
  method ZoneFast(s: string, p: nat) returns (ok: bool, offset: int, naive: bool, next: nat)
    requires p <= |s|
    ensures ok <==> ZoneAt(s, p).Some?
    ensures ok ==> var z := ZoneAt(s, p).value; offset == Offset(z.zone) && naive == z.zone.Naive? && next == z.next
  {
    if IsAt(s, p, 'Z') {
      return true, 0, false, p + 1;
    }
    if !IsAt(s, p, '+') && !IsAt(s, p, '-') {
      return true, 0, true, p;
    }
    var sign := if s[p] == '-' then -1 else 1;
    if |s| - (p + 1) < 5 {
      return false, 0, false, p;
    }
    var h, m := TwoAt(s, p + 1), TwoAt(s, p + 4);
    if h.None? || s[p + 3] != ':' || m.None? || h.value > 23 || m.value > 59 {
      return false, 0, false, p;
    }
    SignedOffset(sign, h.value * 3600 + m.value * 60);
    return true, sign * (h.value * 3600 + m.value * 60), false, p + 6;
  }

  lemma SignedOffset(sign: int, x: int)
    ensures sign == 1 ==> sign * x == x
    ensures sign == -1 ==> sign * x == -x
  {
  }

  /** src/lql_temporal.c:241-352 after the fast parser has failed. */
  method ParseSlow(s: string, options: Options) returns (ok: bool, value: Temporal)
    ensures ok <==> Literal(s, options).Some?
    ensures ok ==> value == Meaning(Literal(s, options).value)
  {
    hide DaysFromCivil, Nanoseconds, TimeAt, DateAt;
    value := Temporal(Date(0, 0, 0), false, 0, 0);
    if !options.outerSpace && |s| > 0 && IsSpace(s[0]) {
      return false, value;
    }
    var p := SkipSpace(s, 0);
    var date;
    ok, date := ParseDate(s, p);
    if !ok {
      return false, value;
    }
    var next := p + 10;
    if !IsAt(s, next, 'T') {
      if next < |s| && IsSpace(s[next]) {
        if !options.outerSpace {
          return false, value;
        }
      }
      next := SkipSpace(s, next);
      if next != |s| || !options.dateOnly {
        return false, value;
      }
      return true, Temporal(date, true, DaysFromCivil(date) * DAY, 0);
    }
    var seconds, nanos, naive;
    ok, seconds, nanos, naive, next := ParseTime(s, p + 11, date);
    if !ok || (naive && !options.naive) {
      return false, value;
    }
    if !options.outerSpace && next < |s| && IsSpace(s[next]) {
      return false, value;
    }
    next := SkipSpace(s, next);
    if next != |s| {
      return false, value;
    }
    value := Temporal(date, false, DaysFromCivil(date) * DAY + seconds, nanos);
  }

  method SkipSpace(s: string, p: nat) returns (next: nat)
    requires p <= |s|
    ensures next == SpaceEnd(s, p) && p <= next <= |s|
  {
    next := p;
    while next < |s| && IsSpace(s[next])
      invariant p <= next <= |s| && SpaceEnd(s, next) == SpaceEnd(s, p)
    {
      next := next + 1;
    }
  }

  /** src/lql_temporal.c:268-272. */
  method ParseDate(s: string, p: nat) returns (ok: bool, date: Date)
    ensures ok <==> DateAt(s, p).Some?
    ensures ok ==> date == DateAt(s, p).value
  {
    hide NatOf, AllDigits;
    FourDigits(s, p);
    TwoDigits(s, p + 5);
    TwoDigits(s, p + 8);
    date := Date(0, 0, 0);
    var y, m, d, next;
    ok, y, next := ParseDigits(s, p, 4);
    if !ok || !IsAt(s, next, '-') {
      return false, date;
    }
    ok, m, next := ParseDigits(s, next + 1, 2);
    if !ok || !IsAt(s, next, '-') {
      return false, date;
    }
    ok, d, next := ParseDigits(s, next + 1, 2);
    if !ok || !ValidYmd(Date(y, m, d)) {
      return false, date;
    }
    date := Date(y, m, d);
  }

  /** src/lql_temporal.c:298-337. */
  method ParseTime(s: string, p: nat, ghost date: Date) returns (ok: bool, seconds: int, nanos: int, naive: bool, next: nat)
    ensures ok <==> TimeAt(s, p, date).Some?
    ensures ok ==> var t := TimeAt(s, p, date).value;
      && seconds == t.stamp.hour * 3600 + t.stamp.minute * 60 + t.stamp.second - Offset(t.stamp.zone)
      && nanos == Nanoseconds(t.stamp.fraction) && naive == t.stamp.zone.Naive? && next == t.next
  {
    hide NatOf, AllDigits, Nanoseconds, ZoneAt, FractionAt;
    TwoDigits(s, p);
    TwoDigits(s, p + 3);
    TwoDigits(s, p + 6);
    seconds, nanos, naive, next := 0, 0, false, p;
    var h, m, sec;
    ok, h, next := ParseDigits(s, p, 2);
    if !ok || !IsAt(s, next, ':') {
      return false, 0, 0, false, p;
    }
    ok, m, next := ParseDigits(s, next + 1, 2);
    if !ok || !IsAt(s, next, ':') {
      return false, 0, 0, false, p;
    }
    ok, sec, next := ParseDigits(s, next + 1, 2);
    if !ok || h > 23 || m > 59 || sec > 59 {
      return false, 0, 0, false, p;
    }
    ok, nanos, next := ParseFraction(s, next);
    if !ok {
      return;
    }
    var offset;
    ok, offset, naive, next := ZoneSlow(s, next);
    seconds := h * 3600 + m * 60 + sec - offset;
  }

  /** src/lql_temporal.c:318-329. */
  method ZoneSlow(s: string, p: nat) returns (ok: bool, offset: int, naive: bool, next: nat)
    requires p <= |s|
    ensures ok <==> ZoneAt(s, p).Some?
    ensures ok ==> var z := ZoneAt(s, p).value; offset == Offset(z.zone) && naive == z.zone.Naive? && next == z.next
  {
    hide NatOf, AllDigits;
    TwoDigits(s, p + 1);
    TwoDigits(s, p + 4);
    if IsAt(s, p, 'Z') {
      return true, 0, false, p + 1;
    }
    if !IsAt(s, p, '+') && !IsAt(s, p, '-') {
      return true, 0, true, p;
    }
    var sign := if s[p] == '-' then -1 else 1;
    var h, m;
    ok, h, next := ParseDigits(s, p + 1, 2);
    if !ok || !IsAt(s, next, ':') {
      return false, 0, false, p;
    }
    ok, m, next := ParseDigits(s, next + 1, 2);
    if !ok || h > 23 || m > 59 {
      return false, 0, false, p;
    }
    SignedOffset(sign, h * 3600 + m * 60);
    return true, sign * (h * 3600 + m * 60), false, next;
  }

  /** src/lql_temporal.c:241-352: the general parser tries the fast one first. */
  method Parse(s: string, options: Options) returns (ok: bool, value: Temporal)
    ensures ok <==> Literal(s, options).Some?
    ensures ok ==> value == Meaning(Literal(s, options).value)
  {
    hide Literal, Exactly, Meaning;
    ok, value := ParseFast(s, options);
    if ok {
      ExactIsLiteral(s, options);
      return;
    }
    ok, value := ParseSlow(s, options);
  }

  // ---------------------------------------------------------------- writing a literal

  function Two(n: int): (r: string)
    requires 0 <= n <= 99
    ensures |r| == 2 && TwoAt(r, 0) == Some(n)
  {
    [DigitChar(n / 10), DigitChar(n % 10)]
  }

  function Four(n: int): (r: string)
    requires 0 <= n <= 9999
    ensures |r| == 4
  {
    Two(n / 100) + Two(n % 100)
  }

  function DateText(date: Date): (r: string)
    requires 0 <= date.year <= 9999 && ValidYmd(date)
    ensures |r| == 10
  {
    MonthIsTwoDigits(date);
    Four(date.year) + "-" + Two(date.month) + "-" + Two(date.day)
  }

  lemma MonthIsTwoDigits(date: Date)
    requires ValidYmd(date)
    ensures 1 <= date.month <= 99 && 1 <= date.day <= 99
  {
  }

  predicate WellFormedStamp(stamp: Stamp) {
    && 0 <= stamp.date.year <= 9999 && ValidYmd(stamp.date)
    && (stamp.Instant? ==>
          && 0 <= stamp.hour <= 23 && 0 <= stamp.minute <= 59 && 0 <= stamp.second <= 59 && AllDigits(stamp.fraction)
          && (stamp.zone.Shifted? ==> 0 <= stamp.zone.hours <= 23 && 0 <= stamp.zone.minutes <= 59))
  }

  function ZoneText(zone: Zone): string
    requires zone.Shifted? ==> 0 <= zone.hours <= 23 && 0 <= zone.minutes <= 59
  {
    match zone
    case Utc => "Z"
    case Shifted(negative, h, m) => (if negative then "-" else "+") + Two(h) + ":" + Two(m)
    case Naive => ""
  }

  function FractionText(fraction: string): string { if fraction == "" then "" else "." + fraction }

  function ClockText(h: int, m: int, sec: int): (r: string)
    requires 0 <= h <= 23 && 0 <= m <= 59 && 0 <= sec <= 59
    ensures |r| == 8
  {
    Two(h) + ":" + Two(m) + ":" + Two(sec)
  }

  /** The text of a literal (section 5.6 of RFC 3339, with the extensions the options name). */
  function Print(stamp: Stamp): string
    requires WellFormedStamp(stamp)
  {
    match stamp
    case Day(date) => DateText(date)
    case Instant(date, h, m, sec, fraction, zone) =>
      DateText(date) + "T" + ClockText(h, m, sec) + FractionText(fraction) + ZoneText(zone)
  }

  /** b lies in s from p on. */
  predicate Holds(s: string, p: nat, b: string) { p + |b| <= |s| && s[p..p + |b|] == b }

  lemma HoldsJoin(s: string, p: nat, a: string, b: string)
    ensures Holds(s, p, a + b) <==> Holds(s, p, a) && Holds(s, p + |a|, b)
  {
    if Holds(s, p, a + b) {
      assert s[p..p + |a|] == s[p..p + |a + b|][..|a|] == (a + b)[..|a|] == a;
      assert s[p + |a|..p + |a| + |b|] == s[p..p + |a + b|][|a|..] == (a + b)[|a|..] == b;
    }
    if Holds(s, p, a) && Holds(s, p + |a|, b) {
      assert s[p..p + |a + b|] == s[p..p + |a|] + s[p + |a|..p + |a| + |b|];
    }
  }

  lemma HoldsByte(s: string, p: nat, b: string, i: nat)
    requires Holds(s, p, b) && i < |b|
    ensures p + i < |s| && s[p + i] == b[i]
  {
    assert s[p..p + |b|][i] == s[p + i];
  }

  lemma TwoIsRead(s: string, p: nat, n: int)
    requires 0 <= n <= 99 && Holds(s, p, Two(n))
    ensures TwoAt(s, p) == Some(n)
  {
    HoldsByte(s, p, Two(n), 0);
    HoldsByte(s, p, Two(n), 1);
  }

  lemma FourIsRead(s: string, p: nat, n: int)
    requires 0 <= n <= 9999 && Holds(s, p, Four(n))
    ensures FourAt(s, p) == Some(n)
  {
    HoldsJoin(s, p, Two(n / 100), Two(n % 100));
    TwoIsRead(s, p, n / 100);
    TwoIsRead(s, p + 2, n % 100);
  }

  lemma DateIsRead(s: string, p: nat, date: Date)
    requires 0 <= date.year <= 9999 && ValidYmd(date) && Holds(s, p, DateText(date))
    ensures DateAt(s, p) == Some(date)
  {
    hide Four, Two, Holds, ValidYmd, FourAt, TwoAt;
    MonthIsTwoDigits(date);
    var y, m, d := Four(date.year), Two(date.month), Two(date.day);
    HoldsJoin(s, p, y + "-" + m + "-", d);
    HoldsJoin(s, p, y + "-" + m, "-");
    HoldsJoin(s, p, y + "-", m);
    HoldsJoin(s, p, y, "-");
    HoldsByte(s, p + 4, "-", 0);
    HoldsByte(s, p + 7, "-", 0);
    FourIsRead(s, p, date.year);
    TwoIsRead(s, p + 5, date.month);
    TwoIsRead(s, p + 8, date.day);
  }

  lemma ZoneIsRead(s: string, p: nat, zone: Zone)
    requires zone.Shifted? ==> 0 <= zone.hours <= 23 && 0 <= zone.minutes <= 59
    requires Holds(s, p, ZoneText(zone)) && p + |ZoneText(zone)| == |s|
    ensures ZoneAt(s, p) == Some(ZoneEnd(zone, |s|)) && !DigitAt(s, p) && !IsAt(s, p, '.')
  {
    hide Two, Holds, TwoAt;
    if zone.Utc? {
      HoldsByte(s, p, "Z", 0);
    } else if zone.Shifted? {
      var sign := if zone.negative then "-" else "+";
      HoldsJoin(s, p, sign + Two(zone.hours) + ":", Two(zone.minutes));
      HoldsJoin(s, p, sign + Two(zone.hours), ":");
      HoldsJoin(s, p, sign, Two(zone.hours));
      HoldsByte(s, p, sign, 0);
      HoldsByte(s, p + 3, ":", 0);
      TwoIsRead(s, p + 1, zone.hours);
      TwoIsRead(s, p + 4, zone.minutes);
    }
  }

  lemma FractionIsRead(s: string, p: nat, fraction: string)
    requires AllDigits(fraction) && Holds(s, p, FractionText(fraction))
    requires var q := p + |FractionText(fraction)|; !DigitAt(s, q) && !IsAt(s, q, '.')
    ensures FractionAt(s, p) == Some(fraction) && |FractionText(fraction)| == FractionLength(fraction)
  {
    if fraction != "" {
      var f := "." + fraction;
      HoldsByte(s, p, f, 0);
      HoldsByte(s, p, f, 1);
      var end := p + |f|;
      forall i | p + 1 <= i < end ensures IsDigit(s[i]) {
        HoldsByte(s, p, f, i - p);
      }
      JsonNumber.DigitsEndIs(s, p + 1, end);
      assert s[p + 1..end] == s[p..end][1..] == fraction;
    }
  }

  lemma ClockIsRead(s: string, p: nat, h: int, m: int, sec: int)
    requires 0 <= h <= 23 && 0 <= m <= 59 && 0 <= sec <= 59 && Holds(s, p, ClockText(h, m, sec))
    ensures TwoAt(s, p) == Some(h) && TwoAt(s, p + 3) == Some(m) && TwoAt(s, p + 6) == Some(sec)
    ensures IsAt(s, p + 2, ':') && IsAt(s, p + 5, ':')
  {
    hide Two, Holds, TwoAt;
    HoldsJoin(s, p, Two(h) + ":" + Two(m) + ":", Two(sec));
    HoldsJoin(s, p, Two(h) + ":" + Two(m), ":");
    HoldsJoin(s, p, Two(h) + ":", Two(m));
    HoldsJoin(s, p, Two(h), ":");
    HoldsByte(s, p + 2, ":", 0);
    HoldsByte(s, p + 5, ":", 0);
    TwoIsRead(s, p, h);
    TwoIsRead(s, p + 3, m);
    TwoIsRead(s, p + 6, sec);
  }

  /** Reading a printed literal gives it back, field by field and to the last byte. */
  lemma ReadingInvertsPrinting(stamp: Stamp, options: Options)
    requires WellFormedStamp(stamp) && Allowed(stamp, options)
    ensures Exactly(Print(stamp), options) == Some(stamp)
  {
    hide DateText, ClockText, FractionText, ZoneText, Holds, ValidYmd, TwoAt, ZoneAt, FractionAt, DateAt;
    var s := Print(stamp);
    WholeHolds(s);
    if stamp.Day? {
      DateIsRead(s, 0, stamp.date);
    } else {
      var d, c, f, z := DateText(stamp.date), ClockText(stamp.hour, stamp.minute, stamp.second), FractionText(stamp.fraction), ZoneText(stamp.zone);
      HoldsJoin(s, 0, d + "T" + c + f, z);
      HoldsJoin(s, 0, d + "T" + c, f);
      HoldsJoin(s, 0, d + "T", c);
      HoldsJoin(s, 0, d, "T");
      HoldsByte(s, 10, "T", 0);
      DateIsRead(s, 0, stamp.date);
      ClockIsRead(s, 11, stamp.hour, stamp.minute, stamp.second);
      ZoneIsRead(s, 19 + |f|, stamp.zone);
      FractionIsRead(s, 19, stamp.fraction);
    }
  }

  // ---------------------------------------------------------------- what is read is what is printed

  lemma TwoIsPrinted(s: string, p: nat)
    requires TwoAt(s, p).Some?
    ensures Holds(s, p, Two(TwoAt(s, p).value))
  {
    assert s[p..p + 2] == [s[p], s[p + 1]];
  }

  lemma FourIsPrinted(s: string, p: nat)
    requires FourAt(s, p).Some?
    ensures Holds(s, p, Four(FourAt(s, p).value))
  {
    hide Two, TwoAt, Holds;
    TwoIsPrinted(s, p);
    TwoIsPrinted(s, p + 2);
    HoldsJoin(s, p, Two(TwoAt(s, p).value), Two(TwoAt(s, p + 2).value));
  }

  lemma ByteIsPrinted(s: string, p: nat, c: char)
    requires IsAt(s, p, c)
    ensures Holds(s, p, [c])
  {
  }

  lemma DateIsPrinted(s: string, p: nat)
    requires DateAt(s, p).Some?
    ensures 0 <= DateAt(s, p).value.year <= 9999 && Holds(s, p, DateText(DateAt(s, p).value))
  {
    hide Four, Two, Holds, ValidYmd, FourAt, TwoAt;
    var date := DateAt(s, p).value;
    MonthIsTwoDigits(date);
    var y, m, d := Four(date.year), Two(date.month), Two(date.day);
    FourIsPrinted(s, p);
    ByteIsPrinted(s, p + 4, '-');
    TwoIsPrinted(s, p + 5);
    ByteIsPrinted(s, p + 7, '-');
    TwoIsPrinted(s, p + 8);
    HoldsJoin(s, p, y, "-");
    HoldsJoin(s, p, y + "-", m);
    HoldsJoin(s, p, y + "-" + m, "-");
    HoldsJoin(s, p, y + "-" + m + "-", d);
  }

  lemma ClockIsPrinted(s: string, p: nat, h: int, m: int, sec: int)
    requires 0 <= h <= 23 && 0 <= m <= 59 && 0 <= sec <= 59
    requires TwoAt(s, p) == Some(h) && TwoAt(s, p + 3) == Some(m) && TwoAt(s, p + 6) == Some(sec)
    requires IsAt(s, p + 2, ':') && IsAt(s, p + 5, ':')
    ensures Holds(s, p, ClockText(h, m, sec))
  {
    hide Two, Holds, TwoAt;
    TwoIsPrinted(s, p);
    ByteIsPrinted(s, p + 2, ':');
    TwoIsPrinted(s, p + 3);
    ByteIsPrinted(s, p + 5, ':');
    TwoIsPrinted(s, p + 6);
    HoldsJoin(s, p, Two(h), ":");
    HoldsJoin(s, p, Two(h) + ":", Two(m));
    HoldsJoin(s, p, Two(h) + ":" + Two(m), ":");
    HoldsJoin(s, p, Two(h) + ":" + Two(m) + ":", Two(sec));
  }

  lemma FractionIsPrinted(s: string, p: nat)
    requires p <= |s| && FractionAt(s, p).Some?
    ensures var f := FractionAt(s, p).value; AllDigits(f) && Holds(s, p, FractionText(f)) && |FractionText(f)| == FractionLength(f)
  {
    var f := FractionAt(s, p).value;
    if f != "" {
      assert s[p..p + 1 + |f|] == "." + f;
    }
  }

  lemma ZoneIsPrinted(s: string, p: nat)
    requires p <= |s| && ZoneAt(s, p).Some?
    ensures var z := ZoneAt(s, p).value;
      && (z.zone.Shifted? ==> 0 <= z.zone.hours <= 23 && 0 <= z.zone.minutes <= 59)
      && Holds(s, p, ZoneText(z.zone)) && p + |ZoneText(z.zone)| == z.next
  {
    hide Two, Holds, TwoAt;
    var zone := ZoneAt(s, p).value.zone;
    if zone.Shifted? {
      var sign := if zone.negative then "-" else "+";
      ByteIsPrinted(s, p, s[p]);
      TwoIsPrinted(s, p + 1);
      ByteIsPrinted(s, p + 3, ':');
      TwoIsPrinted(s, p + 4);
      HoldsJoin(s, p, sign, Two(zone.hours));
      HoldsJoin(s, p, sign + Two(zone.hours), ":");
      HoldsJoin(s, p, sign + Two(zone.hours) + ":", Two(zone.minutes));
    } else if zone.Utc? {
      ByteIsPrinted(s, p, 'Z');
    } else {
      NothingHolds(s, p);
    }
  }

  lemma NothingHolds(s: string, p: nat)
    requires p <= |s|
    ensures Holds(s, p, "")
  {
  }

  /** An accepted text is the print of what it says, so no two texts say the same. */
  lemma PrintingInvertsReading(s: string, options: Options)
    requires Exactly(s, options).Some?
    ensures WellFormedStamp(Exactly(s, options).value) && Print(Exactly(s, options).value) == s
  {
    hide DateText, ClockText, FractionText, ZoneText, Holds, ValidYmd, TwoAt, ZoneAt, FractionAt, DateAt;
    var stamp := Exactly(s, options).value;
    DateIsPrinted(s, 0);
    var d := DateText(stamp.date);
    if stamp.Day? {
      HoldsWhole(s, d);
    } else {
      var z := 19 + FractionLength(stamp.fraction);
      ByteIsPrinted(s, 10, 'T');
      ClockIsPrinted(s, 11, stamp.hour, stamp.minute, stamp.second);
      FractionIsPrinted(s, 19);
      ZoneIsPrinted(s, z);
      var c, f := ClockText(stamp.hour, stamp.minute, stamp.second), FractionText(stamp.fraction);
      HoldsJoin(s, 0, d, "T");
      HoldsJoin(s, 0, d + "T", c);
      HoldsJoin(s, 0, d + "T" + c, f);
      HoldsJoin(s, 0, d + "T" + c + f, ZoneText(stamp.zone));
      HoldsWhole(s, Print(stamp));
    }
  }

  lemma HoldsWhole(s: string, b: string)
    requires Holds(s, 0, b) && |b| == |s|
    ensures s == b
  {
    assert s[0..|s|] == s;
  }

  // ---------------------------------------------------------------- what zones and fractions mean

  /** A date and a time of day, with any fraction and no zone. */
  function LocalText(date: Date, h: int, m: int, sec: int, fraction: string): string
    requires 0 <= date.year <= 9999 && ValidYmd(date) && 0 <= h <= 23 && 0 <= m <= 59 && 0 <= sec <= 59
  {
    DateText(date) + "T" + ClockText(h, m, sec) + FractionText(fraction)
  }

  /** East of Greenwich it is earlier in UTC by the offset, west of it later; without a zone it is UTC. */
  lemma ZonesShift(date: Date, h: int, m: int, sec: int, fraction: string, hh: int, mm: int, options: Options)
    requires 0 <= date.year <= 9999 && ValidYmd(date) && 0 <= h <= 23 && 0 <= m <= 59 && 0 <= sec <= 59 && AllDigits(fraction)
    requires 0 <= hh <= 23 && 0 <= mm <= 59
    ensures var local := LocalText(date, h, m, sec, fraction);
      var utc := Literal(local + "Z", options);
      var east := Literal(local + "+" + Two(hh) + ":" + Two(mm), options);
      var west := Literal(local + "-" + Two(hh) + ":" + Two(mm), options);
      && utc.Some? && east.Some? && west.Some?
      && Meaning(east.value) == Meaning(utc.value).(seconds := Meaning(utc.value).seconds - (hh * 3600 + mm * 60))
      && Meaning(west.value) == Meaning(utc.value).(seconds := Meaning(utc.value).seconds + (hh * 3600 + mm * 60))
      && (options.naive ==> Literal(local, options).Some? && Meaning(Literal(local, options).value) == Meaning(utc.value))
  {
    hide Exactly, Literal, ClockText, Two, FractionText, DateText, Nanoseconds, DaysFromCivil, ValidYmd;
    var local := LocalText(date, h, m, sec, fraction);
    ZoneIsTaken(date, h, m, sec, fraction, Utc, options);
    ZoneIsTaken(date, h, m, sec, fraction, Shifted(false, hh, mm), options);
    ZoneIsTaken(date, h, m, sec, fraction, Shifted(true, hh, mm), options);
    assert local + "+" + Two(hh) + ":" + Two(mm) == local + ("+" + Two(hh) + ":" + Two(mm));
    assert local + "-" + Two(hh) + ":" + Two(mm) == local + ("-" + Two(hh) + ":" + Two(mm));
    if options.naive {
      ZoneIsTaken(date, h, m, sec, fraction, Naive, options);
      assert local + "" == local;
    }
  }

  lemma ZoneIsTaken(date: Date, h: int, m: int, sec: int, fraction: string, zone: Zone, options: Options)
    requires 0 <= date.year <= 9999 && ValidYmd(date) && 0 <= h <= 23 && 0 <= m <= 59 && 0 <= sec <= 59 && AllDigits(fraction)
    requires zone.Shifted? ==> 0 <= zone.hours <= 23 && 0 <= zone.minutes <= 59
    requires zone.Naive? ==> options.naive
    ensures Literal(LocalText(date, h, m, sec, fraction) + ZoneText(zone), options) == Some(Instant(date, h, m, sec, fraction, zone))
  {
    hide Exactly, Literal, ClockText, FractionText, DateText, ZoneText, ValidYmd;
    var stamp := Instant(date, h, m, sec, fraction, zone);
    ReadingInvertsPrinting(stamp, options);
    ExactIsLiteral(Print(stamp), options);
  }

  predicate Run(s: string, n: nat) { |s| == n && AllDigits(s) }

  lemma TwoPrints(s: string)
    requires Run(s, 2)
    ensures NatOf(s) <= 99 && Two(NatOf(s)) == s
  {
    hide NatOf;
    TwoDigits(s, 0);
    assert s[0..2] == s;
    assert DigitChar(DigitValue(s[0])) == s[0] && DigitChar(DigitValue(s[1])) == s[1];
  }

  lemma FourPrints(s: string)
    requires Run(s, 4)
    ensures NatOf(s) <= 9999 && Four(NatOf(s)) == s
  {
    hide NatOf, Two, DigitValue, DigitChar;
    FourDigits(s, 0);
    TwoDigits(s, 0);
    TwoDigits(s, 2);
    var a, b := s[..2], s[2..];
    assert s[0..4] == s && s[0..2] == a && s[2..4] == b && s == a + b;
    TwoPrints(a);
    TwoPrints(b);
    assert NatOf(s) == NatOf(a) * 100 + NatOf(b);
  }

  /** The fields of a literal: year, month, day, hour, minute and second as their decimal digits say. */
  lemma FieldsAreRead(y: string, mo: string, d: string, h: string, mi: string, sec: string, fraction: string, options: Options)
    requires Run(y, 4) && Run(mo, 2) && Run(d, 2) && ValidYmd(Date(NatOf(y), NatOf(mo), NatOf(d)))
    requires Run(h, 2) && Run(mi, 2) && Run(sec, 2) && NatOf(h) <= 23 && NatOf(mi) <= 59 && NatOf(sec) <= 59
    requires AllDigits(fraction) && |fraction| > 0
    ensures var text := y + "-" + mo + "-" + d + "T" + h + ":" + mi + ":" + sec;
      var date := Date(NatOf(y), NatOf(mo), NatOf(d));
      && Literal(text + "Z", options) == Some(Instant(date, NatOf(h), NatOf(mi), NatOf(sec), "", Utc))
      && Literal(text + "." + fraction + "Z", options) == Some(Instant(date, NatOf(h), NatOf(mi), NatOf(sec), fraction, Utc))
      && (options.dateOnly ==> Literal(y + "-" + mo + "-" + d, options) == Some(Day(date)))
  {
    hide Exactly, Literal, NatOf, Two, Four, ValidYmd;
    var date := Date(NatOf(y), NatOf(mo), NatOf(d));
    FourPrints(y);
    TwoPrints(mo);
    TwoPrints(d);
    TwoPrints(h);
    TwoPrints(mi);
    TwoPrints(sec);
    ZoneIsTaken(date, NatOf(h), NatOf(mi), NatOf(sec), "", Utc, options);
    ZoneIsTaken(date, NatOf(h), NatOf(mi), NatOf(sec), fraction, Utc, options);
    var text := y + "-" + mo + "-" + d + "T" + h + ":" + mi + ":" + sec;
    assert LocalText(date, NatOf(h), NatOf(mi), NatOf(sec), "") == text;
    assert LocalText(date, NatOf(h), NatOf(mi), NatOf(sec), fraction) == text + "." + fraction;
    if options.dateOnly {
      ReadingInvertsPrinting(Day(date), options);
      ExactIsLiteral(Print(Day(date)), options);
    }
  }

  /** A fraction counts in whole nanoseconds: as many as fit into it. */
  lemma NanosecondsFit(fraction: string)
    requires AllDigits(fraction)
    ensures Nanoseconds(fraction) * Pow10(|fraction|) <= NatOf(fraction) * Pow10(9) < (Nanoseconds(fraction) + 1) * Pow10(|fraction|)
  {
    hide NatOf, Pow10;
    var k := |fraction|;
    if k <= 9 {
      assert fraction[..k] == fraction;
      Pow10Sum(k, 9 - k);
      ScaleWhole(NatOf(fraction), Pow10(9 - k), Pow10(k));
    } else {
      var head, tail := fraction[..9], fraction[9..];
      assert fraction == head + tail;
      NatOfConcat(head, tail);
      NatOfBound(tail);
      Pow10Sum(9, k - 9);
      OneTime(NatOf(head));
      ScaleTail(NatOf(head), NatOf(tail), Pow10(9), Pow10(k - 9));
    }
  }

  lemma {:induction false} Pow10Sum(a: nat, b: nat)
    ensures Pow10(a + b) == Pow10(a) * Pow10(b)
    decreases b
  {
    if b > 0 {
      Pow10Sum(a, b - 1);
      Regroup(Pow10(a), Pow10(b - 1));
      assert Pow10(a + b) == 10 * Pow10(a + b - 1);
    }
  }

  lemma ScaleWhole(n: nat, p: nat, q: nat)
    requires q >= 1
    ensures n * p * q == n * (q * p) && n * p * q < (n * p + 1) * q
  {
  }

  lemma ScaleTail(head: nat, tail: nat, p: nat, q: nat)
    requires tail < q && p >= 1
    ensures head * (p * q) <= (head * q + tail) * p < (head + 1) * (p * q)
  {
    assert (head * q + tail) * p == head * (p * q) + tail * p;
    assert (head + 1) * (p * q) == head * (p * q) + p * q;
    TailFits(tail, p, q);
  }

  lemma TailFits(tail: nat, p: nat, q: nat)
    requires tail < q && p >= 1
    ensures tail * p < p * q
  {
  }

  lemma WholeHolds(s: string)
    ensures Holds(s, 0, s)
  {
    assert s[0..|s|] == s;
  }

  // ---------------------------------------------------------------- the formatter

  /** src/lql_temporal.c:431-435: trailing zeroes go. */
  method Trim(digits: string) returns (trimmed: string)
    requires |digits| == 9 && AllDigits(digits)
    ensures AllDigits(trimmed) && |trimmed| <= 9 && Nanoseconds(trimmed) == NatOf(digits)
  {
    hide NatOf, Pow10;
    var len: nat := 9;
    assert digits[..9] == digits;
    OneTime(NatOf(digits));
    while len > 0 && digits[len - 1] == '0'
      invariant len <= 9 && NatOf(digits[..len]) * Pow10(9 - len) == NatOf(digits)
    {
      TrimStep(digits, len);
      len := len - 1;
    }
    trimmed := digits[..len];
    assert trimmed[..Min9(|trimmed|)] == trimmed;
  }

  lemma OneTime(n: nat)
    ensures n * Pow10(0) == n
  {
  }

  lemma TrimStep(digits: string, len: nat)
    requires 0 < len <= 9 == |digits| && digits[len - 1] == '0'
    ensures NatOf(digits[..len - 1]) * Pow10(9 - (len - 1)) == NatOf(digits[..len]) * Pow10(9 - len)
  {
    hide NatOf;
    assert digits[..len] == digits[..len - 1] + [digits[len - 1]];
    NatOfSnoc(digits[..len - 1], digits[len - 1]);
    Regroup(NatOf(digits[..len - 1]), Pow10(9 - len));
  }

  lemma Regroup(a: int, b: int)
    ensures 10 * a * b == a * (10 * b)
  {
  }

  /** The instant in UTC that the seconds name; its fraction is left to the caller. */
  function InUtc(seconds: int, fraction: string): Option<Stamp> {
    var date := CivilFromDays(seconds / DAY);
    var rem := seconds % DAY;
    if date.None? then None
    else Some(Instant(date.value, rem / 3600, rem % 3600 / 60, rem % 3600 % 60, fraction, Utc))
  }

  /** The digits of the nanoseconds without the zeros at their end. */
  method FractionOf(nanoseconds: nat) returns (fraction: string)
    requires nanoseconds <= 999999999
    ensures AllDigits(fraction) && Nanoseconds(fraction) == nanoseconds
  {
    hide Nanoseconds, NatOf;
    fraction := "";
    NoFraction();
    if nanoseconds != 0 {
      NanosFit(nanoseconds);
      ZeroPaddedValue(nanoseconds, 9);
      fraction := Trim(ZeroPadded(nanoseconds, 9));
    }
  }

  /** src/lql_temporal.c:396-438. */
  method Format(value: Temporal, capacity: nat) returns (ok: bool, text: string)
    ensures ok <==> capacity >= 31 && !value.dateOnly && 0 <= value.nanoseconds <= 999999999
                    && CivilFromDays(value.seconds / DAY).Some?
    ensures ok ==> FormattedAs(value, text)
  {
    hide CivilFromDays, DaysFromCivil, Nanoseconds, Print;
    text := "";
    if capacity < 31 || value.dateOnly || value.nanoseconds < 0 || value.nanoseconds > 999999999 {
      return false, text;
    }
    var days := Quotient(value.seconds, DAY);
    var rem := value.seconds - days * DAY;
    if rem < 0 {
      rem := rem + DAY;
      days := days - 1;
    }
    FloorDay(value.seconds);
    var date := CivilFromDays(days);
    if date.None? {
      return false, text;
    }
    DaysInvertCivil(days);
    var h := rem / 3600;
    rem := rem % 3600;
    var m, s := rem / 60, rem % 60;
    var fraction := FractionOf(value.nanoseconds);
    text := Print(Instant(date.value, h, m, s, fraction, Utc));
    ok := true;
    assert PrintedAs(value, text, fraction);
  }

  ghost predicate FormattedAs(value: Temporal, text: string) { exists fraction :: PrintedAs(value, text, fraction) }

  ghost predicate PrintedAs(value: Temporal, text: string, fraction: string) {
    var stamp := InUtc(value.seconds, fraction);
    && stamp.Some? && WellFormedStamp(stamp.value) && text == Print(stamp.value)
    && Nanoseconds(fraction) == value.nanoseconds
  }

  lemma FloorDay(seconds: int)
    ensures var days := Quotient(seconds, DAY); var rem := seconds - days * DAY;
      && (rem < 0 ==> days - 1 == seconds / DAY && rem + DAY == seconds % DAY)
      && (rem >= 0 ==> days == seconds / DAY && rem == seconds % DAY)
  {
  }

  lemma NanosFit(n: int)
    requires 0 <= n <= 999999999
    ensures n < Pow10(9)
  {
    assert Pow10(9) == 10 * Pow10(8) && Pow10(8) == 10 * Pow10(7) && Pow10(7) == 10 * Pow10(6);
    assert Pow10(6) == 10 * Pow10(5) && Pow10(5) == 10 * Pow10(4) && Pow10(4) == 10 * Pow10(3);
    assert Pow10(3) == 10 * Pow10(2) && Pow10(2) == 10 * Pow10(1) && Pow10(1) == 10 * Pow10(0);
  }

  /** What the formatter writes, the RFC 3339 parser reads back as the same instant. */
  lemma FormattingRoundTrips(value: Temporal, text: string)
    requires FormattedAs(value, text)
    ensures Literal(text, RFC3339).Some?
    ensures Meaning(Literal(text, RFC3339).value).seconds == value.seconds
    ensures Meaning(Literal(text, RFC3339).value).nanoseconds == value.nanoseconds
    ensures !Meaning(Literal(text, RFC3339).value).dateOnly
  {
    hide CivilFromDays, DaysFromCivil, Nanoseconds, Print, WellFormedStamp, Literal, Exactly;
    var fraction :| PrintedAs(value, text, fraction);
    var stamp := InUtc(value.seconds, fraction).value;
    ReadingInvertsPrinting(stamp, RFC3339);
    ExactIsLiteral(text, RFC3339);
    DaysInvertCivil(value.seconds / DAY);
    var rem := value.seconds % DAY;
    assert rem == rem / 3600 * 3600 + rem % 3600 / 60 * 60 + rem % 3600 % 60;
  }
}
