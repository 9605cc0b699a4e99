/** The proleptic Gregorian calendar of src/lql_temporal.c:66-122: days since 1970-01-01 and back. */
module Calendar {
  import opened Wrappers

  datatype Date = Date(year: int, month: int, day: int)

  // ---------------------------------------------------------------- the calendar, counted day by day

  predicate IsLeap(y: int) { (y % 4 == 0 && y % 100 != 0) || y % 400 == 0 }

  function MonthLength(y: int, m: int): int {
    if m == 2 then (if IsLeap(y) then 29 else 28) else if m == 4 || m == 6 || m == 9 || m == 11 then 30 else 31
  }

  /** src/lql_temporal.c:66-79. */
  predicate ValidYmd(date: Date) {
    1 <= date.month <= 12 && 1 <= date.day <= MonthLength(date.year, date.month)
  }

  /** The days of the years from 0 up to y. */
  function DaysOfYears(y: nat): int {
    if y == 0 then 0 else DaysOfYears(y - 1) + (if IsLeap(y - 1) then 366 else 365)
  }

  /** The days of the months before m. */
  function DaysOfMonths(y: int, m: int): int {
    if m <= 1 then 0 else DaysOfMonths(y, m - 1) + MonthLength(y, m - 1)
  }

  /** The number of a day, from the first of January of year 0 on. */
  function DayNumber(date: Date): int
    requires date.year >= 0
  {
    DaysOfYears(date.year) + DaysOfMonths(date.year, date.month) + date.day - 1
  }

  predicate Before(a: Date, b: Date) {
    a.year < b.year || (a.year == b.year && (a.month < b.month || (a.month == b.month && a.day < b.day)))
  }

  // ---------------------------------------------------------------- the code

  /** C division, which truncates toward zero. */
  function Quotient(a: int, b: int): int
    requires b > 0
  {
    if a >= 0 then a / b else -((-a) / b)
  }

  /** src/lql_temporal.c:81-92. */
  function DaysFromCivil(date: Date): int {
    var y := if date.month <= 2 then date.year - 1 else date.year;
    var era := Quotient(if y >= 0 then y else y - 399, 400);
    var yoe := y - era * 400;
    var doy := (153 * (date.month + (if date.month > 2 then -3 else 9)) + 2) / 5 + date.day - 1;
    var doe := yoe * 365 + yoe / 4 - yoe / 100 + doy;
    era * 146097 + doe - 719468
  }

  /** src/lql_temporal.c:107: the year that a day of an era is in. */
  function YearOfEra(doe: int): int { (doe - doe / 1460 + doe / 36524 - doe / 146096) / 365 }

  /** src/lql_temporal.c:94-122. */
  function CivilFromDays(days: int): Option<Date> {
    var z := days + 719468;
    var era := Quotient(if z >= 0 then z else z - 146096, 146097);
    var doe := z - era * 146097;
    var yoe := YearOfEra(doe);
    var doy := doe - (365 * yoe + yoe / 4 - yoe / 100);
    var mp := (5 * doy + 2) / 153;
    var d := doy - (153 * mp + 2) / 5 + 1;
    var m := if mp < 10 then mp + 3 else mp - 9;
    var y := yoe + era * 400 + (if m <= 2 then 1 else 0);
    if y < 0 || y > 9999 then None else Some(Date(y, m, d))
  }

  // ---------------------------------------------------------------- years that start in March

  /** The days before the first of March of year y, for a year counted from its March. */
  function MarchDays(y: int): int { 365 * y + y / 4 - y / 100 + y / 400 }

  lemma FloorQuotient(a: int, b: int)
    requires b > 1
    ensures Quotient(if a >= 0 then a else a - (b - 1), b) == a / b
  {
    if a < 0 {
      var n := -(a - (b - 1));
      assert a == a / b * b + a % b;
      assert n == -(a / b) * b + (b - 1 - a % b);
      assert n / b == -(a / b) by {
        QuotientIs(n, b, -(a / b), b - 1 - a % b);
      }
    }
  }

  lemma QuotientIs(n: int, b: int, q: int, r: int)
    requires b > 0 && n == q * b + r && 0 <= r < b
    ensures n / b == q
  {
    if n / b < q {
      Products(n / b + 1, q, b);
    } else if n / b > q {
      Products(q + 1, n / b, b);
    }
  }

  lemma Products(a: int, c: int, b: int)
    requires a <= c && b > 0
    ensures a * b <= c * b
  {
  }

  /** How many leap days the years from 0 up to y have. */
  lemma {:induction false} DaysOfYearsIs(y: nat)
    ensures DaysOfYears(y) == 365 * y + (y + 3) / 4 - (y + 99) / 100 + (y + 399) / 400
  {
    if y > 0 {
      DaysOfYearsIs(y - 1);
      LeapStep(y - 1);
    }
  }

  lemma LeapStep(y: int)
    requires y >= 0
    ensures (y + 4) / 4 - (y + 100) / 100 + (y + 400) / 400 - ((y + 3) / 4 - (y + 99) / 100 + (y + 399) / 400)
         == if IsLeap(y) then 1 else 0
  {
    StepBy(y, 4);
    StepBy(y, 100);
    StepBy(y, 400);
    Multiples(y);
    LeapIs(y, y % 4 == 0, y % 100 == 0, y % 400 == 0);
    var a, b, c := (y + 4) / 4 - (y + 3) / 4, (y + 100) / 100 - (y + 99) / 100, (y + 400) / 400 - (y + 399) / 400;
    assert a - b + c == if IsLeap(y) then 1 else 0;
  }

  lemma LeapIs(y: int, four: bool, hundred: bool, fourHundred: bool)
    requires four == (y % 4 == 0) && hundred == (y % 100 == 0) && fourHundred == (y % 400 == 0)
    requires (hundred ==> four) && (fourHundred ==> hundred)
    ensures IsLeap(y) == ((four && !hundred) || fourHundred)
  {
  }

  lemma Multiples(y: int)
    ensures y % 100 == 0 ==> y % 4 == 0
    ensures y % 400 == 0 ==> y % 100 == 0
  {
    if y % 100 == 0 {
      assert y == y / 100 * 25 * 4;
    }
    if y % 400 == 0 {
      assert y == y / 400 * 4 * 100;
    }
  }

  lemma StepBy(y: int, n: int)
    requires y >= 0 && (n == 4 || n == 100 || n == 400)
    ensures (y + n) / n - (y + n - 1) / n == if y % n == 0 then 1 else 0
  {
  }

  /** The years before y, from March to March: the leap day of year y + 1 comes last. */
  lemma MarchDaysIs(y: nat)
    ensures MarchDays(y) == DaysOfYears(y) + DaysOfMonths(y, 3) - 60
  {
    DaysOfYearsIs(y);
    assert DaysOfMonths(y, 3) == DaysOfMonths(y, 2) + MonthLength(y, 2);
    assert DaysOfMonths(y, 2) == DaysOfMonths(y, 1) + MonthLength(y, 1);
    LeapStep(y);
    Shifted(y);
  }

  lemma Shifted(y: nat)
    ensures (y + 4) / 4 == y / 4 + 1 && (y + 100) / 100 == y / 100 + 1 && (y + 400) / 400 == y / 400 + 1
  {
  }

  /** 400 * era + yoe: whole eras add a whole number of days. */
  lemma EraDays(era: int, yoe: int)
    requires 0 <= yoe < 400
    ensures MarchDays(400 * era + yoe) == era * 146097 + yoe * 365 + yoe / 4 - yoe / 100
    ensures (400 * era + yoe) / 400 == era
  {
  }

  /** Where the months lie in a year that starts in March. */
  lemma MonthStarts(y: int, m: int)
    requires 1 <= m <= 12
    ensures var doy := (153 * (m + (if m > 2 then -3 else 9)) + 2) / 5;
      m > 2 ==> DaysOfMonths(y, m) == DaysOfMonths(y, 3) + doy
    ensures var doy := (153 * (m + (if m > 2 then -3 else 9)) + 2) / 5;
      m <= 2 ==> DaysOfMonths(y, m) == doy - 306
  {
    assert DaysOfMonths(y, 1) == 0 && DaysOfMonths(y, 2) == 31;
    if m > 2 {
      assert m >= 4 ==> DaysOfMonths(y, 4) == DaysOfMonths(y, 3) + 31;
      assert m >= 5 ==> DaysOfMonths(y, 5) == DaysOfMonths(y, 4) + 30;
      assert m >= 6 ==> DaysOfMonths(y, 6) == DaysOfMonths(y, 5) + 31;
      assert m >= 7 ==> DaysOfMonths(y, 7) == DaysOfMonths(y, 6) + 30;
      assert m >= 8 ==> DaysOfMonths(y, 8) == DaysOfMonths(y, 7) + 31;
      assert m >= 9 ==> DaysOfMonths(y, 9) == DaysOfMonths(y, 8) + 31;
      assert m >= 10 ==> DaysOfMonths(y, 10) == DaysOfMonths(y, 9) + 30;
      assert m >= 11 ==> DaysOfMonths(y, 11) == DaysOfMonths(y, 10) + 31;
      assert m >= 12 ==> DaysOfMonths(y, 12) == DaysOfMonths(y, 11) + 30;
    }
  }

  const EPOCH := 719528

  /** The year that the date's March belongs to. */
  function MarchYear(date: Date): int { if date.month <= 2 then date.year - 1 else date.year }

  /** The day of that year. */
  function MarchDay(date: Date): int { (153 * (date.month + (if date.month > 2 then -3 else 9)) + 2) / 5 + date.day - 1 }

  lemma DaysFromCivilIs(date: Date)
    ensures DaysFromCivil(date) == MarchDays(MarchYear(date)) + MarchDay(date) - 719468
  {
    var y := MarchYear(date);
    FloorQuotient(y, 400);
    EraDays(y / 400, y % 400);
  }

  /** The code counts days as the calendar does. */
  lemma DaysFromCivilCounts(date: Date)
    requires date.year >= 0 && ValidYmd(date)
    ensures DaysFromCivil(date) == DayNumber(date) - EPOCH
  {
    hide DaysFromCivil;
    DaysFromCivilIs(date);
    MonthStarts(date.year, date.month);
    if date.month > 2 {
      MarchDaysIs(date.year);
    } else if date.year > 0 {
      var y := date.year - 1;
      MarchDaysIs(y);
      assert DaysOfMonths(y, 3) == DaysOfMonths(y, 2) + MonthLength(y, 2);
      assert DaysOfMonths(y, 2) == DaysOfMonths(y, 1) + MonthLength(y, 1);
    }
  }

  // ---------------------------------------------------------------- order

  lemma {:induction false} MonthsInOrder(y: int, m: int, n: int)
    requires 1 <= m < n <= 13
    ensures DaysOfMonths(y, m) + MonthLength(y, m) <= DaysOfMonths(y, n)
    decreases n - m
  {
    if m + 1 < n {
      MonthsInOrder(y, m, n - 1);
    }
  }

  lemma {:induction false} YearsInOrder(y: nat, z: nat)
    requires y < z
    ensures DaysOfYears(y) + (if IsLeap(y) then 366 else 365) <= DaysOfYears(z)
    decreases z - y
  {
    if y + 1 < z {
      YearsInOrder(y, z - 1);
    }
  }

  lemma YearHasItsMonths(y: int)
    ensures DaysOfMonths(y, 13) == if IsLeap(y) then 366 else 365
  {
    MonthStarts12(y);
  }

  lemma MonthStarts12(y: int)
    ensures DaysOfMonths(y, 13) == DaysOfMonths(y, 12) + 31 && DaysOfMonths(y, 12) == 275 + MonthLength(y, 2) + 31
  {
    MonthStarts(y, 12);
    assert DaysOfMonths(y, 2) == 31 && DaysOfMonths(y, 3) == DaysOfMonths(y, 2) + MonthLength(y, 2);
    assert DaysOfMonths(y, 13) == DaysOfMonths(y, 12) + MonthLength(y, 12);
  }

  /** Later dates have larger numbers. */
  lemma DaysFromCivilIncreases(a: Date, b: Date)
    requires a.year >= 0 && ValidYmd(a) && ValidYmd(b) && Before(a, b)
    ensures DaysFromCivil(a) < DaysFromCivil(b)
  {
    hide DaysFromCivil;
    DaysFromCivilCounts(a);
    DaysFromCivilCounts(b);
    if a.year < b.year {
      MonthsInOrder(a.year, a.month, 13);
      YearHasItsMonths(a.year);
      YearsInOrder(a.year, b.year);
      StartIsFirst(b);
    } else if a.month < b.month {
      MonthsInOrder(a.year, a.month, b.month);
    }
  }

  lemma {:induction false} StartIsFirst(b: Date)
    requires ValidYmd(b)
    ensures DaysOfMonths(b.year, b.month) >= 0
  {
    if b.month > 1 {
      MonthsInOrder(b.year, 1, b.month);
    }
  }

  // ---------------------------------------------------------------- back from days

  /** How long the year that starts in March of year y is. */
  function MarchLength(y: int): int { if IsLeap(y + 1) then 366 else 365 }

  /** The 400 years of an era: c centuries, u spans of four years, v years and r days. */
  lemma YearOfEraIs(c: int, u: int, v: int, r: int)
    requires 0 <= c <= 3 && 0 <= u <= 24 && 0 <= v <= 3 && 0 <= r <= 365
    requires r == 365 ==> v == 3 && (u < 24 || c == 3)
    ensures YearOfEra(36524 * c + 1461 * u + 365 * v + r) == 100 * c + 4 * u + v
  {
    var doe := 36524 * c + 1461 * u + 365 * v + r;
    var w := 24 * c + u + 365 * v + r;
    assert doe == 1460 * (25 * c + u) + w;
    assert doe / 1460 == 25 * c + u + w / 1460;
    CenturyTerm(c, 1461 * u + 365 * v + r);
    var k := 100 * c + 4 * u + v;
    assert doe - doe / 1460 + c == 365 * k + (r - w / 1460);
    assert 0 <= r - w / 1460 <= 364;
    QuotientIs(365 * k + (r - w / 1460), 365, k, r - w / 1460);
  }

  lemma CenturyTerm(c: int, rest: int)
    requires 0 <= c <= 3 && 0 <= rest && (rest < 36524 || (c == 3 && rest == 36524))
    ensures (36524 * c + rest) / 36524 - (36524 * c + rest) / 146096 == c
  {
  }

  /** The days of an era before its year k. */
  lemma EraYearStart(c: int, u: int, v: int)
    requires 0 <= c <= 3 && 0 <= u <= 24 && 0 <= v <= 3
    ensures var k := 100 * c + 4 * u + v; 365 * k + k / 4 - k / 100 == 36524 * c + 1461 * u + 365 * v
  {
    var k := 100 * c + 4 * u + v;
    QuotientIs(k, 4, 25 * c + u, v);
    QuotientIs(k, 100, c, 4 * u + v);
  }

  /** What the code makes of the day r of the year that starts in March of year y. */
  function CivilOf(y: int, r: int): Date {
    var mp := (5 * r + 2) / 153;
    var m := if mp < 10 then mp + 3 else mp - 9;
    Date(y + (if m <= 2 then 1 else 0), m, r - (153 * mp + 2) / 5 + 1)
  }

  lemma CivilOfIsValid(y: int, r: int)
    requires 0 <= r < MarchLength(y)
    ensures ValidYmd(CivilOf(y, r)) && MarchYear(CivilOf(y, r)) == y && MarchDay(CivilOf(y, r)) == r
  {
    var mp := (5 * r + 2) / 153;
    assert 0 <= mp <= 11;
    if mp < 4 {
    } else if mp < 8 {
    } else {
    }
  }

  lemma CivilOfMarchDay(date: Date)
    requires ValidYmd(date)
    ensures 0 <= MarchDay(date) < MarchLength(MarchYear(date)) && CivilOf(MarchYear(date), MarchDay(date)) == date
  {
    var mp := date.month + (if date.month > 2 then -3 else 9);
    assert (5 * MarchDay(date) + 2) / 153 == mp;
  }

  /** The year and day that the code takes out of a day of an era. */
  lemma DayOfEra(era: int, k: int, r: int)
    requires 0 <= k < 400 && 0 <= r < MarchLength(400 * era + k)
    ensures var doe := 365 * k + k / 4 - k / 100 + r;
      0 <= doe < 146097 && YearOfEra(doe) == k && doe - (365 * k + k / 4 - k / 100) == r
  {
    hide YearOfEra;
    var c, u, v := k / 100, k % 100 / 4, k % 4;
    assert k == 100 * c + 4 * u + v by {
      assert k % 100 == 4 * (k % 100 / 4) + k % 100 % 4 && k % 100 % 4 == k % 4;
    }
    LastDay(era, c, u, v, r);
    EraYearStart(c, u, v);
    YearOfEraIs(c, u, v, r);
  }

  /** Only a year before a leap day has the day 365. */
  lemma LastDay(era: int, c: int, u: int, v: int, r: int)
    requires 0 <= c <= 3 && 0 <= u <= 24 && 0 <= v <= 3
    requires 0 <= r < MarchLength(400 * era + (100 * c + 4 * u + v))
    ensures r <= 365 && (r == 365 ==> v == 3 && (u < 24 || c == 3))
  {
    var y := 400 * era + (100 * c + 4 * u + v) + 1;
    if r == 365 {
      Multiples(y);
      if v < 3 {
        RemainderIs(y, 4, 100 * era + 25 * c + u, v + 1);
      } else if u == 24 && c < 3 {
        RemainderIs(y, 100, 4 * era + c + 1, 0);
        RemainderIs(y, 400, era, 100 * (c + 1));
      }
    }
  }

  lemma RemainderIs(n: int, b: int, q: int, r: int)
    requires b > 0 && n == q * b + r && 0 <= r < b
    ensures n % b == r
  {
    QuotientIs(n, b, q, r);
  }

  /** Every day of an era is a day of one of its years. */
  lemma EraHasDay(era: int, doe: int) returns (k: int, r: int)
    requires 0 <= doe < 146097
    ensures 0 <= k < 400 && 0 <= r < MarchLength(400 * era + k) && doe == 365 * k + k / 4 - k / 100 + r
  {
    var c := if doe / 36524 > 3 then 3 else doe / 36524;
    var a := doe - 36524 * c;
    var u := if a / 1461 > 24 then 24 else a / 1461;
    var b := a - 1461 * u;
    var v := if b / 365 > 3 then 3 else b / 365;
    k, r := 100 * c + 4 * u + v, b - 365 * v;
    EraYearStart(c, u, v);
    if r == 365 {
      LeapAfter(era, c, u);
    }
  }

  lemma LeapAfter(era: int, c: int, u: int)
    requires 0 <= c <= 3 && 0 <= u <= 24 && (u < 24 || c == 3)
    ensures IsLeap(400 * era + (100 * c + 4 * u + 3) + 1)
  {
    var y := 400 * era + (100 * c + 4 * u + 3) + 1;
    assert y == 4 * (100 * era + 25 * c + u + 1);
    if u == 24 {
      assert y == 400 * (era + 1);
    } else {
      assert y == 100 * (4 * era + c) + 4 * (u + 1);
    }
  }

  /** The code's answer for the day r of the year that starts in March of year y. */
  lemma CivilFromDaysIs(y: int, r: int)
    requires 0 <= r < MarchLength(y)
    ensures var date := CivilOf(y, r);
      CivilFromDays(MarchDays(y) + r - 719468) == if 0 <= date.year <= 9999 then Some(date) else None
  {
    hide YearOfEra, MarchDays, MarchLength, Quotient;
    var era, k := y / 400, y % 400;
    EraDays(era, k);
    DayOfEra(era, k, r);
    var z := MarchDays(y) + r;
    var doe := 365 * k + k / 4 - k / 100 + r;
    assert z == era * 146097 + doe;
    FloorQuotient(z, 146097);
    QuotientIs(z, 146097, era, doe);
  }

  /** Back from the number of a valid date: the date. */
  lemma CivilInvertsDays(date: Date)
    requires ValidYmd(date) && 0 <= date.year <= 9999
    ensures CivilFromDays(DaysFromCivil(date)) == Some(date)
  {
    hide CivilFromDays, DaysFromCivil;
    DaysFromCivilIs(date);
    CivilOfMarchDay(date);
    CivilFromDaysIs(MarchYear(date), MarchDay(date));
  }

  /** Whatever day the code turns into a date is the number of that date, and it refuses only days outside the years 0 to 9999. */
  lemma DaysInvertCivil(days: int)
    ensures CivilFromDays(days).Some? ==>
              var date := CivilFromDays(days).value;
              ValidYmd(date) && 0 <= date.year <= 9999 && DaysFromCivil(date) == days
    ensures CivilFromDays(days).None? ==>
              forall date :: ValidYmd(date) && 0 <= date.year <= 9999 ==> DaysFromCivil(date) != days
  {
    hide CivilFromDays, DaysFromCivil;
    var z := days + 719468;
    var era, doe := z / 146097, z % 146097;
    var k, r := EraHasDay(era, doe);
    var y := 400 * era + k;
    EraDays(era, k);
    assert z == MarchDays(y) + r;
    CivilFromDaysIs(y, r);
    CivilOfIsValid(y, r);
    DaysFromCivilIs(CivilOf(y, r));
    forall date | ValidYmd(date) && 0 <= date.year <= 9999 && DaysFromCivil(date) == days ensures CivilFromDays(days) == Some(date) {
      CivilInvertsDays(date);
    }
  }
}
