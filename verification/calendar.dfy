/** The proleptic Gregorian calendar as Python's `datetime` and `calendar`
    modules use it: leap years, month lengths, day ordinals (0001-01-01 is
    day 1, as `date.toordinal`) and naive datetimes as microsecond counts. */
module Calendar {

  const MicrosPerSecond := 1000000
  const SecondsPerDay := 86400
  const MicrosPerDay := SecondsPerDay * MicrosPerSecond

  predicate IsLeapYear(year: int) {
    year % 4 == 0 && (year % 100 != 0 || year % 400 == 0)
  }

  /** `calendar.monthrange(year, month)[1]`. */
  function DaysInMonth(year: int, month: int): (n: int)
    requires 1 <= month <= 12
    ensures 28 <= n <= 31
    ensures month == 2 ==> (n == 29 <==> IsLeapYear(year))
    ensures month != 2 ==> n >= 30
  {
    if month == 2 then (if IsLeapYear(year) then 29 else 28)
    else if month == 4 || month == 6 || month == 9 || month == 11 then 30
    else 31
  }

  /** A calendar date within `datetime`'s range of years. */
  datatype CivilDate = CivilDate(year: int, month: int, day: int) {
    predicate Valid() {
      1 <= year <= 9999 && 1 <= month <= 12 && 1 <= day <= DaysInMonth(year, month)
    }
  }

  /** Days in the years before `year`. */
  function DaysBeforeYear(year: int): (n: int)
    requires year >= 1
    ensures n >= 365 * (year - 1)
  {
    var y := year - 1;
    y * 365 + y / 4 - y / 100 + y / 400
  }

  /** Days in the months of `year` before `month`. */
  function DaysBeforeMonth(year: int, month: int): (n: int)
    requires 1 <= month <= 12
    ensures 28 * (month - 1) <= n <= 31 * (month - 1)
  {
    if month == 1 then 0 else DaysBeforeMonth(year, month - 1) + DaysInMonth(year, month - 1)
  }

  /** `date.toordinal()`. */
  function Ordinal(d: CivilDate): (n: int)
    requires d.Valid()
    ensures n >= 1
  {
    DaysBeforeYear(d.year) + DaysBeforeMonth(d.year, d.month) + d.day
  }

  /** A naive `datetime`: a date and the microseconds since its midnight. */
  datatype DateTime = DateTime(date: CivilDate, micros: int) {
    predicate Valid() {
      date.Valid() && 0 <= micros < MicrosPerDay
    }
  }

  /** Microseconds from 0001-01-01 00:00 to `t`; datetimes compare as
      these numbers do, and `t - timedelta(days=w)` is `Instant(t) - w`
      days of microseconds. */
  function Instant(t: DateTime): (n: int)
    requires t.Valid()
    ensures (Ordinal(t.date) - 1) * MicrosPerDay <= n < Ordinal(t.date) * MicrosPerDay
  {
    (Ordinal(t.date) - 1) * MicrosPerDay + t.micros
  }

  /** Midnight on the first day of a month. */
  function MonthStart(year: int, month: int): (t: DateTime)
    requires 1 <= year <= 9999 && 1 <= month <= 12
    ensures t.Valid() && t.date.day == 1 && t.micros == 0
  {
    DateTime(CivilDate(year, month, 1), 0)
  }

  /** Whether `a` is an earlier date than `b`: by year, then month, then
      day, as `date` objects compare. */
  predicate Precedes(a: CivilDate, b: CivilDate) {
    || a.year < b.year
    || (a.year == b.year && a.month < b.month)
    || (a.year == b.year && a.month == b.month && a.day < b.day)
  }

  /** A year has 366 days when it is a leap year and 365 otherwise. */
  lemma YearLength(year: int)
    requires year >= 1
    ensures DaysBeforeYear(year + 1) == DaysBeforeYear(year) + (if IsLeapYear(year) then 366 else 365)
  {
    var y := year - 1;
    assert DaysBeforeYear(year) == y * 365 + y / 4 - y / 100 + y / 400;
    assert DaysBeforeYear(year + 1) == year * 365 + year / 4 - year / 100 + year / 400;
    LeapSteps(year);
  }

  /** Going from `year - 1` to `year` adds one leap day exactly when
      `year` is a leap year. */
  lemma LeapSteps(year: int)
    ensures (year / 4 - (year - 1) / 4) - (year / 100 - (year - 1) / 100) + (year / 400 - (year - 1) / 400)
         == if IsLeapYear(year) then 1 else 0
  {
    StepOver4(year);
    StepOver100(year);
    StepOver400(year);
    Multiple400(year);
    Multiple100(year);
    LeapDays(year / 4 - (year - 1) / 4, year / 100 - (year - 1) / 100, year / 400 - (year - 1) / 400,
      year % 4 == 0, year % 100 == 0, year % 400 == 0);
  }

  /** The leap-day count over abstract step values: one step of four, less
      one of a hundred, plus one of four hundred. */
  lemma LeapDays(d4: int, d100: int, d400: int, m4: bool, m100: bool, m400: bool)
    requires d4 == (if m4 then 1 else 0) && d100 == (if m100 then 1 else 0) && d400 == (if m400 then 1 else 0)
    requires m400 ==> m100
    requires m100 ==> m4
    ensures d4 - d100 + d400 == if m4 && (!m100 || m400) then 1 else 0
  {
  }

  lemma Multiple400(n: int)
    ensures n % 400 == 0 ==> n % 100 == 0
  {
    if n % 400 == 0 {
      var q := n / 400;
      assert n == 100 * (4 * q);
    }
  }

  lemma Multiple100(n: int)
    ensures n % 100 == 0 ==> n % 4 == 0
  {
    if n % 100 == 0 {
      var q := n / 100;
      assert n == 4 * (25 * q);
    }
  }

  /** Counting up to `n` passes one more multiple of four, a hundred or
      four hundred than counting up to `n - 1` exactly when `n` is one. */
  lemma StepOver4(n: int)
    ensures n / 4 - (n - 1) / 4 == if n % 4 == 0 then 1 else 0
  {
    assert n == 4 * (n / 4) + n % 4;
    assert n - 1 == 4 * ((n - 1) / 4) + (n - 1) % 4;
  }

  lemma StepOver100(n: int)
    ensures n / 100 - (n - 1) / 100 == if n % 100 == 0 then 1 else 0
  {
    assert n == 100 * (n / 100) + n % 100;
    assert n - 1 == 100 * ((n - 1) / 100) + (n - 1) % 100;
  }

  lemma StepOver400(n: int)
    ensures n / 400 - (n - 1) / 400 == if n % 400 == 0 then 1 else 0
  {
    assert n == 400 * (n / 400) + n % 400;
    assert n - 1 == 400 * ((n - 1) / 400) + (n - 1) % 400;
  }

  /** The months before December hold 334 days, or 335 in a leap year. */
  lemma DaysBeforeDecember(year: int)
    ensures DaysBeforeMonth(year, 12) == if IsLeapYear(year) then 335 else 334
  {
    var feb := DaysInMonth(year, 2);
    assert DaysBeforeMonth(year, 3) == 31 + feb;
    assert DaysBeforeMonth(year, 4) == 62 + feb;
    assert DaysBeforeMonth(year, 5) == 92 + feb;
    assert DaysBeforeMonth(year, 6) == 123 + feb;
    assert DaysBeforeMonth(year, 7) == 153 + feb;
    assert DaysBeforeMonth(year, 8) == 184 + feb;
    assert DaysBeforeMonth(year, 9) == 215 + feb;
    assert DaysBeforeMonth(year, 10) == 245 + feb;
    assert DaysBeforeMonth(year, 11) == 276 + feb;
  }

  /** A month and the days in it end no later than any later month
      starts. */
  lemma {:induction false} MonthEndsBefore(year: int, m1: int, m2: int)
    requires 1 <= m1 < m2 <= 12
    ensures DaysBeforeMonth(year, m1) + DaysInMonth(year, m1) <= DaysBeforeMonth(year, m2)
    decreases m2
  {
    if m1 < m2 - 1 {
      MonthEndsBefore(year, m1, m2 - 1);
    }
  }

  /** A date's ordinal is no later than the last day of its year. */
  lemma OrdinalInYear(d: CivilDate)
    requires d.Valid()
    ensures DaysBeforeYear(d.year) < Ordinal(d) <= DaysBeforeYear(d.year + 1)
  {
    YearLength(d.year);
    DaysBeforeDecember(d.year);
    if d.month < 12 {
      MonthEndsBefore(d.year, d.month, 12);
    }
  }

  /** Every year ends no later than any later year starts. */
  lemma {:induction false} YearEndsBefore(y1: int, y2: int)
    requires 1 <= y1 < y2
    ensures DaysBeforeYear(y1 + 1) <= DaysBeforeYear(y2)
    decreases y2
  {
    if y1 + 1 < y2 {
      YearEndsBefore(y1, y2 - 1);
      YearLength(y2 - 1);
    }
  }

  /** An earlier date has a smaller ordinal. */
  lemma OrdinalIncreasing(a: CivilDate, b: CivilDate)
    requires a.Valid() && b.Valid() && Precedes(a, b)
    ensures Ordinal(a) < Ordinal(b)
  {
    if a.year < b.year {
      OrdinalInYear(a);
      OrdinalInYear(b);
      YearEndsBefore(a.year, b.year);
    } else if a.month < b.month {
      MonthEndsBefore(a.year, a.month, b.month);
    }
  }

  /** `date.toordinal()` orders dates as they compare, and tells distinct
      dates apart. */
  lemma OrdinalOrder(a: CivilDate, b: CivilDate)
    requires a.Valid() && b.Valid()
    ensures Precedes(a, b) <==> Ordinal(a) < Ordinal(b)
    ensures a == b <==> Ordinal(a) == Ordinal(b)
  {
    if Precedes(a, b) {
      OrdinalIncreasing(a, b);
    } else if a != b {
      assert Precedes(b, a);
      OrdinalIncreasing(b, a);
    }
  }

  /** Datetimes compare by date and then by time of day, as their
      instants do. */
  lemma InstantOrder(s: DateTime, t: DateTime)
    requires s.Valid() && t.Valid()
    ensures Instant(s) < Instant(t) <==> Precedes(s.date, t.date) || (s.date == t.date && s.micros < t.micros)
    ensures Instant(s) == Instant(t) <==> s == t
  {
    OrdinalOrder(s.date, t.date);
    var os, ot := Ordinal(s.date), Ordinal(t.date);
    assert Instant(s) == (os - 1) * 86400000000 + s.micros;
    assert Instant(t) == (ot - 1) * 86400000000 + t.micros;
  }

  /** Within a month, a date is `day - 1` days after the first. */
  lemma OrdinalInMonth(d: CivilDate)
    requires d.Valid()
    ensures Ordinal(d) == Ordinal(CivilDate(d.year, d.month, 1)) + d.day - 1
  {
  }
}
