/**
  The proleptic Gregorian calendar as Go's time package computes it in UTC: civil fields of an instant,
  and time.Date with its normalisation of out-of-range months, days and hours. Instants are whole
  seconds since 1970-01-01 (every period boundary is one, so a fraction never decides a comparison),
  days are counted from that day. The reference the arithmetic is held against is the calendar counted
  month by month (MonthStart).
 */
module Calendar {

  const HOUR: int := 3600
  const DAY: int := 86400

  predicate Leap(y: int) {
    y % 4 == 0 && (y % 100 != 0 || y % 400 == 0)
  }

  function DaysIn(y: int, m: int): (n: int)
    requires 1 <= m <= 12
    ensures 28 <= n <= 31
  {
    if m == 2 then (if Leap(y) then 29 else 28)
    else if m == 4 || m == 6 || m == 9 || m == 11 then 30
    else 31
  }

  // ----- counting month by month

  const EPOCH: int := 719_528

  /** The day on which month k begins, months being counted from January of year 0. */
  function MonthStart(k: int): int
    decreases if k < 0 then -k else k
  {
    if k == 0 then -EPOCH
    else if k > 0 then MonthStart(k - 1) + DaysIn((k - 1) / 12, (k - 1) % 12 + 1)
    else MonthStart(k + 1) - DaysIn(k / 12, k % 12 + 1)
  }

  lemma MonthStep(k: int)
    ensures MonthStart(k + 1) == MonthStart(k) + DaysIn(k / 12, k % 12 + 1)
  {
  }

  lemma {:induction false} MonthsAdvance(i: int, j: int)
    requires i < j
    ensures MonthStart(i) < MonthStart(j)
    decreases j - i
  {
    MonthStep(j - 1);
    if i < j - 1 {
      MonthsAdvance(i, j - 1);
    }
  }

  // ----- counting years, then months of a year

  function YearLength(y: int): int {
    if Leap(y) then 366 else 365
  }

  /** Days before 1 January of year y, counted from 1 January of year 0. */
  function DaysBeforeYear(y: int): int
    decreases if y < 0 then -y else y
  {
    if y == 0 then 0
    else if y > 0 then DaysBeforeYear(y - 1) + YearLength(y - 1)
    else DaysBeforeYear(y + 1) - YearLength(y)
  }

  lemma NextYear(y: int)
    ensures DaysBeforeYear(y + 1) == DaysBeforeYear(y) + YearLength(y)
  {
  }

  function LeapDays(y: int): int {
    (y - 1) / 4 - (y - 1) / 100 + (y - 1) / 400 + 1
  }

  lemma LeapStep(y: int)
    ensures LeapDays(y + 1) - LeapDays(y) == if Leap(y) then 1 else 0
  {
    FloorSteps(y);
    Divisors(y);
  }

  lemma FloorSteps(y: int)
    ensures y / 4 - (y - 1) / 4 == if y % 4 == 0 then 1 else 0
    ensures y / 100 - (y - 1) / 100 == if y % 100 == 0 then 1 else 0
    ensures y / 400 - (y - 1) / 400 == if y % 400 == 0 then 1 else 0
  {
  }

  lemma Divisors(y: int)
    ensures y % 100 == 0 ==> y % 4 == 0
    ensures y % 400 == 0 ==> y % 100 == 0
  {
  }

  /** The Gregorian rule in closed form. */
  lemma {:induction false} ClosedForm(y: int)
    ensures DaysBeforeYear(y) == 365 * y + LeapDays(y)
    decreases if y < 0 then -y else y
  {
    if y > 0 {
      ClosedForm(y - 1);
      LeapStep(y - 1);
    } else if y < 0 {
      ClosedForm(y + 1);
      LeapStep(y);
    }
  }

  /** A year's first day is within two years of 365.2425 days a year. */
  lemma YearEstimate(y: int)
    ensures 146097 * y - 396 <= 400 * DaysBeforeYear(y) <= 146097 * y + 699
  {
    ClosedForm(y);
    var z := y - 1;
    assert z == 4 * (z / 4) + z % 4 && z == 100 * (z / 100) + z % 100 && z == 400 * (z / 400) + z % 400;
  }

  /** Days before month m of year y; month 13 stands for the end of the year. */
  function DaysBeforeMonth(y: int, m: int): int
    requires 1 <= m <= 13
  {
    if m == 1 then 0 else DaysBeforeMonth(y, m - 1) + DaysIn(y, m - 1)
  }

  lemma DaysInYear(y: int)
    ensures DaysBeforeMonth(y, 13) == YearLength(y)
  {
    assert DaysBeforeMonth(y, 2) == 31;
    assert DaysBeforeMonth(y, 3) == 31 + DaysIn(y, 2);
    assert DaysBeforeMonth(y, 5) == DaysBeforeMonth(y, 3) + 61;
    assert DaysBeforeMonth(y, 7) == DaysBeforeMonth(y, 5) + 61;
    assert DaysBeforeMonth(y, 9) == DaysBeforeMonth(y, 7) + 62;
    assert DaysBeforeMonth(y, 11) == DaysBeforeMonth(y, 9) + 61;
  }

  lemma {:induction false} MonthsOfYear(y: int, m: int)
    requires 1 <= m <= 13
    ensures MonthStart(12 * y + m - 1) == MonthStart(12 * y) + DaysBeforeMonth(y, m)
    decreases m
  {
    if m > 1 {
      MonthsOfYear(y, m - 1);
      MonthStep(12 * y + m - 2);
      assert (12 * y + m - 2) / 12 == y && (12 * y + m - 2) % 12 == m - 2;
    }
  }

  /** Counting by years agrees with counting by months. */
  lemma {:induction false} YearsAgree(y: int)
    ensures MonthStart(12 * y) == DaysBeforeYear(y) - EPOCH
    decreases if y < 0 then -y else y
  {
    if y > 0 {
      YearsAgree(y - 1);
      YearStep(y - 1);
    } else if y < 0 {
      YearsAgree(y + 1);
      YearStep(y);
    }
  }

  lemma YearStep(y: int)
    ensures MonthStart(12 * (y + 1)) - MonthStart(12 * y) == DaysBeforeYear(y + 1) - DaysBeforeYear(y)
  {
    MonthsOfYear(y, 13);
    DaysInYear(y);
    NextYear(y);
    assert 12 * y + 13 - 1 == 12 * (y + 1);
  }

  /** The day number of a date in a month 1..12; the day may lie outside the month. */
  function InYear(y: int, m: int, d: int): int
    requires 1 <= m <= 12
  {
    DaysBeforeYear(y) - EPOCH + DaysBeforeMonth(y, m) + (d - 1)
  }

  /** A date's place in its year agrees with the count by months. */
  lemma DatesAgree(y: int, m: int, d: int)
    requires 1 <= m <= 12
    ensures InYear(y, m, d) == MonthStart(12 * y + m - 1) + (d - 1)
  {
    YearsAgree(y);
    MonthsOfYear(y, m);
  }

  // ----- time.Date

  /** The same for any month: months outside 1..12 move the year. */
  function DayNumber(y: int, m: int, d: int): int {
    InYear(y + (m - 1) / 12, (m - 1) % 12 + 1, d)
  }

  /** time.Date counts months and days through: normalisation is plain addition. */
  lemma DayNumberCounts(y: int, m: int, d: int)
    ensures DayNumber(y, m, d) == MonthStart(12 * y + m - 1) + (d - 1)
  {
    NormalMonth(y, m);
    SameDate(y, m, d, y + (m - 1) / 12, (m - 1) % 12 + 1);
  }

  lemma SameDate(y: int, m: int, d: int, year: int, month: int)
    requires 1 <= month <= 12 && 12 * year + month - 1 == 12 * y + m - 1
    ensures InYear(year, month, d) == MonthStart(12 * y + m - 1) + (d - 1)
  {
    DatesAgree(year, month, d);
  }

  lemma NormalMonth(y: int, m: int)
    ensures 12 * (y + (m - 1) / 12) + ((m - 1) % 12 + 1) - 1 == 12 * y + m - 1
  {
  }

  /** time.Date(y, m, d, h, 0, 0, 0, time.UTC). */
  function Date(y: int, m: int, d: int, h: int): int {
    DayNumber(y, m, d) * DAY + h * HOUR
  }

  // ----- civil fields

  function DayOf(t: int): int {
    t / DAY
  }

  function HourOf(t: int): int {
    (t % DAY) / HOUR
  }

  /** Sunday is 0; 1970-01-01 was a Thursday. */
  function Weekday(day: int): int {
    (day + 4) % 7
  }

  function YearOf(day: int): (y: int)
    ensures DaysBeforeYear(y) <= day + EPOCH < DaysBeforeYear(y + 1)
  {
    var n := day + EPOCH;
    var y := 400 * n / 146097;
    YearEstimate(y);
    YearEstimate(y - 1);
    YearEstimate(y + 2);
    if n >= DaysBeforeYear(y + 1) then y + 1 else if n >= DaysBeforeYear(y) then y else y - 1
  }

  /** The month, from m on, containing a zero-based day of a year. */
  function MonthFrom(y: int, yday: int, m: int): (r: int)
    requires 1 <= m <= 12 && DaysBeforeMonth(y, m) <= yday < DaysBeforeMonth(y, 13)
    ensures 1 <= r <= 12 && DaysBeforeMonth(y, r) <= yday < DaysBeforeMonth(y, r + 1)
    decreases 12 - m
  {
    if yday < DaysBeforeMonth(y, m + 1) then m else MonthFrom(y, yday, m + 1)
  }

  datatype Civil = Civil(year: int, month: int, day: int)

  function CivilOf(day: int): (c: Civil)
    ensures 1 <= c.month <= 12 && 1 <= c.day <= DaysIn(c.year, c.month)
    ensures InYear(c.year, c.month, c.day) == day
  {
    var y := YearOf(day);
    NextYear(y);
    DaysInYear(y);
    var yday := day + EPOCH - DaysBeforeYear(y);
    var m := MonthFrom(y, yday, 1);
    Civil(y, m, yday - DaysBeforeMonth(y, m) + 1)
  }

  /** The month a day belongs to, counted from January of year 0. */
  function MonthIndex(day: int): int {
    12 * CivilOf(day).year + CivilOf(day).month - 1
  }

  /** The civil date of a day names the month that contains it and the day's place in it. */
  lemma CivilCounts(day: int)
    ensures var c := CivilOf(day); day == MonthStart(MonthIndex(day)) + (c.day - 1)
    ensures MonthStart(MonthIndex(day)) <= day < MonthStart(MonthIndex(day) + 1)
  {
    var c := CivilOf(day);
    DatesAgree(c.year, c.month, c.day);
    NextMonth(c.year, c.month);
  }

  lemma NextMonth(y: int, m: int)
    requires 1 <= m <= 12
    ensures MonthStart(12 * y + m) == MonthStart(12 * y + m - 1) + DaysIn(y, m)
  {
    MonthStep(12 * y + m - 1);
    assert (12 * y + m - 1) / 12 == y && (12 * y + m - 1) % 12 == m - 1;
  }

  /** Days of a year before 1 March and after, in closed form: 31 a month, shortened every fifth. */
  function MonthOffset(leap: bool, m: int): int
    requires 1 <= m <= 13
  {
    if m <= 2 then 31 * (m - 1) else (153 * (m - 3) + 2) / 5 + 59 + if leap then 1 else 0
  }

  lemma {:induction false} MonthsClosedForm(y: int, m: int)
    requires 1 <= m <= 13
    ensures DaysBeforeMonth(y, m) == MonthOffset(Leap(y), m)
  {
    if m > 1 {
      MonthsClosedForm(y, m - 1);
    }
  }

  /** The day number of a date, in arithmetic alone: year and month brought to range, then days from 1970. */
  function DayFormula(y: int, m: int, d: int): int {
    var year, month := y + (m - 1) / 12, (m - 1) % 12 + 1;
    var leap := year % 4 == 0 && (year % 100 != 0 || year % 400 == 0);
    365 * year + (year - 1) / 4 - (year - 1) / 100 + (year - 1) / 400 + 1 - 719_528 + MonthOffset(leap, month) + d - 1
  }

  lemma DayClosedForm(y: int, m: int, d: int)
    ensures DayNumber(y, m, d) == DayFormula(y, m, d)
  {
    var year, month := y + (m - 1) / 12, (m - 1) % 12 + 1;
    ClosedForm(year);
    MonthsClosedForm(year, month);
  }

  /** time.Date is arithmetic. */
  lemma DateClosedForm(y: int, m: int, d: int, h: int)
    ensures Date(y, m, d, h) == DayFormula(y, m, d) * 86_400 + h * 3_600
  {
    DayClosedForm(y, m, d);
  }

  /** The civil date of the day of a date is that date, for every date that exists. */
  lemma CivilInverts(y: int, m: int, d: int)
    requires 1 <= m <= 12 && 1 <= d <= DaysIn(y, m)
    ensures CivilOf(DayNumber(y, m, d)) == Civil(y, m, d)
  {
    var day := DayNumber(y, m, d);
    var c := CivilOf(day);
    DayNumberCounts(y, m, d);
    CivilCounts(day);
    NextMonth(y, m);
    OneMonth(12 * y + m - 1, MonthIndex(day), day);
    SameMonth(c.year, c.month, y, m);
  }

  /** A day is in one month only. */
  lemma OneMonth(k: int, l: int, day: int)
    requires MonthStart(k) <= day < MonthStart(k + 1) && MonthStart(l) <= day < MonthStart(l + 1)
    ensures k == l
  {
    if k < l {
      MonthsAtMost(k + 1, l);
    } else if l < k {
      MonthsAtMost(l + 1, k);
    }
  }

  lemma MonthsAtMost(i: int, j: int)
    requires i <= j
    ensures MonthStart(i) <= MonthStart(j)
  {
    if i < j {
      MonthsAdvance(i, j);
    }
  }

  lemma SameMonth(y: int, m: int, y': int, m': int)
    requires 1 <= m <= 12 && 1 <= m' <= 12 && 12 * y + m == 12 * y' + m'
    ensures y == y' && m == m'
  {
  }

  /** 1 January 2024 was a Monday. */
  lemma KnownMonday()
    ensures Weekday(DayNumber(2024, 1, 1)) == 1
  {
    DayClosedForm(2024, 1, 1);
    assert DayFormula(2024, 1, 1) == 19_723;
  }

  /** The count is anchored where Unix time is: 1 January 1970 is day 0, and midnight on it second 0. */
  lemma EpochIs1970()
    ensures EPOCH == DaysBeforeYear(1970) && DayNumber(1970, 1, 1) == 0 && Date(1970, 1, 1, 0) == 0
  {
    ClosedForm(1970);
    DatesAgree(1970, 1, 1);
  }
}
