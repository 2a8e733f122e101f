/** The device's clock: from seconds since 1970 to a calendar date, and back by a closed form. */
module Calendar {
  import opened Machine
  import opened BacnetTypes

  predicate IsMultipleOf(y: int, m: int)
    requires m > 0
  {
    y % m == 0
  }

  predicate IsLeap(y: int) {
    (IsMultipleOf(y, 4) && !IsMultipleOf(y, 100)) || IsMultipleOf(y, 400)
  }

  function YearLength(y: int): int {
    if IsLeap(y) then 366 else 365
  }

  /** The lengths of the months as the clock lists them. */
  function MonthLengths(y: int): (lens: seq<int>)
    ensures |lens| == 12
  {
    [31, if IsLeap(y) then 29 else 28, 31, 30, 31, 30, 31, 31, 30, 31, 30, 31]
  }

  /** A date of the Gregorian calendar. */
  predicate ValidDay(year: int, month: int, day: int) {
    1 <= month <= 12 && 1 <= day <= MonthLengths(year)[month - 1]
  }

  // ---- The way back, in closed form ---------------------------------------------------------

  /** Multiples of `m` from 1 to `y`. */
  function Multiples(y: int, m: int): int
    requires m > 0
  {
    y / m
  }

  /** Leap years up to and including year `y`. */
  function Leaps(y: int): int {
    Multiples(y, 4) - Multiples(y, 100) + Multiples(y, 400)
  }

  /** Days from the first of January 1970 to the first of January of year `y`. */
  function YearStart(y: int): int {
    365 * (y - 1970) + Leaps(y - 1) - Leaps(1969)
  }

  /** Days from the first of January to the first of a month. */
  function MonthStart(y: int, month: int): int {
    (367 * month - 362) / 12 - if month <= 2 then 0 else if IsLeap(y) then 1 else 2
  }

  function DayNumber(year: int, month: int, day: int): int {
    YearStart(year) + MonthStart(year, month) + day - 1
  }

  lemma LeapsStep(y: int)
    ensures Leaps(y) == Leaps(y - 1) + if IsLeap(y) then 1 else 0
  {
    hide IsMultipleOf, Multiples;
    NextMultiple(y, 4);
    NextMultiple(y, 100);
    NextMultiple(y, 400);
    MultiplesNest(y);
  }

  lemma NextMultiple(y: int, m: int)
    requires m == 4 || m == 100 || m == 400
    ensures Multiples(y, m) == Multiples(y - 1, m) + if IsMultipleOf(y, m) then 1 else 0
  {
  }

  lemma MultiplesNest(y: int)
    ensures IsMultipleOf(y, 400) ==> IsMultipleOf(y, 100)
    ensures IsMultipleOf(y, 100) ==> IsMultipleOf(y, 4)
  {
  }

  lemma YearStep(y: int)
    ensures YearStart(y + 1) == YearStart(y) + YearLength(y)
  {
    hide Leaps, IsLeap;
    LeapsStep(y);
  }

  lemma MonthStep(y: int, month: int)
    requires 1 <= month <= 12
    ensures MonthStart(y, month + 1) == MonthStart(y, month) + MonthLengths(y)[month - 1]
    ensures MonthStart(y, 1) == 0 && MonthStart(y, 13) == YearLength(y)
  {
    hide IsLeap;
  }

  lemma {:induction false} YearsIncrease(a: int, b: int)
    requires a < b
    ensures YearStart(a) + YearLength(a) <= YearStart(b)
    decreases b - a
  {
    hide YearStart, IsLeap;
    YearStep(a);
    if a + 1 < b {
      YearsIncrease(a + 1, b);
    }
  }

  lemma {:induction false} MonthsIncrease(y: int, a: int, b: int)
    requires 1 <= a < b <= 13
    ensures MonthStart(y, a) + MonthLengths(y)[a - 1] <= MonthStart(y, b)
    decreases b - a
  {
    hide MonthStart, IsLeap;
    MonthStep(y, a);
    if a + 1 < b {
      MonthStep(y, a + 1);
      MonthsIncrease(y, a + 1, b);
    }
  }

  /** Days within a year. */
  lemma WithinYear(year: int, month: int, day: int)
    requires ValidDay(year, month, day)
    ensures YearStart(year) <= DayNumber(year, month, day) < YearStart(year) + YearLength(year)
  {
    hide MonthStart, YearStart, IsLeap;
    MonthStep(year, 1);
    MonthsIncrease(year, month, 13);
    if month > 1 { MonthsIncrease(year, 1, month); }
  }

  predicate Earlier(y: int, m: int, d: int, y': int, m': int, d': int) {
    y < y' || (y == y' && (m < m' || (m == m' && d < d')))
  }

  lemma EarlierIsSmaller(y: int, m: int, d: int, y': int, m': int, d': int)
    requires ValidDay(y, m, d) && ValidDay(y', m', d') && Earlier(y, m, d, y', m', d')
    ensures DayNumber(y, m, d) < DayNumber(y', m', d')
  {
    hide MonthStart, YearStart, IsLeap;
    if y < y' {
      WithinYear(y, m, d);
      WithinYear(y', m', d');
      YearsIncrease(y, y');
    } else if m < m' {
      MonthsIncrease(y, m, m');
    }
  }

  /** Day numbers and dates are in the same order, so no two dates share a number. */
  lemma DatesInOrder(y: int, m: int, d: int, y': int, m': int, d': int)
    requires ValidDay(y, m, d) && ValidDay(y', m', d')
    ensures DayNumber(y, m, d) < DayNumber(y', m', d') <==> Earlier(y, m, d, y', m', d')
    ensures DayNumber(y, m, d) == DayNumber(y', m', d') <==> (y, m, d) == (y', m', d')
  {
    hide DayNumber, ValidDay;
    if Earlier(y, m, d, y', m', d') {
      EarlierIsSmaller(y, m, d, y', m', d');
    } else if Earlier(y', m', d', y, m, d) {
      EarlierIsSmaller(y', m', d', y, m, d);
    }
  }

  // ---- The clock ------------------------------------------------------------------------------

  const DAY: nat := 86400

  function Truncate32(n: nat): U32 {
    n % 0x1_0000_0000
  }

  function WeekdayAt(n: int): Weekday {
    match n
    case 0 => Monday
    case 1 => Tuesday
    case 2 => Wednesday
    case 3 => Thursday
    case 4 => Friday
    case 5 => Saturday
    case _ => Sunday
  }

  const DAYS_FROM_SUNDAY: seq<Weekday> := [Sunday, Monday, Tuesday, Wednesday, Thursday, Friday, Saturday]

  lemma SundayFirst(n: int)
    requires 0 <= n < 7
    ensures WeekdayAt((n + 6) % 7) == DAYS_FROM_SUNDAY[n]
  {
    assert n == 0 || n == 1 || n == 2 || n == 3 || n == 4 || n == 5 || n == 6;
  }

  /** The count of days is cut to 32 bits and the year to 16. */
  method CurrentUtc(secs: U64) returns (date: BacnetDate, time: BacnetTime, ghost fullYear: nat)
    ensures 1970 <= fullYear && date.year == Truncate16(fullYear)
    ensures ValidDay(fullYear, date.month, date.day)
    ensures DayNumber(fullYear, date.month, date.day) == Truncate32(secs / DAY)
    ensures DayNumber(date.year, date.month, date.day) == Truncate32(secs / DAY) <==> Truncate32(secs / DAY) < 23217004
    ensures date.weekday == WeekdayAt((secs / DAY + 3) % 7)
    ensures secs / DAY < 0x1_0000_0000 ==>
      DAYS_FROM_SUNDAY[DayOfWeek(fullYear, date.month, date.day)] == date.weekday
    ensures time.hour < 24 && time.minute < 60 && time.second < 60 && time.hundredths == 0
    ensures time.hour * 3600 + time.minute * 60 + time.second == secs % DAY
  {
    hide YearStart, MonthStart, IsLeap, DayOfWeek, WeekdayAt, Truncate32, Truncate16;
    TimeOfDay(secs);
    time := BacnetTime((secs / 3600) % 24, (secs / 60) % 60, secs % 60, 0);
    var weekday := WeekdayAt((secs / 86400 + 3) % 7);
    var days: nat := Truncate32(secs / 86400);
    var year: nat := 1970;
    assert YearStart(1970) == 0 by { Epoch(); }
    while true
      invariant year >= 1970
      invariant YearStart(year) + days == Truncate32(secs / DAY)
      decreases days
    {
      var diy := if IsLeap(year) then 366 else 365;
      if days < diy {
        break;
      }
      YearStep(year);
      days := days - diy;
      year := year + 1;
    }
    fullYear := year;
    var monthLens := MonthLengths(year);
    var month: U8 := 1;
    ghost var dayOfYear := days;
    MonthStep(year, 1);
    for i := 0 to 12
      invariant days >= 0 && MonthStart(year, i + 1) + days == dayOfYear
      invariant i == 12 ==> dayOfYear < MonthStart(year, 13)
    {
      var ml := monthLens[i];
      if days < ml {
        month := i + 1;
        break;
      }
      MonthStep(year, i + 1);
      days := days - ml;
    }
    date := BacnetDate(Truncate16(year), month, days + 1, weekday);
    WhatTheDateSays(year, month, days + 1, secs / DAY);
    SundayFirst(DayOfWeek(year, month, days + 1));
  }

  lemma WhatTheDateSays(year: nat, month: int, day: int, days: nat)
    requires ValidDay(year, month, day) && DayNumber(year, month, day) == Truncate32(days)
    ensures DayNumber(Truncate16(year), month, day) == Truncate32(days) <==> Truncate32(days) < 23217004
    ensures days < 0x1_0000_0000 ==> (days + 3) % 7 == (DayOfWeek(year, month, day) + 6) % 7
  {
    hide YearStart, MonthStart, IsLeap, DayOfWeek;
    DateGivesDayBack(year, month, day);
    LastYear();
    WeekdayOfDate(year, month, day);
    ThreeOrFour(DayNumber(year, month, day));
    Untruncated(days);
  }

  lemma Untruncated(n: nat)
    ensures n < 0x1_0000_0000 ==> Truncate32(n) == n
  {
  }

  lemma ThreeOrFour(n: int)
    ensures (n + 3) % 7 == ((n + 4) % 7 + 6) % 7
  {
  }

  lemma Epoch()
    ensures YearStart(1970) == 0
  {
  }

  lemma TimeOfDay(secs: nat)
    ensures (secs / 3600) % 24 * 3600 + (secs / 60) % 60 * 60 + secs % 60 == secs % DAY
  {
    var minutes, hours, days := secs / 60, secs / 3600, secs / DAY;
    assert hours == minutes / 60 && days == hours / 24;
    assert secs == 60 * minutes + secs % 60 && minutes == 60 * hours + minutes % 60 && hours == 24 * days + hours % 24;
  }

  // ---- What the clock promises ----------------------------------------------------------------

  /** The number of the first day whose year does not fit 16 bits. */
  lemma LastYear()
    ensures YearStart(0x1_0000) == 23217004
  {
  }

  /** The date's own year gives the day number back exactly before the year 65536. */
  lemma DateGivesDayBack(fullYear: nat, month: int, day: int)
    requires ValidDay(fullYear, month, day)
    ensures DayNumber(Truncate16(fullYear), month, day) == DayNumber(fullYear, month, day)
      <==> fullYear < 0x1_0000
    ensures fullYear < 0x1_0000 <==> DayNumber(fullYear, month, day) < YearStart(0x1_0000)
  {
    hide YearStart, MonthStart, IsLeap;
    WithinYear(fullYear, month, day);
    if fullYear < 0x1_0000 {
      YearsIncrease(fullYear, 0x1_0000);
    } else {
      if fullYear > 0x1_0000 { YearsIncrease(0x1_0000, fullYear); }
      YearsIncrease(Truncate16(fullYear), fullYear);
      SameDayLater(Truncate16(fullYear), fullYear, month, day);
    }
  }

  lemma SameDayLater(y: int, z: int, month: int, day: int)
    requires ValidDay(z, month, day) && YearStart(y) + YearLength(y) <= YearStart(z)
    ensures DayNumber(y, month, day) < DayNumber(z, month, day)
  {
    hide YearStart;
    LeapShift(y, z, month);
  }

  lemma LeapShift(y: int, z: int, month: int)
    requires 1 <= month <= 12
    ensures MonthStart(y, month) <= MonthStart(z, month) + 1
  {
  }

  /** Sunday as 0, computed from the date alone. */
  function DayOfWeek(year: int, month: int, day: int): int
    requires 1 <= month <= 12
    ensures 0 <= DayOfWeek(year, month, day) < 7
  {
    var y := if month < 3 then year - 1 else year;
    (y + Leaps(y) + MonthOffsets()[month - 1] + day) % 7
  }

  function MonthOffsets(): (ts: seq<int>)
    ensures |ts| == 12
  {
    [0, 3, 2, 5, 0, 3, 5, 1, 4, 6, 2, 4]
  }

  /** Whole weeks from the first of January to the first of a month. */
  function MonthWeeks(): (ws: seq<int>)
    ensures |ws| == 12
  {
    [0, 4, 8, 12, 17, 21, 25, 30, 34, 38, 43, 47]
  }

  lemma MonthResidue(year: int, month: int)
    requires 1 <= month <= 12
    ensures MonthStart(year, month) == 7 * MonthWeeks()[month - 1] + MonthOffsets()[month - 1]
      + if month < 3 then 0 else if IsLeap(year) then 2 else 1
  {
    hide IsLeap;
  }

  lemma WholeWeeks(x: int, weeks: int)
    ensures (x + 7 * weeks) % 7 == x % 7
  {
  }

  /** The weekday counted from the epoch is the weekday of the date. */
  lemma WeekdayOfDate(year: int, month: int, day: int)
    requires ValidDay(year, month, day)
    ensures (DayNumber(year, month, day) + 4) % 7 == DayOfWeek(year, month, day)
  {
    var w := MonthWeeks()[month - 1];
    assert Leaps(1969) == 477;
    hide IsLeap, Leaps, MonthStart, MonthOffsets, MonthWeeks;
    LeapsStep(year);
    MonthResidue(year, month);
    var y := if month < 3 then year - 1 else year;
    WholeWeeks(y + Leaps(y) + MonthOffsets()[month - 1] + day, 52 * year - 102789 + w);
  }
}
