/** The calendar conversions of `DateTime`: seconds since the epoch to calendar fields and back. */
module Calendar {
  import opened Arithmetic
  import opened Wrappers

  datatype DateTime = DateTime(sec: nat, min: nat, hr: nat, day: nat, mon: nat, year: nat, wday: nat)

  const LIMIT: nat := 253402300800
  const LEAPOCH: int := 11017
  const DAYS_PER_400_YEAR: int := 146097
  const DAYS_PER_100_YEAR: int := 36524
  const DAYS_PER_4_YEAR: int := 1461
  const MONTHS: seq<int> := [31, 30, 31, 30, 31, 31, 30, 31, 30, 31, 31, 29]

  /** Division and remainder that truncate toward zero. */
  function TruncDiv(a: int, b: int): int
    requires b > 0
  {
    if a >= 0 then a / b else -(-a / b)
  }

  function TruncMod(a: int, b: int): int
    requires b > 0
  {
    a - TruncDiv(a, b) * b
  }

  // ---- Seconds to date ----

  /** A day, counted from 1 March 2000, in 400-, 100-, 4- and 1-year cycles and a rest. */
  datatype Cycles = Cycles(qc: int, c: int, q: int, y: int, rest: int)

  function Decompose(days: int): Cycles {
    var qc := TruncDiv(days, DAYS_PER_400_YEAR);
    var rest := TruncMod(days, DAYS_PER_400_YEAR);
    var qc' := if rest < 0 then qc - 1 else qc;
    var r0 := if rest < 0 then rest + DAYS_PER_400_YEAR else rest;
    var c := TruncDiv(r0, DAYS_PER_100_YEAR);
    var c' := if c == 4 then 3 else c;
    var r1 := r0 - c' * DAYS_PER_100_YEAR;
    var q := TruncDiv(r1, DAYS_PER_4_YEAR);
    var q' := if q == 25 then 24 else q;
    var r2 := r1 - q' * DAYS_PER_4_YEAR;
    var y := TruncDiv(r2, 365);
    var y' := if y == 4 then 3 else y;
    Cycles(qc', c', q', y', r2 - y' * 365)
  }

  /** The year that starts in March, as meant. */
  function MarchYear(k: Cycles): int {
    2000 + k.y + 4 * k.q + 100 * k.c + 400 * k.qc
  }

  /** The month loop: the index of the month, counted from 1 for March, and the days left in it. */
  function MonthLoop(rest: int, i: nat): (int, int)
    requires i < 12
    decreases 12 - i
  {
    if rest < MONTHS[i] then (i + 1, rest)
    else if i == 11 then (12, rest - MONTHS[i])
    else MonthLoop(rest - MONTHS[i], i + 1)
  }

  function Weekday(days: int): int {
    var w := TruncMod(3 + days, 7);
    if w <= 0 then w + 7 else w
  }

  /** Year, month and day of a day counted from 1 March 2000. */
  function Civil(days: int): (int, int, int) {
    CivilOf(Decompose(days))
  }

  function CivilOf(k: Cycles): (int, int, int) {
    var (mon, rest) := MonthLoop(k.rest, 0);
    if mon + 2 > 12 then (MarchYear(k) + 1, mon - 10, rest + 1) else (MarchYear(k), mon + 2, rest + 1)
  }

  // ---- Date to seconds ----

  predicate IsLeapYear(y: int) {
    y % 4 == 0 && (y % 100 != 0 || y % 400 == 0)
  }

  /** Leap years from 1970 up to but not including the year; unsigned, so the subtractions must not go below
      zero. */
  function LeapYears(year: nat): nat
    requires 1970 <= year
  {
    var a: nat := (year - 1 - 1968) / 4;
    var b: nat := (year - 1 - 1900) / 100;
    var c: nat := (year - 1 - 1600) / 400;
    LeapTermsFit(year);
    var d: nat := a - b;
    d + c
  }

  lemma LeapTermsFit(year: nat)
    requires 1970 <= year
    ensures (year - 1 - 1968) / 4 >= (year - 1 - 1900) / 100
  {
  }

  function DaysToMonth(mon: nat): nat
    requires 1 <= mon <= 12
  {
    [0, 31, 59, 90, 120, 151, 181, 212, 243, 273, 304, 334][mon - 1]
  }

  function DayNumber(year: nat, mon: nat, day: nat): int
    requires 1970 <= year && 1 <= mon <= 12
  {
    var yDays := DaysToMonth(mon) + day - 1 + if IsLeapYear(year) && mon > 2 then 1 else 0;
    (year - 1970) * 365 + LeapYears(year) + yDays
  }

  // ---- The Gregorian calendar, year by year and month by month ----

  function YearDays(y: int): int {
    if IsLeapYear(y) then 366 else 365
  }

  function MonthDays(y: int, m: int): int {
    if m == 2 then (if IsLeapYear(y) then 29 else 28)
    else if m == 4 || m == 6 || m == 9 || m == 11 then 30
    else 31
  }

  /** The months by number, and how the rule for leap years falls on the centuries. */
  lemma MonthLengths(y: int)
    ensures MonthDays(y, 1) == 31 && MonthDays(y, 3) == 31 && MonthDays(y, 4) == 30 && MonthDays(y, 5) == 31
    ensures MonthDays(y, 6) == 30 && MonthDays(y, 7) == 31 && MonthDays(y, 8) == 31 && MonthDays(y, 9) == 30
    ensures MonthDays(y, 10) == 31 && MonthDays(y, 11) == 30 && MonthDays(y, 12) == 31
    ensures MonthDays(1972, 2) == 29 && MonthDays(1973, 2) == 28 && MonthDays(2000, 2) == 29 && MonthDays(2100, 2) == 28
  {
  }

  function DaysBeforeYear(y: nat): int
    requires 1970 <= y
  {
    if y == 1970 then 0 else DaysBeforeYear(y - 1) + YearDays(y - 1)
  }

  function DaysBeforeMonth(y: int, m: nat): int
    requires 1 <= m <= 13
  {
    if m == 1 then 0 else DaysBeforeMonth(y, m - 1) + MonthDays(y, m - 1)
  }

  predicate CalendarDay(y: int, m: int, d: int) {
    1970 <= y <= 9999 && 1 <= m <= 12 && 1 <= d <= MonthDays(y, m)
  }

  /** The closed form counts the days that the calendar counts one year at a time. */
  lemma {:induction false} ClosedFormCountsYears(year: nat)
    requires 1970 <= year
    ensures (year - 1970) * 365 + LeapYears(year) == DaysBeforeYear(year)
  {
    if year > 1970 {
      ClosedFormCountsYears(year - 1);
      LeapStep(year - 1);
    }
  }

  /** The quotient goes up at each multiple. */
  lemma NextQuotient(n: nat, m: nat)
    requires m > 1
    ensures (n + 1) / m == n / m + if (n + 1) % m == 0 then 1 else 0
  {
    var q, r := n / m, n % m;
    if r + 1 < m {
      MultipleHasNoRest(m, q, r + 1);
    } else {
      assert n + 1 == m * (q + 1);
      MultipleHasNoRest(m, q + 1, 0);
    }
  }

  lemma LeapAsSum(y: int)
    ensures (if IsLeapYear(y) then 1 else 0) ==
            (if y % 4 == 0 then 1 else 0) - (if y % 100 == 0 then 1 else 0) + (if y % 400 == 0 then 1 else 0)
  {
    if y % 400 == 0 {
      MultipleHasNoRest(100, 4 * (y / 400), 0);
    }
    if y % 100 == 0 {
      MultipleHasNoRest(4, 25 * (y / 100), 0);
    }
  }

  lemma SameRests(y: int)
    ensures (y - 1968) % 4 == y % 4 && (y - 1900) % 100 == y % 100 && (y - 1600) % 400 == y % 400
  {
    MultipleHasNoRest(4, y / 4 - 492, y % 4);
    MultipleHasNoRest(100, y / 100 - 19, y % 100);
    MultipleHasNoRest(400, y / 400 - 4, y % 400);
  }

  lemma LeapStep(y: nat)
    requires 1970 <= y
    ensures LeapYears(y + 1) == LeapYears(y) + if IsLeapYear(y) then 1 else 0
  {
    NextQuotient(y - 1969, 4);
    NextQuotient(y - 1901, 100);
    NextQuotient(y - 1601, 400);
    SameRests(y);
    LeapAsSum(y);
  }

  lemma MonthTable(y: nat, m: nat)
    requires 1 <= m <= 12
    ensures DaysBeforeMonth(y, m) == DaysToMonth(m) + if IsLeapYear(y) && m > 2 then 1 else 0
    ensures DaysBeforeMonth(y, 13) == YearDays(y)
  {
    var leap := if IsLeapYear(y) then 1 else 0;
    assert DaysBeforeMonth(y, 2) == 31;
    assert DaysBeforeMonth(y, 3) == 59 + leap;
    assert DaysBeforeMonth(y, 5) == 120 + leap;
    assert DaysBeforeMonth(y, 7) == 181 + leap;
    assert DaysBeforeMonth(y, 9) == 243 + leap;
    assert DaysBeforeMonth(y, 11) == 304 + leap;
  }

  lemma DayNumberIsCalendar(y: nat, m: nat, d: nat)
    requires 1970 <= y && 1 <= m <= 12
    ensures DayNumber(y, m, d) == DaysBeforeYear(y) + DaysBeforeMonth(y, m) + d - 1
  {
    ClosedFormCountsYears(y);
    MonthTable(y, m);
  }

  // ---- The cycles ----

  /** The cycles of a day: their sizes, their sum, and that the last day of a March year exists only when the
      February in it is long. */
  lemma CyclesOf(days: int)
    ensures var k := Decompose(days);
            && 0 <= k.c <= 3 && 0 <= k.q <= 24 && 0 <= k.y <= 3 && 0 <= k.rest <= 365
            && days == DAYS_PER_400_YEAR * k.qc + DAYS_PER_100_YEAR * k.c + DAYS_PER_4_YEAR * k.q + 365 * k.y + k.rest
            && (k.rest == 365 ==> k.y == 3 && (k.q != 24 || k.c == 3))
  {
    var qc := TruncDiv(days, DAYS_PER_400_YEAR);
    var rest := TruncMod(days, DAYS_PER_400_YEAR);
    assert -DAYS_PER_400_YEAR < rest < DAYS_PER_400_YEAR && days == DAYS_PER_400_YEAR * qc + rest;
  }

  /** With the year decomposed, the leap years before the following January are counted by the cycles. */
  lemma LeapsByCycles(k: Cycles)
    requires 0 <= k.c <= 3 && 0 <= k.q <= 24 && 0 <= k.y <= 3 && MarchYear(k) >= 1969
    ensures LeapYears(MarchYear(k) + 1) == 8 + 97 * k.qc + 24 * k.c + k.q
  {
    var n := MarchYear(k);
    assert (n - 1968) / 4 == 8 + 100 * k.qc + 25 * k.c + k.q;
    assert (n - 1900) / 100 == 1 + 4 * k.qc + k.c;
    assert (n - 1600) / 400 == 1 + k.qc;
  }

  lemma DividesOnlyAtEnd(size: int, a: int, t: int)
    requires size > 0 && 1 <= t <= size
    ensures (size * a + t) % size == 0 <==> t == size
  {
    if t == size {
      assert size * a + t == size * (a + 1);
      MultipleHasNoRest(size, a + 1, 0);
    } else {
      MultipleHasNoRest(size, a, t);
    }
  }

  /** When the February of a March year is long. */
  lemma LeapByCycles(k: Cycles)
    requires 0 <= k.c <= 3 && 0 <= k.q <= 24 && 0 <= k.y <= 3
    ensures IsLeapYear(MarchYear(k) + 1) <==> k.y == 3 && (k.q != 24 || k.c == 3)
  {
    var t := 4 * k.q + k.y + 1;
    DividesOnlyAtEnd(4, 500 + k.q + 25 * k.c + 100 * k.qc, k.y + 1);
    DividesOnlyAtEnd(100, 20 + k.c + 4 * k.qc, t);
    DividesOnlyAtEnd(400, 5 + k.qc, 100 * k.c + t);
  }

  /** Days before each month of the year that starts in March. */
  const STARTS: seq<int> := [0, 31, 61, 92, 122, 153, 184, 214, 245, 275, 306, 337, 366]

  lemma NextStart(i: nat)
    requires i < 12
    ensures STARTS[i + 1] == STARTS[i] + MONTHS[i] && (i == 11 ==> STARTS[i + 1] == 366)
  {
  }

  lemma {:induction false} MonthLoopSpec(rest: int, i: nat)
    requires i < 12 && 0 <= rest < 366 - STARTS[i]
    ensures var (mon, left) := MonthLoop(rest, i);
            i < mon <= 12 && 0 <= left < MONTHS[mon - 1] && rest + STARTS[i] == STARTS[mon - 1] + left
    decreases 12 - i
  {
    NextStart(i);
    if rest >= MONTHS[i] {
      MonthLoopSpec(rest - MONTHS[i], i + 1);
    }
  }

  lemma MonthStarts(mon: int)
    requires 1 <= mon <= 12
    ensures mon <= 10 ==> STARTS[mon - 1] == DaysToMonth(mon + 2) - 59 && MONTHS[mon - 1] == MonthDays(1, mon + 2)
    ensures mon <= 10 ==> STARTS[mon] <= 306
    ensures mon > 10 ==> STARTS[mon - 1] == 306 + DaysToMonth(mon - 10)
  {
  }

  /** The day of a March year counted from the epoch, and the range of the years. */
  predicate CountsTo(k: Cycles, n: int, day: int) {
    && 1969 <= n <= 9999 && (n == 9999 ==> k.rest < 306) && (n == 1969 ==> k.rest >= 306)
    && (n - 1970) * 365 + LeapYears(n + 1) + 59 + k.rest == day
    && 0 <= k.rest <= 365 && (k.rest == 365 ==> IsLeapYear(n + 1))
  }

  lemma MarchDay(days: int)
    requires -LEAPOCH <= days && days + LEAPOCH < LIMIT / 86400
    ensures CountsTo(Decompose(days), MarchYear(Decompose(days)), days + LEAPOCH)
  {
    var k := Decompose(days);
    CyclesOf(days);
    LeapByCycles(k);
    assert MarchYear(k) >= 1969;
    LeapsByCycles(k);
  }

  lemma MarchToDecember(n: nat, mon: int, left: int)
    requires 1970 <= n <= 9999 && 1 <= mon <= 10 && 0 <= left < MONTHS[mon - 1]
    ensures CalendarDay(n, mon + 2, left + 1)
    ensures DayNumber(n, mon + 2, left + 1) == (n - 1970) * 365 + LeapYears(n + 1) + 59 + STARTS[mon - 1] + left
  {
    MonthStarts(mon);
    LeapStep(n);
  }

  lemma JanuaryAndFebruary(n: nat, mon: int, left: int)
    requires 1969 <= n < 9999 && 11 <= mon <= 12 && 0 <= left < MONTHS[mon - 1]
    requires mon == 12 && left == 28 ==> IsLeapYear(n + 1)
    ensures CalendarDay(n + 1, mon - 10, left + 1)
    ensures DayNumber(n + 1, mon - 10, left + 1) ==
            (n - 1970) * 365 + LeapYears(n + 1) + 59 + STARTS[mon - 1] + left
  {
    MonthStarts(mon);
  }

  lemma CivilOfMonth(n: nat, rest: int, mon: int, left: int, day: int, y: int, m: int, d: int)
    requires 1969 <= n <= 9999 && (n == 9999 ==> rest < 306) && (n == 1969 ==> rest >= 306)
    requires 0 <= rest <= 365 && (rest == 365 ==> IsLeapYear(n + 1))
    requires 1 <= mon <= 12 && 0 <= left < MONTHS[mon - 1] && rest == STARTS[mon - 1] + left
    requires (n - 1970) * 365 + LeapYears(n + 1) + 59 + rest == day
    requires (y, m, d) == if mon > 10 then (n + 1, mon - 10, left + 1) else (n, mon + 2, left + 1)
    ensures CalendarDay(y, m, d) && DayNumber(y, m, d) == day
  {
    MonthStarts(mon);
    if mon <= 10 {
      MarchToDecember(n, mon, left);
    } else {
      JanuaryAndFebruary(n, mon, left);
    }
  }

  lemma CivilOfCycles(k: Cycles, day: int)
    requires CountsTo(k, MarchYear(k), day)
    ensures var (y, m, d) := CivilOf(k);
            CalendarDay(y, m, d) && DayNumber(y, m, d) == day
  {
    MonthLoopSpec(k.rest, 0);
    var (mon, left) := MonthLoop(k.rest, 0);
    var (y, m, d) := CivilOf(k);
    CivilOfMonth(MarchYear(k), k.rest, mon, left, day, y, m, d);
  }

  /** The year, month and day of a day are a day of the calendar, and the day that the calendar counts. */
  lemma CivilIsRight(days: int)
    requires -LEAPOCH <= days && days + LEAPOCH < LIMIT / 86400
    ensures var (y, m, d) := Civil(days);
            CalendarDay(y, m, d) && DayNumber(y, m, d) == days + LEAPOCH
  {
    MarchDay(days);
    CivilOfCycles(Decompose(days), days + LEAPOCH);
  }

  lemma CivilInRange(days: int)
    requires -LEAPOCH <= days && days + LEAPOCH < LIMIT / 86400
    ensures var (y, m, d) := Civil(days);
            1970 <= y <= 9999 && 1 <= m <= 12 && 1 <= d <= 31
  {
    CivilIsRight(days);
  }

  // ---- Whole dates ----

  /** The date of a number of seconds since the epoch. */
  function DateOf(secs: nat): DateTime
    requires secs < LIMIT
  {
    var days := secs / 86400 - LEAPOCH;
    var rest := secs % 86400;
    CivilInRange(days);
    var (y, m, d) := Civil(days);
    DateTime(rest % 60, rest % 3600 / 60, rest / 3600, d, m, y, Weekday(days))
  }

  /** The cycles of a day, taken off the remaining days one size after the other. */
  method SplitDays(days: int) returns (qc: int, c: int, q: int, years: int, rem: int)
    ensures Cycles(qc, c, q, years, rem) == Decompose(days)
  {
    qc := TruncDiv(days, DAYS_PER_400_YEAR);
    rem := TruncMod(days, DAYS_PER_400_YEAR);
    if rem < 0 {
      rem := rem + DAYS_PER_400_YEAR;
      qc := qc - 1;
    }
    c := TruncDiv(rem, DAYS_PER_100_YEAR);
    if c == 4 {
      c := c - 1;
    }
    rem := rem - c * DAYS_PER_100_YEAR;
    q := TruncDiv(rem, DAYS_PER_4_YEAR);
    if q == 25 {
      q := q - 1;
    }
    rem := rem - q * DAYS_PER_4_YEAR;
    years := TruncDiv(rem, 365);
    if years == 4 {
      years := years - 1;
    }
    rem := rem - years * 365;
  }

  /** The month loop over the table of month lengths. */
  method FindMonth(days: int) returns (mon: int, rem: int)
    ensures (mon, rem) == MonthLoop(days, 0)
  {
    mon, rem := 0, days;
    while true
      invariant 0 <= mon < 12
      invariant MonthLoop(days, 0) == MonthLoop(rem, mon)
      decreases 12 - mon
    {
      mon := mon + 1;
      if rem < MONTHS[mon - 1] {
        break;
      }
      rem := rem - MONTHS[mon - 1];
      if mon == 12 {
        break;
      }
    }
  }

  /** Year, month and day of a day. */
  method FindDate(days: int) returns (year: int, mon: int, day: int)
    ensures (year, mon, day) == Civil(days)
  {
    var qc, c, q, years, rem := SplitDays(days);
    year := 2000 + years + 4 * q + 100 * c + 400 * qc;
    mon, rem := FindMonth(rem);
    day := rem + 1;
    if mon + 2 > 12 {
      year := year + 1;
      mon := mon - 10;
    } else {
      mon := mon + 2;
    }
  }

  method FindWeekday(days: int) returns (wday: int)
    ensures wday == Weekday(days)
  {
    wday := TruncMod(3 + days, 7);
    if wday <= 0 {
      wday := wday + 7;
    }
  }

  /** Seconds since the epoch to date.  Fails from the year 10000 on. */
  method FromSeconds(secs: nat) returns (r: Option<DateTime>)
    ensures r == if secs < LIMIT then Some(DateOf(secs)) else None
  {
    if secs >= LIMIT {
      return None;
    }
    var days := secs / 86400 - LEAPOCH;
    var secInDay := secs % 86400;
    var year, mon, day := FindDate(days);
    var wday := FindWeekday(days);
    CivilInRange(days);
    r := Some(DateTime(secInDay % 60, secInDay % 3600 / 60, secInDay / 3600, day, mon, year, wday));
  }

  /** Seconds since the epoch of a date. */
  function ToSeconds(d: DateTime): int
    requires 1970 <= d.year && 1 <= d.mon <= 12
  {
    d.sec + d.min * 60 + d.hr * 3600 + DayNumber(d.year, d.mon, d.day) * 86400
  }

  /** The calendar's own account of a date: fields in range, the day within its month, and the weekday that a
      count of days from Thursday 1 January 1970 gives. */
  predicate CalendarDate(d: DateTime) {
    && d.sec < 60 && d.min < 60 && d.hr < 24
    && CalendarDay(d.year, d.mon, d.day)
    && d.wday == (DaysBeforeYear(d.year) + DaysBeforeMonth(d.year, d.mon) + d.day - 1 + 3) % 7 + 1
  }

  lemma WeekdayOfDay(days: int)
    requires -LEAPOCH <= days
    ensures Weekday(days) == (days + LEAPOCH + 3) % 7 + 1
  {
    var w := TruncMod(3 + days, 7);
    assert -7 < w < 7;
    assert 3 + days == 7 * TruncDiv(3 + days, 7) + w;
    MultipleHasNoRest(7, TruncDiv(3 + days, 7) + 1574 + if w <= 0 then 0 else 1, Weekday(days) - 1);
  }

  lemma DayIsCalendar(y: nat, m: nat, d: nat, days: int, date: DateTime)
    requires -LEAPOCH <= days && CalendarDay(y, m, d) && DayNumber(y, m, d) == days + LEAPOCH
    requires date.year == y && date.mon == m && date.day == d && date.wday == Weekday(days)
    requires date.sec < 60 && date.min < 60 && date.hr < 24
    ensures CalendarDate(date)
  {
    WeekdayOfDay(days);
    DayNumberIsCalendar(y, m, d);
  }

  /** Every second of the range falls on a date of the calendar, and on the second the date counts. */
  lemma DateOfIsCalendar(secs: nat)
    requires secs < LIMIT
    ensures CalendarDate(DateOf(secs)) && ToSeconds(DateOf(secs)) == secs
  {
    var days := secs / 86400 - LEAPOCH;
    var (y, m, d) := Civil(days);
    CivilIsRight(days);
    ClockOfDay(secs % 86400);
    DayIsCalendar(y, m, d, days, DateOf(secs));
  }

  lemma ClockOfDay(rest: nat)
    requires rest < 86400
    ensures rest % 60 + rest % 3600 / 60 * 60 + rest / 3600 * 3600 == rest
    ensures rest % 3600 / 60 < 60 && rest / 3600 < 24
  {
  }

  // ---- Order ----

  lemma {:induction false} YearsGrow(a: nat, b: nat)
    requires 1970 <= a <= b
    ensures DaysBeforeYear(a) <= DaysBeforeYear(b)
  {
    if a < b {
      YearsGrow(a, b - 1);
    }
  }

  lemma {:induction false} MonthsGrow(y: int, a: nat, b: nat)
    requires 1 <= a <= b <= 13
    ensures DaysBeforeMonth(y, a) <= DaysBeforeMonth(y, b)
  {
    if a < b {
      MonthsGrow(y, a, b - 1);
    }
  }

  predicate DayBefore(a: DateTime, b: DateTime) {
    a.year < b.year || (a.year == b.year && (a.mon < b.mon || (a.mon == b.mon && a.day < b.day)))
  }

  /** The days before a day of the calendar, one year and one month at a time. */
  function DaysBefore(y: nat, m: nat, d: nat): int
    requires 1970 <= y && 1 <= m <= 12
  {
    DaysBeforeYear(y) + DaysBeforeMonth(y, m) + d - 1
  }

  lemma YearOrder(y: nat, m: nat, d: nat, y': nat, m': nat, d': nat)
    requires CalendarDay(y, m, d) && CalendarDay(y', m', d') && y < y'
    ensures DaysBefore(y, m, d) < DaysBefore(y', m', d')
  {
    DayWithinYear(y, m, d);
    DayWithinYear(y', m', d');
    YearsGrow(y + 1, y');
  }

  lemma MonthOrder(y: nat, m: nat, d: nat, m': nat, d': nat)
    requires CalendarDay(y, m, d) && CalendarDay(y, m', d') && m < m'
    ensures DaysBefore(y, m, d) < DaysBefore(y, m', d')
  {
    MonthsGrow(y, m + 1, m');
  }

  lemma DaysOrdered(a: DateTime, b: DateTime)
    requires CalendarDate(a) && CalendarDate(b) && DayBefore(a, b)
    ensures DayNumber(a.year, a.mon, a.day) < DayNumber(b.year, b.mon, b.day)
  {
    DayNumberIsCalendar(a.year, a.mon, a.day);
    DayNumberIsCalendar(b.year, b.mon, b.day);
    if a.year < b.year {
      YearOrder(a.year, a.mon, a.day, b.year, b.mon, b.day);
    } else if a.mon < b.mon {
      MonthOrder(a.year, a.mon, a.day, b.mon, b.day);
    }
  }

  lemma DayWithinYear(y: nat, m: nat, d: nat)
    requires CalendarDay(y, m, d)
    ensures 0 <= DaysBeforeMonth(y, m) + d - 1 < YearDays(y)
  {
    MonthTable(y, m);
    MonthsGrow(y, 1, m);
    MonthsGrow(y, m + 1, 13);
  }

  /** The order of the fields, from the year down to the second. */
  predicate Before(a: DateTime, b: DateTime) {
    DayBefore(a, b) ||
    (a.year == b.year && a.mon == b.mon && a.day == b.day &&
    (a.hr < b.hr || (a.hr == b.hr && (a.min < b.min || (a.min == b.min && a.sec < b.sec)))))
  }

  lemma BeforeIsEarlier(a: DateTime, b: DateTime)
    requires CalendarDate(a) && CalendarDate(b) && Before(a, b)
    ensures ToSeconds(a) < ToSeconds(b)
  {
    if DayBefore(a, b) {
      DaysOrdered(a, b);
    }
  }

  /** Comparing two dates by their seconds compares them by their fields, and equal seconds mean equal dates. */
  lemma OrderIsFieldOrder(a: DateTime, b: DateTime)
    requires CalendarDate(a) && CalendarDate(b)
    ensures ToSeconds(a) < ToSeconds(b) <==> Before(a, b)
    ensures ToSeconds(a) == ToSeconds(b) <==> a == b
  {
    if Before(a, b) {
      BeforeIsEarlier(a, b);
    } else if Before(b, a) {
      BeforeIsEarlier(b, a);
    } else {
      assert a.year == b.year && a.mon == b.mon && a.day == b.day;
      assert a == b;
    }
  }

  // ---- Validity ----

  predicate FieldsInRange(d: DateTime) {
    d.sec < 60 && d.min < 60 && d.hr < 24 && 0 < d.day < 32 && 0 < d.mon <= 12 && 1970 <= d.year <= 9999
  }

  lemma YearLimit()
    ensures DaysBeforeYear(10000) * 86400 == LIMIT
  {
    ClosedFormCountsYears(10000);
  }

  /** A date with fields in range lies before the limit, even a day that its month does not have. */
  lemma InRangeIsBelowLimit(d: DateTime)
    requires FieldsInRange(d)
    ensures 0 <= ToSeconds(d) < LIMIT
    ensures DaysBeforeYear(d.year) <= DayNumber(d.year, d.mon, d.day) < DaysBeforeYear(d.year + 1)
  {
    ClosedFormCountsYears(d.year);
    YearsGrow(1970, d.year);
    YearsGrow(d.year + 1, 10000);
    YearLimit();
  }

  /** The source's own test of a date: fields in range, and a trip to seconds and back changes nothing. */
  predicate IsValid(d: DateTime) {
    FieldsInRange(d) && (InRangeIsBelowLimit(d); DateOf(ToSeconds(d)) == d)
  }

  /** The test accepts exactly the dates of the calendar. */
  lemma IsValidIsCalendar(d: DateTime)
    ensures IsValid(d) <==> CalendarDate(d)
  {
    if FieldsInRange(d) {
      InRangeIsBelowLimit(d);
      DateOfIsCalendar(ToSeconds(d));
      if CalendarDate(d) {
        OrderIsFieldOrder(d, DateOf(ToSeconds(d)));
      }
    } else {
      assert CalendarDate(d) ==> d.day <= MonthDays(d.year, d.mon) <= 31;
    }
  }

  /** The two conversions are inverse to each other, seconds below the limit on one side and the dates of the
      calendar on the other. */
  lemma RoundTrip(secs: nat, d: DateTime)
    requires secs < LIMIT
    ensures CalendarDate(d) && ToSeconds(d) == secs <==> d == DateOf(secs)
  {
    DateOfIsCalendar(secs);
    if CalendarDate(d) {
      OrderIsFieldOrder(d, DateOf(secs));
    }
  }

  // ---- The year as the source writes it ----

  /** Bitwise and of two numbers. */
  function And(a: nat, b: nat): (r: nat)
    ensures r <= b
  {
    if b == 0 then 0 else 2 * And(a / 2, b / 2) + (a % 2) * (b % 2)
  }

  /** The written line masks with the number of 400-year cycles instead of adding 400 times that number; a mask
      of -1 keeps every bit. */
  function WrittenMarchYear(k: Cycles): nat
    requires 0 <= k.c && 0 <= k.q && 0 <= k.y && k.qc >= -1
  {
    var sum := 2000 + k.y + 4 * k.q + 100 * k.c + 400;
    if k.qc == -1 then sum else And(sum, k.qc)
  }

  function WrittenYear(secs: nat): nat
    requires secs < LIMIT
  {
    var days := secs / 86400 - LEAPOCH;
    var k := Decompose(days);
    CyclesOf(days);
    WrittenMarchYear(k) + if MonthLoop(k.rest, 0).0 + 2 > 12 then 1 else 0
  }

  /** The written line gives the wrong year for every second of the range. */
  lemma WrittenYearIsNeverRight(secs: nat)
    requires secs < LIMIT
    ensures WrittenYear(secs) != DateOf(secs).year
  {
    var days := secs / 86400 - LEAPOCH;
    CyclesOf(days);
    MarchDay(days);
  }

  /** With the written line the test of a date accepts nothing. */
  predicate IsValidAsWritten(d: DateTime) {
    FieldsInRange(d) &&
    (InRangeIsBelowLimit(d); DateOf(ToSeconds(d)).(year := WrittenYear(ToSeconds(d))) == d)
  }

  lemma NothingIsValidAsWritten(d: DateTime)
    ensures !IsValidAsWritten(d)
  {
    if FieldsInRange(d) {
      InRangeIsBelowLimit(d);
      var secs := ToSeconds(d);
      WrittenYearIsNeverRight(secs);
      DateOfIsCalendar(secs);
      CalendarInRange(DateOf(secs));
      SameYear(DateOf(secs), d);
    }
  }

  lemma CalendarInRange(d: DateTime)
    requires CalendarDate(d)
    ensures FieldsInRange(d)
  {
  }

  /** Equal seconds are in equal years, even from a day that its month does not have. */
  lemma SameYear(d: DateTime, e: DateTime)
    requires FieldsInRange(d) && FieldsInRange(e)
    ensures ToSeconds(d) == ToSeconds(e) ==> d.year == e.year
  {
    InRangeIsBelowLimit(d);
    InRangeIsBelowLimit(e);
    if DayNumber(d.year, d.mon, d.day) == DayNumber(e.year, e.mon, e.day) {
      OneYearPerDay(d.year, e.year, DayNumber(d.year, d.mon, d.day));
    } else {
      SameDay(d, e);
    }
  }

  lemma SameDay(d: DateTime, e: DateTime)
    requires FieldsInRange(d) && FieldsInRange(e)
    ensures ToSeconds(d) == ToSeconds(e) ==> DayNumber(d.year, d.mon, d.day) == DayNumber(e.year, e.mon, e.day)
  {
  }

  lemma OneYearPerDay(a: nat, b: nat, n: int)
    requires 1970 <= a && 1970 <= b
    requires DaysBeforeYear(a) <= n < DaysBeforeYear(a + 1) && DaysBeforeYear(b) <= n < DaysBeforeYear(b + 1)
    ensures a == b
  {
    if a < b {
      YearsGrow(a + 1, b);
    } else if b < a {
      YearsGrow(b + 1, a);
    }
  }
}
