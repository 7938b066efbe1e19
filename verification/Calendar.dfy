/** UTC conversion of the crash path: `crash_utc` in src/hx_clog_crash.c.
  *
  * The C function is straight-line 64-bit arithmetic (civil-from-days). It is
  * modelled as a function that keeps C's truncating division and the final
  * casts to `int`, and is proved to be the proleptic Gregorian calendar.
  */
module Calendar {

  // ---- C integer operators (divisor positive) ----

  function TruncDiv(a: int, b: int): (q: int)
    requires b > 0
    ensures a >= 0 ==> q == a / b
    ensures a < 0 ==> q == -((-a) / b)
  {
    if a >= 0 then a / b else -((-a) / b)
  }

  function TruncMod(a: int, b: int): int
    requires b > 0
  {
    a - b * TruncDiv(a, b)
  }

  /** The value a 64-bit integer takes when it is cast to a 32-bit `int`. */
  function ToInt32(x: int): (r: int)
    ensures -0x8000_0000 <= r < 0x8000_0000
    ensures -0x8000_0000 <= x < 0x8000_0000 ==> r == x
  {
    var m := x % 0x1_0000_0000;
    if m < 0x8000_0000 then m else m - 0x1_0000_0000
  }

  /** `struct tm` as far as the report uses it, with the C offsets:
    * `year` counts from 1900 and `mon` from 0. */
  datatype Tm = Tm(year: int, mon: int, mday: int, hour: int, min: int, sec: int, wday: int)

  // ---- The C computation, in its own steps ----

  /** Days since the epoch, and seconds within that day, with the sign fix-up. */
  function SplitSeconds(t: int): (int, int) {
    var days := TruncDiv(t, 86400);
    var rem := TruncMod(t, 86400);
    if rem < 0 then (days - 1, rem + 86400) else (days, rem)
  }

  datatype Date = Date(year: int, month: int, day: int)

  function EraOf(z: int): int {
    TruncDiv(if z >= 0 then z else z - 146096, 146097)
  }

  function YearOfEra(doe: int): int
    requires 0 <= doe < 146097
  {
    (doe - doe / 1460 + doe / 36524 - doe / 146096) / 365
  }

  /** First day of March-based year `y` within its 400-year era. */
  function YearStart(y: int): int {
    365 * y + y / 4 - y / 100
  }

  function DateOfEra(era: int, doe: int): Date
    requires 0 <= doe < 146097
  {
    var yoe := YearOfEra(doe);
    DateOfYear(yoe + era * 400, doe - YearStart(yoe))
  }

  /** Calendar date of day `doy` of the March-based year `y`. */
  function DateOfYear(y: int, doy: int): Date {
    var mp := TruncDiv(5 * doy + 2, 153);
    var d := doy - TruncDiv(153 * mp + 2, 5) + 1;
    var m := if mp < 10 then mp + 3 else mp - 9;
    Date(y + (if m <= 2 then 1 else 0), m, d)
  }

  function CivilFromDays(days: int): Date {
    var z := days + 719468;
    EraIsFloor(z);
    DateOfEra(EraOf(z), z - EraOf(z) * 146097)
  }

  function CrashUtc(t: int): Tm {
    var (days, rem) := SplitSeconds(t);
    var date := CivilFromDays(days);
    var w := TruncMod(days + 4, 7);
    Tm(ToInt32(date.year) - 1900, date.month - 1, date.day,
       TruncDiv(rem, 3600), TruncDiv(TruncMod(rem, 3600), 60), TruncMod(rem, 60),
       if w < 0 then w + 7 else w)
  }

  // ---- The reference calendar ----

  predicate IsLeap(y: int) {
    y % 4 == 0 && (y % 100 != 0 || y % 400 == 0)
  }

  function DaysInMonth(y: int, m: int): (n: int)
    ensures 28 <= n <= 31
  {
    if m == 2 then (if IsLeap(y) then 29 else 28)
    else if m == 4 || m == 6 || m == 9 || m == 11 then 30
    else 31
  }

  predicate ValidDate(d: Date) {
    1 <= d.month <= 12 && 1 <= d.day <= DaysInMonth(d.year, d.month)
  }

  function NextDay(d: Date): Date {
    if d.day < DaysInMonth(d.year, d.month) then Date(d.year, d.month, d.day + 1)
    else if d.month < 12 then Date(d.year, d.month + 1, 1)
    else Date(d.year + 1, 1, 1)
  }

  function PreviousDay(d: Date): Date {
    if d.day > 1 then Date(d.year, d.month, d.day - 1)
    else if d.month > 1 then Date(d.year, d.month - 1, DaysInMonth(d.year, d.month - 1))
    else Date(d.year - 1, 12, 31)
  }

  /** The date reached from 1970-01-01 by walking `n` days along the calendar,
    * backwards when `n` is negative. */
  function Walk(n: int): Date
    decreases if n >= 0 then n else -n
  {
    if n == 0 then Date(1970, 1, 1)
    else if n > 0 then NextDay(Walk(n - 1))
    else PreviousDay(Walk(n + 1))
  }

  // ---- Era arithmetic ----

  lemma EraIsFloor(z: int)
    ensures EraOf(z) == z / 146097
    ensures 0 <= z - EraOf(z) * 146097 < 146097
  {
    if z < 0 {
      var q, r := z / 146097, z % 146097;
      assert 146096 - z == 146097 * (-q) + (146096 - r);
      assert (146096 - z) / 146097 == -q;
    }
  }

  /** Number of days of the March-based year `y` of an era: 366 exactly when the
    * calendar year that holds its February is a leap year. */
  function YearLength(y: int): int {
    if IsLeap(y + 1) then 366 else 365
  }

  lemma DivStep(y: int, k: int)
    requires k == 4 || k == 100
    ensures (y + 1) / k == y / k + (if (y + 1) % k == 0 then 1 else 0)
  {
  }

  lemma YearStartStep(y: int)
    requires 0 <= y < 399
    ensures YearStart(y + 1) == YearStart(y) + YearLength(y)
  {
    DivStep(y, 4);
    DivStep(y, 100);
    LeapBelow400(y + 1);
  }

  lemma LeapBelow400(y: int)
    requires 0 < y < 400
    ensures IsLeap(y) <==> y % 4 == 0 && y % 100 != 0
    ensures y % 100 == 0 ==> y % 4 == 0
  {
    if y % 100 == 0 {
      assert y == 100 || y == 200 || y == 300;
    }
  }

  /** A day of an era, taken apart into centuries, leap cycles and years. */
  lemma YearOfEraSplit(c: int, q: int, s: int, d: int)
    requires 0 <= c < 4 && 0 <= q < 25 && 0 <= s < 4 && 0 <= d <= 365
    requires d == 365 ==> s == 3 && q < 24
    ensures var doe := 36524 * c + 1461 * q + 365 * s + d;
            0 <= doe < 146096 && YearOfEra(doe) == 100 * c + 4 * q + s
  {
    var doe := 36524 * c + 1461 * q + 365 * s + d;
    var rest := 24 * c + q + 365 * s + d;
    var e := if rest >= 1460 then 1 else 0;
    assert doe == 1460 * (25 * c + q + e) + (rest - 1460 * e);
    assert doe / 1460 == 25 * c + q + e;
    assert doe / 36524 == c;
    assert doe - doe / 1460 + c == 365 * (100 * c + 4 * q + s) + (d - e);
  }

  /** The division chain of the C code finds the year that holds the day. */
  lemma YearOfEraBounds(doe: int)
    requires 0 <= doe < 146097
    ensures 0 <= YearOfEra(doe) < 400
    ensures YearStart(YearOfEra(doe)) <= doe
    ensures doe < YearStart(YearOfEra(doe)) + YearLength(YearOfEra(doe))
  {
    if doe < 146096 {
      var c, q, s, d := SplitDay(doe);
      hide YearOfEra, YearStart, YearLength;
      YearOfEraSplit(c, q, s, d);
      YearStartOfSplit(c, q, s);
    } else {
      assert YearOfEra(doe) == 399;
    }
  }

  /** Century, leap cycle, year and day of a day of an era. */
  lemma SplitDay(doe: int) returns (c: int, q: int, s: int, d: int)
    requires 0 <= doe < 146096
    ensures 0 <= c < 4 && 0 <= q < 25 && 0 <= s < 4 && 0 <= d <= 365
    ensures d == 365 ==> s == 3 && q < 24
    ensures doe == 36524 * c + 1461 * q + 365 * s + d
  {
    c := doe / 36524;
    var r := doe % 36524;
    q := r / 1461;
    var r2 := r % 1461;
    s := if r2 < 365 then 0 else if r2 < 730 then 1 else if r2 < 1095 then 2 else 3;
    d := r2 - 365 * s;
  }

  lemma YearStartOfSplit(c: int, q: int, s: int)
    requires 0 <= c < 4 && 0 <= q < 25 && 0 <= s < 4
    ensures YearStart(100 * c + 4 * q + s) == 36524 * c + 1461 * q + 365 * s
    ensures YearLength(100 * c + 4 * q + s) ==
            if s == 3 && (q < 24 || c == 3) then 366 else 365
  {
    var y := 100 * c + 4 * q + s;
    assert y == 4 * (25 * c + q) + s && y == 100 * c + (4 * q + s);
    assert y / 4 == 25 * c + q && y / 100 == c;
    assert (y + 1) % 4 == (s + 1) % 4;
    assert (y + 1) % 100 == 0 <==> 4 * q + s == 99;
    assert 4 * q + s == 99 ==> y + 1 == 100 * (c + 1);
  }

  /** Years of an era do not overlap. */
  lemma {:induction false} YearsAreDisjoint(y: int, y': int)
    requires 0 <= y < y' < 400
    ensures YearStart(y) + YearLength(y) <= YearStart(y')
    decreases y'
  {
    YearStartStep(y' - 1);
    if y < y' - 1 {
      YearsAreDisjoint(y, y' - 1);
    }
  }

  lemma YearOfEraIs(doe: int, y: int)
    requires 0 <= doe < 146097 && 0 <= y < 400
    requires YearStart(y) <= doe < YearStart(y) + YearLength(y)
    ensures YearOfEra(doe) == y
  {
    YearOfEraBounds(doe);
    var x := YearOfEra(doe);
    if x < y {
      YearsAreDisjoint(x, y);
    } else if y < x {
      YearsAreDisjoint(y, x);
    }
  }

  /** The leap-year rule has period 400, so it may be applied inside an era. */
  lemma YearLengthPeriodic(y: int, era: int)
    ensures YearLength(y + era * 400) == YearLength(y)
  {
    var x := y + 1;
    assert (x + era * 400) % 4 == x % 4 by { ModPeriod(x, 4, era * 100); }
    assert (x + era * 400) % 100 == x % 100 by { ModPeriod(x, 100, era * 4); }
    assert (x + era * 400) % 400 == x % 400 by { ModPeriod(x, 400, era); }
  }

  lemma ModPeriod(x: int, m: int, k: int)
    requires m == 4 || m == 100 || m == 400
    ensures (x + k * m) % m == x % m
  {
  }

  // ---- Months within a March-based year ----

  /** First day of month `mp` (0 is March) of a March-based year. */
  function MonthStart(mp: int): int {
    if mp == 0 then 0 else if mp == 1 then 31 else if mp == 2 then 61
    else if mp == 3 then 92 else if mp == 4 then 122 else if mp == 5 then 153
    else if mp == 6 then 184 else if mp == 7 then 214 else if mp == 8 then 245
    else if mp == 9 then 275 else if mp == 10 then 306 else if mp == 11 then 337
    else 366
  }

  function MonthOf(doy: int): int {
    TruncDiv(5 * doy + 2, 153)
  }

  /** The two month formulas agree with the table of month starts. */
  lemma MonthTable(doy: int)
    requires 0 <= doy < 366
    ensures 0 <= MonthOf(doy) < 12
    ensures MonthStart(MonthOf(doy)) <= doy < MonthStart(MonthOf(doy) + 1)
    ensures TruncDiv(153 * MonthOf(doy) + 2, 5) == MonthStart(MonthOf(doy))
  {
    var mp := MonthOf(doy);
    assert 153 * mp <= 5 * doy + 2 < 153 * mp + 153;
  }

  lemma DateOfYearValid(y: int, doy: int)
    requires 0 <= doy < YearLength(y)
    ensures ValidDate(DateOfYear(y, doy))
  {
    hide TruncDiv, IsLeap;
    MonthTable(doy);
    assert TruncDiv(5 * doy + 2, 153) == MonthOf(doy);
  }

  /** Day `d` of month `mp` of the March-based year `y`. */
  function DateInMonth(y: int, mp: int, d: int): Date {
    Date(y + (if mp >= 10 then 1 else 0), if mp < 10 then mp + 3 else mp - 9, d)
  }

  lemma DateOfYearIs(y: int, doy: int)
    requires 0 <= doy < 366
    ensures 0 <= MonthOf(doy) < 12
    ensures DateOfYear(y, doy) == DateInMonth(y, MonthOf(doy), doy - MonthStart(MonthOf(doy)) + 1)
  {
    hide TruncDiv, MonthStart;
    MonthTable(doy);
    assert TruncDiv(5 * doy + 2, 153) == MonthOf(doy);
  }

  lemma MonthStartsRise(m: int, n: int)
    requires 0 <= m < n <= 12
    ensures MonthStart(m) < MonthStart(n)
  {
  }

  lemma NextMonthOf(doy: int)
    requires 0 <= doy && doy + 1 < 366
    ensures 0 <= MonthOf(doy) && MonthOf(doy + 1) < 12
    ensures MonthOf(doy + 1)
            == if doy + 1 < MonthStart(MonthOf(doy) + 1) then MonthOf(doy) else MonthOf(doy) + 1
    ensures doy + 1 <= MonthStart(MonthOf(doy) + 1)
  {
    hide MonthOf, MonthStart, TruncDiv;
    MonthTable(doy);
    MonthTable(doy + 1);
    var m, n := MonthOf(doy), MonthOf(doy + 1);
    if n < m {
      if n + 1 < m {
        MonthStartsRise(n + 1, m);
      }
    } else if m + 1 < n {
      MonthStartsRise(m + 1, n);
    }
  }

  /** The table of month starts agrees with the lengths of the months. */
  lemma MonthLength(y: int, mp: int)
    requires 0 <= mp < 12
    ensures var end := if mp == 11 then YearLength(y) else MonthStart(mp + 1);
            end - MonthStart(mp) == DaysInMonth(DateInMonth(y, mp, 1).year, DateInMonth(y, mp, 1).month)
  {
    hide IsLeap;
  }

  lemma DateOfYearStep(y: int, doy: int)
    requires 0 <= doy && doy + 1 < YearLength(y)
    ensures DateOfYear(y, doy + 1) == NextDay(DateOfYear(y, doy))
  {
    hide MonthOf, MonthStart, DateOfYear, DaysInMonth, IsLeap;
    var mp := MonthOf(doy);
    DateOfYearIs(y, doy);
    DateOfYearIs(y, doy + 1);
    NextMonthOf(doy);
    MonthLength(y, mp);
    if mp == 11 {
      LastMonth();
    }
  }

  lemma LastMonth()
    ensures MonthStart(12) == 366
  {
  }

  lemma DateOfYearWrap(y: int)
    ensures DateOfYear(y + 1, 0) == NextDay(DateOfYear(y, YearLength(y) - 1))
  {
    hide IsLeap;
    MonthTable(YearLength(y) - 1);
  }

  // ---- The main results ----

  /** The day number of day `doy` of year `y` of era `era`. */
  function DayNumber(era: int, y: int, doy: int): int {
    era * 146097 + YearStart(y) + doy - 719468
  }

  /** Where day `days` lies: its era, year of the era and day of the year. */
  lemma CivilPosition(days: int) returns (era: int, y: int, doy: int)
    ensures 0 <= y < 400 && 0 <= doy < YearLength(y)
    ensures days == DayNumber(era, y, doy)
    ensures y == 399 && doy == YearLength(y) - 1 ==> days + 1 == DayNumber(era + 1, 0, 0)
  {
    hide YearOfEra;
    var z := days + 719468;
    era := z / 146097;
    y := YearOfEra(z % 146097);
    YearOfEraBounds(z % 146097);
    doy := z % 146097 - YearStart(y);
  }

  lemma CivilAt(era: int, y: int, doy: int)
    requires 0 <= y < 400 && 0 <= doy < YearLength(y)
    ensures CivilFromDays(DayNumber(era, y, doy)) == DateOfYear(y + era * 400, doy)
    ensures YearLength(y + era * 400) == YearLength(y)
  {
    hide YearOfEra, DateOfYear;
    var doe := YearStart(y) + doy;
    var z := era * 146097 + doe;
    if y < 399 {
      YearsAreDisjoint(y, 399);
    }
    EraIsFloor(z);
    assert z / 146097 == era;
    YearOfEraIs(doe, y);
    YearLengthPeriodic(y, era);
  }

  /** Every result is an existing date of the Gregorian calendar. */
  lemma CivilIsValid(days: int)
    ensures ValidDate(CivilFromDays(days))
  {
    hide CivilFromDays, YearStart, YearLength, DateOfYear;
    var era, y, doy := CivilPosition(days);
    CivilAt(era, y, doy);
    DateOfYearValid(y + era * 400, doy);
  }

  /** Consecutive days are consecutive dates. */
  lemma CivilSuccessor(days: int)
    ensures CivilFromDays(days + 1) == NextDay(CivilFromDays(days))
  {
    hide CivilFromDays, YearStart, DateOfYear, NextDay;
    var era, y, doy := CivilPosition(days);
    CivilAt(era, y, doy);
    if doy + 1 < YearLength(y) {
      CivilAt(era, y, doy + 1);
      DateOfYearStep(y + era * 400, doy);
    } else {
      DateOfYearWrap(y + era * 400);
      if y < 399 {
        YearStartStep(y);
        CivilAt(era, y + 1, 0);
      } else {
        CivilAt(era + 1, 0, 0);
      }
    }
  }

  lemma NextThenPrevious(d: Date)
    requires ValidDate(d)
    ensures PreviousDay(NextDay(d)) == d
  {
  }

  lemma EpochDate()
    ensures CivilFromDays(0) == Date(1970, 1, 1)
  {
    assert YearOfEra(135080) == 369;
  }

  /** The C arithmetic is the Gregorian calendar: it gives the date that walking
    * the calendar day by day from 1970-01-01 gives, in both directions. */
  lemma {:induction false} CivilIsWalk(days: int)
    ensures CivilFromDays(days) == Walk(days)
    decreases if days >= 0 then days else -days
  {
    hide CivilFromDays, NextDay, PreviousDay;
    if days == 0 {
      EpochDate();
    } else if days > 0 {
      CivilIsWalk(days - 1);
      CivilSuccessor(days - 1);
    } else {
      CivilIsWalk(days + 1);
      CivilSuccessor(days);
      CivilIsValid(days);
      NextThenPrevious(CivilFromDays(days));
    }
  }

  /** Weekday of a day, by counting from Thursday 1970-01-01 (Sunday is 0). */
  function WeekdayWalk(n: int): (w: int)
    ensures 0 <= w < 7
    decreases if n >= 0 then n else -n
  {
    if n == 0 then 4
    else if n > 0 then (WeekdayWalk(n - 1) + 1) % 7
    else (WeekdayWalk(n + 1) + 6) % 7
  }

  lemma {:induction false} WeekdayIsWalk(n: int)
    ensures WeekdayWalk(n) == (n + 4) % 7
    decreases if n >= 0 then n else -n
  {
    if n > 0 {
      WeekdayIsWalk(n - 1);
      WeekAdd(n + 3, 1);
    } else if n < 0 {
      WeekdayIsWalk(n + 1);
      WeekAdd(n + 5, 6);
      WeekAdd(n + 4, 7);
    }
  }

  lemma WeekAdd(x: int, k: int)
    requires 0 <= k <= 7
    ensures (x % 7 + k) % 7 == (x + k) % 7
    ensures k == 7 ==> (x + k) % 7 == x % 7
  {
    var q, r := x / 7, x % 7;
    var c := if r + k >= 7 then 1 else 0;
    var c' := if r + k - 7 * c >= 7 then c + 1 else c;
    assert x + k == 7 * (q + c') + (r + k - 7 * c');
    assert (x + k) % 7 == r + k - 7 * c';
  }

  lemma WeekdayFixUp(x: int)
    ensures (if TruncMod(x, 7) < 0 then TruncMod(x, 7) + 7 else TruncMod(x, 7)) == x % 7
  {
    if x < 0 {
      assert x == -7 * ((-x) / 7) - (-x) % 7;
    }
  }

  lemma SplitIsFloor(t: int)
    ensures SplitSeconds(t) == (t / 86400, t % 86400)
  {
    if t < 0 {
      assert t == -86400 * ((-t) / 86400) - (-t) % 86400;
    }
  }

  /** The whole contract of `crash_utc`, for every time whose calendar year fits
    * the `int` it is stored in: the date is the one reached by walking the
    * calendar, the fields are in range, and date and time of day recombine to
    * the input, negative inputs included. */
  lemma CrashUtcIsGregorian(t: int)
    requires -0x8000_0000 + 1900 <= Walk(t / 86400).year < 0x8000_0000
    ensures var tm := CrashUtc(t); var days := t / 86400;
            && Date(tm.year + 1900, tm.mon + 1, tm.mday) == Walk(days)
            && 0 <= tm.mon < 12 && 1 <= tm.mday <= DaysInMonth(tm.year + 1900, tm.mon + 1)
            && 0 <= tm.hour < 24 && 0 <= tm.min < 60 && 0 <= tm.sec < 60
            && tm.wday == WeekdayWalk(days)
            && t == days * 86400 + tm.hour * 3600 + tm.min * 60 + tm.sec
  {
    hide CivilFromDays, SplitSeconds;
    var days := t / 86400;
    SplitIsFloor(t);
    CivilIsWalk(days);
    CivilIsValid(days);
    WeekdayFixUp(days + 4);
    WeekdayIsWalk(days);
  }

  lemma LandsOn(days: int, era: int, yoe: int, doy: int)
    requires 0 <= yoe < 400 && 0 <= doy < YearLength(yoe) && YearStart(yoe) + doy < 146097
    requires days + 719468 == era * 146097 + YearStart(yoe) + doy
    ensures CivilFromDays(days) == DateOfYear(yoe + era * 400, doy)
  {
    hide EraOf, YearOfEra, YearLength, YearStart, DateOfYear;
    var z := days + 719468;
    EraIsFloor(z);
    StartsAtZero(yoe);
    assert EraOf(z) == era;
    YearOfEraIs(YearStart(yoe) + doy, yoe);
  }

  lemma StartsAtZero(yoe: int)
    requires 0 <= yoe
    ensures YearStart(yoe) >= 0
  {
  }

  /** Dates that fix the calendar: the epoch and the day before it, a leap day in a year
    * divisible by 400, and the first of March behind the 28th of February in 2100. The
    * epoch was a Thursday. */
  lemma KnownDates()
    ensures CivilFromDays(0) == Date(1970, 1, 1)
    ensures CivilFromDays(-1) == Date(1969, 12, 31)
    ensures CivilFromDays(11016) == Date(2000, 2, 29)
    ensures CivilFromDays(47540) == Date(2100, 2, 28)
    ensures CivilFromDays(47541) == Date(2100, 3, 1)
    ensures CivilFromDays(-25508) == Date(1900, 3, 1)
    ensures CivilFromDays(20088) == Date(2024, 12, 31)
    ensures Walk(0) == Date(1970, 1, 1) && WeekdayWalk(0) == 4
  {
    hide CivilFromDays;
    LandsOn(0, 4, 369, 306);
    LandsOn(-1, 4, 369, 305);
    LandsOn(11016, 4, 399, 365);
    LandsOn(47540, 5, 99, 364);
    LandsOn(47541, 5, 100, 0);
    LandsOn(-25508, 4, 300, 0);
    LandsOn(20088, 5, 24, 305);
  }

  // ---- Different days have different dates ----

  predicate Earlier(a: Date, b: Date) {
    a.year < b.year
    || (a.year == b.year && (a.month < b.month || (a.month == b.month && a.day < b.day)))
  }

  /** Dates order exactly as the days they stand for, so no date is given twice. */
  lemma {:induction false} CivilIsMonotone(a: int, b: int)
    requires a < b
    ensures Earlier(CivilFromDays(a), CivilFromDays(b))
    decreases b - a
  {
    hide CivilFromDays;
    CivilSuccessor(b - 1);
    CivilIsValid(b - 1);
    if a < b - 1 {
      CivilIsMonotone(a, b - 1);
    }
  }
}
