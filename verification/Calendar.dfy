/** Civil dates and UTC seconds: the broken-down time the recurrence code edits, its order, and
    timegm/gmtime_r as a day count built from the month-length table together with its inverse. */
module Calendar {

  // std::tm restricted to the six fields the code reads: `year` counts from 1900, `mon` from 0.
  datatype Tm = Tm(year: int, mon: int, mday: int, hour: int, min: int, sec: int)

  const SECONDS_PER_DAY := 86400

  predicate TmBefore(a: Tm, b: Tm) {
    if a.year != b.year then a.year < b.year
    else if a.mon != b.mon then a.mon < b.mon
    else if a.mday != b.mday then a.mday < b.mday
    else if a.hour != b.hour then a.hour < b.hour
    else if a.min != b.min then a.min < b.min
    else a.sec < b.sec
  }

  predicate TmBeforeOrEqual(a: Tm, b: Tm) {
    TmBefore(a, b) || a == b
  }

  lemma TmBeforeIsTotalOrder(a: Tm, b: Tm, c: Tm)
    ensures !TmBefore(a, a)
    ensures TmBefore(a, b) || a == b || TmBefore(b, a)
    ensures !(TmBefore(a, b) && TmBefore(b, a))
    ensures TmBefore(a, b) && TmBefore(b, c) ==> TmBefore(a, c)
  {
  }

  predicate LeapYear(y: int) {
    (y % 4 == 0 && y % 100 != 0) || y % 400 == 0
  }

  function DaysInMonth(year: int, month: int): (days: int)
    requires 0 <= month < 12
    ensures 28 <= days <= 31
  {
    if month == 1 then
      if LeapYear(year + 1900) then 29 else 28
    else if month in {3, 5, 8, 10} then 30
    else 31
  }

  predicate ValidTm(t: Tm) {
    && 0 <= t.mon < 12
    && 1 <= t.mday <= DaysInMonth(t.year, t.mon)
    && 0 <= t.hour < 24 && 0 <= t.min < 60 && 0 <= t.sec < 60
  }

  // ---- Day numbers: day 0 is 1 January 1970 ----

  /** Days of `year` before the first of month `mon`. */
  function MonthStart(year: int, mon: int): (days: int)
    requires 0 <= mon <= 12
    ensures 28 * mon <= days <= 31 * mon
  {
    if mon == 0 then 0 else MonthStart(year, mon - 1) + DaysInMonth(year, mon - 1)
  }

  function DaysInYear(year: int): int {
    if LeapYear(year + 1900) then 366 else 365
  }

  /** 365 days, or 366 in a year divisible by 4, unless it is divisible by 100 and not by 400. */
  lemma TwelveMonthsMakeAYear(year: int)
    ensures MonthStart(year, 12) == DaysInYear(year)
    ensures MonthStart(year, 12)
         == if (year + 1900) % 400 == 0 || ((year + 1900) % 4 == 0 && (year + 1900) % 100 != 0) then 366 else 365
  {
    assert MonthStart(year, 2) == 31 + DaysInMonth(year, 1);
    hide LeapYear;
    assert MonthStart(year, 4) == MonthStart(year, 2) + 61;
    assert MonthStart(year, 6) == MonthStart(year, 4) + 61;
    assert MonthStart(year, 8) == MonthStart(year, 6) + 62;
    assert MonthStart(year, 10) == MonthStart(year, 8) + 61;
    assert MonthStart(year, 12) == MonthStart(year, 10) + 61;
    YearLength(year);
  }

  lemma YearLength(year: int)
    ensures DaysInYear(year)
         == if (year + 1900) % 400 == 0 || ((year + 1900) % 4 == 0 && (year + 1900) % 100 != 0) then 366 else 365
    ensures DaysInYear(year) == 337 + DaysInMonth(year, 1)
  {
  }

  /** Day number of 1 January of `year`. */
  function YearStart(year: int): int
    decreases if year < 70 then 70 - year else year - 70
  {
    if year == 70 then 0
    else if year > 70 then YearStart(year - 1) + DaysInYear(year - 1)
    else YearStart(year + 1) - DaysInYear(year)
  }

  function DayNumber(year: int, mon: int, mday: int): int
    requires 0 <= mon < 12
  {
    YearStart(year) + MonthStart(year, mon) + mday - 1
  }

  function DayOf(t: Tm): int
    requires 0 <= t.mon < 12
  {
    DayNumber(t.year, t.mon, t.mday)
  }

  function SecondOfDay(t: Tm): int {
    t.hour * 3600 + t.min * 60 + t.sec
  }

  /** timegm on valid fields: seconds since the epoch. */
  function TimeGm(t: Tm): int
    requires ValidTm(t)
  {
    DayOf(t) * SECONDS_PER_DAY + SecondOfDay(t)
  }

  // ---- The day number in closed form ----

  /** Leap days up to the end of year y: one every fourth year, save the centuries that 400 does not
      divide. */
  function LeapDays(y: int): int {
    y / 4 - y / 100 + y / 400
  }

  lemma LeapDayStep(y: int)
    ensures LeapDays(y) == LeapDays(y - 1) + if LeapYear(y) then 1 else 0
  {
    assert y / 4 - (y - 1) / 4 == if y % 4 == 0 then 1 else 0;
    assert y / 100 - (y - 1) / 100 == if y % 100 == 0 then 1 else 0;
    assert y / 400 - (y - 1) / 400 == if y % 400 == 0 then 1 else 0;
  }

  lemma {:induction false} YearStartClosed(year: int)
    ensures YearStart(year) == 365 * (year + 1899) + LeapDays(year + 1899) - 719162
    decreases if year < 70 then 70 - year else year - 70
  {
    if year == 70 {
      assert LeapDays(1969) == 477;
    } else {
      hide LeapDays, LeapYear;
      LeapDayStep(year + 1899);
      LeapDayStep(year + 1900);
      if year > 70 {
        YearStartClosed(year - 1);
      } else {
        YearStartClosed(year + 1);
      }
    }
  }

  lemma MonthStartTable(year: int, mon: int)
    requires 0 <= mon < 12
    ensures var leap := if LeapYear(year + 1900) then 1 else 0;
            MonthStart(year, mon) == [0, 31, 59 + leap, 90 + leap, 120 + leap, 151 + leap, 181 + leap, 212 + leap, 243 + leap,
                                      273 + leap, 304 + leap, 334 + leap][mon]
  {
    hide LeapYear;
    assert MonthStart(year, 1) == 31;
    assert MonthStart(year, 2) == 31 + DaysInMonth(year, 1);
    assert MonthStart(year, 3) == MonthStart(year, 2) + 31;
    assert MonthStart(year, 4) == MonthStart(year, 3) + 30;
    assert MonthStart(year, 5) == MonthStart(year, 4) + 31;
    assert MonthStart(year, 6) == MonthStart(year, 5) + 30;
    assert MonthStart(year, 7) == MonthStart(year, 6) + 31;
    assert MonthStart(year, 8) == MonthStart(year, 7) + 31;
    assert MonthStart(year, 9) == MonthStart(year, 8) + 30;
    assert MonthStart(year, 10) == MonthStart(year, 9) + 31;
    assert MonthStart(year, 11) == MonthStart(year, 10) + 30;
  }

  lemma MarchTable(mon: int)
    requires 0 <= mon < 12
    ensures (153 * ((mon + 10) % 12) + 2) / 5 == [306, 337, 0, 31, 61, 92, 122, 153, 184, 214, 245, 275][mon]
  {
  }

  /** The day number of every civil date, by the count of days since 1 March of the year 0: years and
      months are counted from March, so that the leap day comes last. */
  lemma DayNumberClosed(year: int, mon: int, mday: int)
    requires 0 <= mon < 12
    ensures var y, m := (if mon < 2 then year + 1899 else year + 1900), (mon + 10) % 12;
            DayNumber(year, mon, mday) == 365 * y + y / 4 - y / 100 + y / 400 + (153 * m + 2) / 5 + mday - 1 - 719468
  {
    var y := if mon < 2 then year + 1899 else year + 1900;
    assert LeapDays(y) == y / 4 - y / 100 + y / 400;
    hide YearStart, MonthStart, LeapDays, LeapYear;
    YearStartClosed(year);
    MonthStartTable(year, mon);
    MarchTable(mon);
    LeapDayStep(year + 1900);
    var march := (153 * ((mon + 10) % 12) + 2) / 5;
    assert YearStart(year) + MonthStart(year, mon) == 365 * y + LeapDays(y) + march - 719468;
  }

  /** A month is as long as the way to the first of the next one. */
  lemma MonthLengths(year: int, mon: int)
    requires 0 <= mon < 12
    ensures var y, z := (if mon < 2 then year + 1899 else year + 1900), (if mon < 1 then year + 1899 else year + 1900);
            var m, n := (mon + 10) % 12, (mon + 11) % 12;
            DaysInMonth(year, mon) == 365 * (z - y) + z / 4 - y / 4 - (z / 100 - y / 100) + z / 400 - y / 400
                                      + (153 * n + 2) / 5 - (153 * m + 2) / 5
  {
    LeapDayStep(year + 1900);
    var y, z := (if mon < 2 then year + 1899 else year + 1900), (if mon < 1 then year + 1899 else year + 1900);
    assert LeapDays(z) - LeapDays(y) == z / 4 - y / 4 - (z / 100 - y / 100) + z / 400 - y / 400;
    hide LeapDays, LeapYear;
  }

  /** 1 January 2000 was a Saturday, and the weekdays follow each other. */
  lemma WeekdaysRun(day: int)
    ensures WeekdayOf(DayNumber(100, 0, 1)) == 6 && 0 <= WeekdayOf(day) < 7
    ensures WeekdayOf(day + 1) == if WeekdayOf(day) == 6 then 0 else WeekdayOf(day) + 1
  {
    DayNumberClosed(100, 0, 1);
    hide DayNumber;
  }

  // ---- gmtime_r: search the year, then the month ----

  lemma YearStartStep(year: int)
    ensures YearStart(year + 1) == YearStart(year) + DaysInYear(year)
  {
  }

  lemma {:induction false} YearStartMonotone(y: int, z: int)
    requires y < z
    ensures YearStart(y + 1) <= YearStart(z)
    decreases z - y
  {
    if y + 1 < z {
      YearStartMonotone(y, z - 1);
      YearStartStep(z - 1);
    }
  }

  lemma {:induction false} MonthStartMonotone(year: int, m: int, n: int)
    requires 0 <= m < n <= 12
    ensures MonthStart(year, m) + DaysInMonth(year, m) <= MonthStart(year, n)
    decreases n
  {
    if m + 1 < n {
      MonthStartMonotone(year, m, n - 1);
    }
  }

  function YearOf(day: int, guess: int): (year: int)
    ensures YearStart(year) <= day < YearStart(year + 1)
    decreases if day < YearStart(guess) then YearStart(guess) - day
              else if day >= YearStart(guess + 1) then day - YearStart(guess + 1) + 1
              else 0
  {
    YearStartStep(guess);
    YearStartStep(guess - 1);
    YearStartStep(guess + 1);
    if day < YearStart(guess) then YearOf(day, guess - 1)
    else if day >= YearStart(guess + 1) then YearOf(day, guess + 1)
    else guess
  }

  function MonthOf(year: int, dayOfYear: int, guess: int): (mon: int)
    requires 0 <= guess < 12
    requires MonthStart(year, guess) <= dayOfYear < MonthStart(year, 12)
    ensures 0 <= mon < 12
    ensures MonthStart(year, mon) <= dayOfYear < MonthStart(year, mon + 1)
    decreases 12 - guess
  {
    if dayOfYear < MonthStart(year, guess + 1) then guess else MonthOf(year, dayOfYear, guess + 1)
  }

  /** gmtime_r. */
  function GmTime(seconds: int): (t: Tm)
    ensures ValidTm(t)
  {
    var day, second := seconds / SECONDS_PER_DAY, seconds % SECONDS_PER_DAY;
    var year := YearOf(day, 70);
    YearStartStep(year);
    TwelveMonthsMakeAYear(year);
    var dayOfYear := day - YearStart(year);
    var mon := MonthOf(year, dayOfYear, 0);
    SecondFields(second);
    Tm(year, mon, dayOfYear - MonthStart(year, mon) + 1, second / 3600, second % 3600 / 60, second % 60)
  }

  lemma SecondFields(second: int)
    requires 0 <= second < SECONDS_PER_DAY
    ensures 0 <= second / 3600 < 24 && 0 <= second % 3600 / 60 < 60 && 0 <= second % 60 < 60
    ensures second / 3600 * 3600 + second % 3600 / 60 * 60 + second % 60 == second
  {
  }

  /** gmtime_r is a right inverse of timegm, and its day and second of day are the quotient and
      remainder by the length of a day. */
  lemma GmTimeInverse(seconds: int)
    ensures TimeGm(GmTime(seconds)) == seconds
    ensures DayOf(GmTime(seconds)) == seconds / SECONDS_PER_DAY
    ensures SecondOfDay(GmTime(seconds)) == seconds % SECONDS_PER_DAY
  {
    SecondFields(seconds % SECONDS_PER_DAY);
    assert seconds / SECONDS_PER_DAY * SECONDS_PER_DAY + seconds % SECONDS_PER_DAY == seconds;
  }

  // ---- The order on fields is the order on seconds ----

  lemma DayOrder(a: Tm, b: Tm)
    requires ValidTm(a) && ValidTm(b)
    requires a.year < b.year || (a.year == b.year && (a.mon < b.mon || (a.mon == b.mon && a.mday < b.mday)))
    ensures DayOf(a) < DayOf(b)
  {
    if a.year < b.year {
      YearStartMonotone(a.year, b.year);
      YearStartStep(a.year);
      TwelveMonthsMakeAYear(a.year);
      MonthStartMonotone(a.year, a.mon, 12);
    } else if a.mon < b.mon {
      MonthStartMonotone(a.year, a.mon, b.mon);
    }
  }

  /** A day on or after the first of next year is after every moment of this one. */
  lemma LateDayIsLater(t: Tm, end: Tm)
    requires ValidTm(t) && DayOf(t) >= YearStart(end.year + 1)
    ensures !TmBefore(t, end)
  {
    if t.year <= end.year {
      YearStartStep(t.year);
      TwelveMonthsMakeAYear(t.year);
      MonthStartMonotone(t.year, t.mon, 12);
      if t.year < end.year {
        YearStartMonotone(t.year, end.year);
        YearStartStep(end.year);
      }
      assert false;
    }
  }

  lemma SecondOfDayBounds(t: Tm)
    requires ValidTm(t)
    ensures 0 <= SecondOfDay(t) < SECONDS_PER_DAY
  {
  }

  lemma BeforeMeansEarlier(a: Tm, b: Tm)
    requires ValidTm(a) && ValidTm(b) && TmBefore(a, b)
    ensures TimeGm(a) < TimeGm(b)
  {
    SecondOfDayBounds(a);
    SecondOfDayBounds(b);
    if a.year == b.year && a.mon == b.mon && a.mday == b.mday {
    } else {
      DayOrder(a, b);
    }
  }

  /** Comparing field by field is comparing instants. */
  lemma TmOrderIsTimeOrder(a: Tm, b: Tm)
    requires ValidTm(a) && ValidTm(b)
    ensures TmBefore(a, b) <==> TimeGm(a) < TimeGm(b)
    ensures a == b <==> TimeGm(a) == TimeGm(b)
  {
    if TmBefore(a, b) {
      BeforeMeansEarlier(a, b);
    } else if TmBefore(b, a) {
      BeforeMeansEarlier(b, a);
    }
  }

  /** timegm is injective on valid fields, so gmtime_r is its two-sided inverse. */
  lemma TimeGmInverse(t: Tm)
    requires ValidTm(t)
    ensures GmTime(TimeGm(t)) == t
  {
    GmTimeInverse(TimeGm(t));
    TmOrderIsTimeOrder(GmTime(TimeGm(t)), t);
  }

  // ---- Whole-day shifts and weekdays ----

  /** The date `days` days later at the same time of day. */
  function AddDays(t: Tm, days: int): (r: Tm)
    requires ValidTm(t)
    ensures ValidTm(r)
  {
    GmTime(TimeGm(t) + SECONDS_PER_DAY * days)
  }

  lemma AddDaysFields(t: Tm, days: int)
    requires ValidTm(t)
    ensures TimeGm(AddDays(t, days)) == TimeGm(t) + SECONDS_PER_DAY * days
    ensures DayOf(AddDays(t, days)) == DayOf(t) + days
    ensures AddDays(t, days).hour == t.hour && AddDays(t, days).min == t.min && AddDays(t, days).sec == t.sec
  {
    var s := TimeGm(t) + SECONDS_PER_DAY * days;
    GmTimeInverse(s);
    SecondOfDayBounds(t);
    assert s == (DayOf(t) + days) * SECONDS_PER_DAY + SecondOfDay(t);
    assert s / SECONDS_PER_DAY == DayOf(t) + days && s % SECONDS_PER_DAY == SecondOfDay(t);
    SameSecondFields(AddDays(t, days), t);
  }

  lemma SameSecondFields(a: Tm, b: Tm)
    requires ValidTm(a) && ValidTm(b) && SecondOfDay(a) == SecondOfDay(b)
    ensures a.hour == b.hour && a.min == b.min && a.sec == b.sec
  {
  }

  lemma AddDaysCompose(t: Tm, m: int, n: int)
    requires ValidTm(t)
    ensures AddDays(AddDays(t, m), n) == AddDays(t, m + n)
  {
    AddDaysFields(AddDays(t, m), n);
    AddDaysFields(t, m);
    AddDaysFields(t, m + n);
    TmOrderIsTimeOrder(AddDays(AddDays(t, m), n), AddDays(t, m + n));
  }

  lemma AddNoDays(t: Tm)
    requires ValidTm(t)
    ensures AddDays(t, 0) == t
  {
    TimeGmInverse(t);
  }

  /** tm_wday of day number `day`: 0 is Sunday, and day 0 was a Thursday. */
  function WeekdayOf(day: int): int {
    (day + 4) % 7
  }
}
