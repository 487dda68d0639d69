/** What an RRULE means: the base dates it steps through from dtstart and the filter it puts on them,
    which together with UNTIL and COUNT make an EventSeries. */
module Recurrence {
  import opened Calendar
  import opened EventSeries
  import opened Options

  datatype Freq = Daily | Weekly | Monthly | Yearly

  // tm_wday: 0 is Sunday.
  type Weekday = w: int | 0 <= w < 7

  datatype RRule = RRule(
    freq: Freq,
    interval: int,
    count: Option<int>,
    until: Option<Tm>,
    byDay: seq<Weekday>,
    byMonthDay: seq<int>,
    byMonth: seq<int>)
  {
    /** What parse_rrule guarantees of every rule it returns. */
    predicate WellFormed() {
      && interval >= 1
      && (count.Some? ==> count.value >= 0)
      && (forall i :: 0 <= i < |byMonth| ==> 1 <= byMonth[i] <= 12)
      && (forall i :: 0 <= i < |byMonthDay| ==> byMonthDay[i] != 0)
    }

    /** The rules that expand_rrule walks week by week. */
    predicate ByWeek() {
      freq.Weekly? && byDay != []
    }
  }

  /** Days from the Monday of the week to `wday`. */
  function MondayOffset(wday: Weekday): (d: int)
    ensures 0 <= d < 7
  {
    (wday + 6) % 7
  }

  /** Index of the Monday-based week holding day number `day`; day -3 was a Monday. */
  function MondayWeek(day: int): int {
    (day + 3) / 7
  }

  predicate MonthDayMatches(t: Tm, d: int)
    requires 0 <= t.mon < 12
  {
    if d > 0 then d == t.mday else d < 0 && DaysInMonth(t.year, t.mon) + 1 + d == t.mday
  }

  /** matches_by_rules. */
  predicate MatchesByRules(t: Tm, rule: RRule)
    requires ValidTm(t)
  {
    && (rule.byMonth == [] || t.mon + 1 in rule.byMonth)
    && (rule.byMonthDay == [] || exists i :: 0 <= i < |rule.byMonthDay| && MonthDayMatches(t, rule.byMonthDay[i]))
    && (rule.byDay == [] || rule.freq.Weekly? || WeekdayOf(DayOf(t)) in rule.byDay)
  }

  /** The days of a month that BYMONTHDAY names: day d for a positive d, and for a negative one the day that
      lies -d days before the first of the next month. */
  lemma MonthDayMeans(t: Tm, d: int)
    requires ValidTm(t) && d != 0
    ensures var first, next := DayNumber(t.year, t.mon, 1),
                               if t.mon == 11 then DayNumber(t.year + 1, 0, 1) else DayNumber(t.year, t.mon + 1, 1);
            MonthDayMatches(t, d) <==> DayOf(t) == if d > 0 then first + d - 1 else next + d
  {
    hide YearStart;
    YearStartStep(t.year);
    TwelveMonthsMakeAYear(t.year);
    assert MonthStart(t.year, t.mon + 1) == MonthStart(t.year, t.mon) + DaysInMonth(t.year, t.mon);
  }

  function Min(a: int, b: int): int {
    if a <= b then a else b
  }

  /** `t` moved to month `months` counted from January of t's year, on day `mday` or the month's last. */
  function InMonth(t: Tm, months: int, mday: int): Tm {
    var year, mon := t.year + months / 12, months % 12;
    t.(year := year, mon := mon, mday := Min(mday, DaysInMonth(year, mon)))
  }

  lemma InMonthOrder(t: Tm, m: int, n: int, mday: int)
    requires ValidTm(t) && mday >= 1 && m < n
    ensures ValidTm(InMonth(t, m, mday)) && ValidTm(InMonth(t, n, mday))
    ensures DayOf(InMonth(t, m, mday)) < DayOf(InMonth(t, n, mday))
  {
    assert m / 12 < n / 12 || (m / 12 == n / 12 && m % 12 < n % 12);
    DayOrder(InMonth(t, m, mday), InMonth(t, n, mday));
  }

  /** Base date number k. Weekly rules with BYDAY run through every day from dtstart on; all others
      stand k intervals from dtstart, the day of the month always taken from dtstart. */
  function Visit(rule: RRule, start: Tm, k: nat): (t: Tm)
    requires ValidTm(start)
    ensures ValidTm(t)
  {
    if rule.ByWeek() then AddDays(start, k)
    else match rule.freq
      case Daily => AddDays(start, k * rule.interval)
      case Weekly => AddDays(start, 7 * (k * rule.interval))
      case Monthly => InMonth(start, start.mon + k * rule.interval, start.mday)
      case Yearly => InMonth(start, start.mon + 12 * (k * rule.interval), start.mday)
  }

  /** Whether base date k is named by the rule. */
  predicate Listed(rule: RRule, start: Tm, k: nat)
    requires rule.WellFormed() && ValidTm(start)
  {
    if rule.ByWeek() then
      && WeekdayOf(DayOf(start) + k) in rule.byDay
      && (MondayWeek(DayOf(start) + k) - MondayWeek(DayOf(start))) % rule.interval == 0
    else
      MatchesByRules(Visit(rule, start, k), rule)
  }

  function SeriesOf(rule: RRule, start: Tm): Series
    requires rule.WellFormed() && ValidTm(start)
  {
    Series((k: nat) => Visit(rule, start, k), (k: nat) => Listed(rule, start, k), rule.until, rule.count)
  }

  lemma VisitAdvances(rule: RRule, start: Tm, k: nat)
    requires rule.WellFormed() && ValidTm(start)
    ensures DayOf(Visit(rule, start, k)) < DayOf(Visit(rule, start, k + 1))
  {
    hide YearStart, MonthStart, TimeGm, InMonth;
    var step := k * rule.interval;
    assert (k + 1) * rule.interval == step + rule.interval;
    if rule.ByWeek() {
      AddDaysFields(start, k);
      AddDaysFields(start, k + 1);
    } else {
      match rule.freq
      case Daily =>
        AddDaysFields(start, step);
        AddDaysFields(start, step + rule.interval);
      case Weekly =>
        AddDaysFields(start, 7 * step);
        AddDaysFields(start, 7 * (step + rule.interval));
      case Monthly => InMonthOrder(start, start.mon + step, start.mon + (step + rule.interval), start.mday);
      case Yearly => InMonthOrder(start, start.mon + 12 * step, start.mon + 12 * (step + rule.interval), start.mday);
    }
  }

  lemma VisitKeepsClock(rule: RRule, start: Tm, k: nat)
    requires ValidTm(start)
    ensures var t := Visit(rule, start, k); t.hour == start.hour && t.min == start.min && t.sec == start.sec
    ensures Visit(rule, start, 0) == start
  {
    hide TimeGm, YearStart, MonthStart, DaysInMonth;
    AddNoDays(start);
    assert 0 * rule.interval == 0;
    if rule.ByWeek() {
      AddDaysFields(start, k);
    } else if rule.freq.Daily? {
      AddDaysFields(start, k * rule.interval);
    } else if rule.freq.Weekly? {
      AddDaysFields(start, 7 * (k * rule.interval));
    }
  }

  lemma {:induction false} VisitOrder(rule: RRule, start: Tm, j: nat, k: nat)
    requires rule.WellFormed() && ValidTm(start) && j < k
    ensures DayOf(Visit(rule, start, j)) + (k - j) <= DayOf(Visit(rule, start, k))
    ensures TmBefore(Visit(rule, start, j), Visit(rule, start, k))
    decreases k
  {
    hide Visit, YearStart, MonthStart;
    VisitAdvances(rule, start, k - 1);
    if j + 1 < k {
      VisitOrder(rule, start, j, k - 1);
    }
    VisitKeepsClock(rule, start, j);
    VisitKeepsClock(rule, start, k);
    TmOrderIsTimeOrder(Visit(rule, start, j), Visit(rule, start, k));
  }

  /** Every rule steps strictly forward, at least a day at a time, starting at dtstart itself. */
  lemma SeriesAscends(rule: RRule, start: Tm)
    requires rule.WellFormed() && ValidTm(start)
    ensures SeriesOf(rule, start).Ascends()
    ensures SeriesOf(rule, start).visit(0) == start
  {
    hide Visit, Listed, DayOf, TmBefore;
    var s := SeriesOf(rule, start);
    forall j: nat, k: nat | j < k
      ensures ValidTm(s.visit(j)) && ValidTm(s.visit(k))
      ensures DayOf(s.visit(j)) + (k - j) <= DayOf(s.visit(k))
      ensures TmBefore(s.visit(j), s.visit(k))
    {
      VisitOrder(rule, start, j, k);
    }
    VisitKeepsClock(rule, start, 0);
  }
}
