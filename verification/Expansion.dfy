/** advance, matches_by_rules and the second loop of expand_rrule: every frequency except weekly rules
    with BYDAY. */
module PlainExpansion {
  import opened Calendar
  import opened EventSeries
  import opened Iso8601
  import opened Options
  import opened Recurrence

  // ---- advance ----

  /** `t` one interval later. */
  function Advanced(t: Tm, freq: Freq, interval: int): (r: Tm)
    requires ValidTm(t)
    ensures ValidTm(r)
  {
    match freq
    case Daily => AddDays(t, interval)
    case Weekly => AddDays(t, 7 * interval)
    case Monthly => InMonth(t, t.mon + interval, t.mday)
    case Yearly => InMonth(t, t.mon + 12 * interval, t.mday)
  }

  method Advance(t: Tm, freq: Freq, interval: int) returns (next: Tm)
    requires ValidTm(t) && interval >= 1
    ensures next == Advanced(t, freq, interval)
  {
    hide AddDays, TimeGm, GmTime, DaysInMonth;
    next := t;
    match freq {
      case Daily =>
        var tt := TimeGm(next);
        tt := tt + 86400 * interval;
        ShiftIsAddDays(t, interval);
        return GmTime(tt);
      case Weekly =>
        var tt := TimeGm(next);
        tt := tt + 86400 * 7 * interval;
        ShiftIsAddDays(t, 7 * interval);
        return GmTime(tt);
      case Monthly =>
        next := next.(mon := next.mon + interval);
        while next.mon >= 12
          invariant next.mon >= 0
          invariant next.year * 12 + next.mon == t.year * 12 + t.mon + interval
          invariant next == t.(year := next.year, mon := next.mon)
        {
          next := next.(mon := next.mon - 12, year := next.year + 1);
        }
        assert next.year == t.year + (t.mon + interval) / 12 && next.mon == (t.mon + interval) % 12;
        var maxDay := DaysInMonth(next.year, next.mon);
        if next.mday > maxDay {
          next := next.(mday := maxDay);
        }
      case Yearly =>
        next := next.(year := next.year + interval);
        assert (t.mon + 12 * interval) / 12 == interval && (t.mon + 12 * interval) % 12 == t.mon;
        var maxDay := DaysInMonth(next.year, next.mon);
        if next.mday > maxDay {
          next := next.(mday := maxDay);
        }
    }
  }

  lemma ShiftIsAddDays(t: Tm, days: int)
    requires ValidTm(t)
    ensures GmTime(TimeGm(t) + 86400 * days) == AddDays(t, days)
  {
  }

  // ---- The stepping never drifts ----

  /** One turn of the loop: advance, then put dtstart's day of the month back and clamp it. */
  function NextBase(rule: RRule, t: Tm, mday: int): (r: Tm)
    requires rule.WellFormed() && ValidTm(t) && mday >= 1
    ensures ValidTm(r)
  {
    var next := Advanced(t, rule.freq, rule.interval);
    if rule.freq.Monthly? || rule.freq.Yearly? then
      next.(mday := Min(mday, DaysInMonth(next.year, next.mon)))
    else next
  }

  function Stepped(rule: RRule, start: Tm, k: nat): (t: Tm)
    requires rule.WellFormed() && ValidTm(start)
    ensures ValidTm(t)
  {
    if k == 0 then start else NextBase(rule, Stepped(rule, start, k - 1), start.mday)
  }

  lemma NextInMonth(start: Tm, months: int, step: int)
    requires ValidTm(start)
    ensures var t := InMonth(start, months, start.mday);
            ValidTm(t) && InMonth(InMonth(t, t.mon + step, t.mday), InMonth(t, t.mon + step, t.mday).mon, start.mday)
            == InMonth(start, months + step, start.mday)
  {
    assert months == 12 * (months / 12) + months % 12;
    var m := months % 12 + step;
    assert (12 * (months / 12) + m) / 12 == months / 12 + m / 12 && (12 * (months / 12) + m) % 12 == m % 12;
  }

  lemma NextVisit(rule: RRule, start: Tm, k: nat)
    requires rule.WellFormed() && ValidTm(start) && !rule.ByWeek()
    ensures NextBase(rule, Visit(rule, start, k), start.mday) == Visit(rule, start, k + 1)
  {
    hide TimeGm, YearStart, MonthStart, DaysInMonth, AddDays;
    var step := k * rule.interval;
    assert (k + 1) * rule.interval == step + rule.interval;
    match rule.freq
    case Daily => AddDaysCompose(start, step, rule.interval);
    case Weekly =>
      assert 7 * (step + rule.interval) == 7 * step + 7 * rule.interval;
      AddDaysCompose(start, 7 * step, 7 * rule.interval);
    case Monthly => NextInMonth(start, start.mon + step, rule.interval);
    case Yearly =>
      assert start.mon + 12 * (step + rule.interval) == start.mon + 12 * step + 12 * rule.interval;
      NextInMonth(start, start.mon + 12 * step, 12 * rule.interval);
  }

  /** After k turns the loop stands k intervals from dtstart, on dtstart's day of the month or, in a
      shorter month, on its last day: 31 January steps to 28 February and on to 31 March. */
  lemma {:induction false} NoDrift(rule: RRule, start: Tm, k: nat)
    requires rule.WellFormed() && ValidTm(start) && !rule.ByWeek()
    ensures Stepped(rule, start, k) == Visit(rule, start, k)
  {
    hide Visit, NextBase;
    if k == 0 {
      VisitKeepsClock(rule, start, 0);
    } else {
      NoDrift(rule, start, k - 1);
      NextVisit(rule, start, k - 1);
    }
  }

  // ---- matches_by_rules ----

  method ComputeMatches(t: Tm, rule: RRule) returns (matches: bool)
    requires ValidTm(t)
    ensures matches == MatchesByRules(t, rule)
  {
    if rule.byMonth != [] {
      if t.mon + 1 !in rule.byMonth {
        return false;
      }
    }
    if rule.byMonthDay != [] {
      var found := false;
      for i := 0 to |rule.byMonthDay|
        invariant !found
        invariant forall j :: 0 <= j < i ==> !MonthDayMatches(t, rule.byMonthDay[j])
      {
        var d := rule.byMonthDay[i];
        if d > 0 && d == t.mday {
          found := true;
          break;
        }
        if d < 0 {
          var maxDay := DaysInMonth(t.year, t.mon);
          if maxDay + 1 + d == t.mday {
            found := true;
            break;
          }
        }
      }
      if !found {
        return false;
      }
    }
    if rule.byDay != [] && !rule.freq.Weekly? {
      var wday := WeekdayOf(DayOf(t));
      var found := false;
      for i := 0 to |rule.byDay|
        invariant !found
        invariant wday !in rule.byDay[..i]
      {
        if rule.byDay[i] == wday {
          found := true;
          break;
        }
      }
      if !found {
        return false;
      }
    }
    return true;
  }

  // ---- The loop ----

  function FormatAll(ts: seq<Tm>): (texts: seq<string>)
    ensures |texts| == |ts|
  {
    seq(|ts|, i requires 0 <= i < |ts| => FormatIso(ts[i]))
  }

  /** The loop returns the rule's expansion, and stops for every rule and window. */
  method ExpandPlain(rule: RRule, start: Tm, rs: Tm, re: Tm) returns (results: seq<string>)
    requires rule.WellFormed() && ValidTm(start) && !rule.ByWeek()
    ensures SeriesOf(rule, start).Ascends()
    ensures results == FormatAll(SeriesOf(rule, start).Expansion(Window(rs, re)))
  {
    hide Visit, Listed, MatchesByRules, NextBase, Advanced, FormatIso, Series.Horizon, Series.Expansion, DayOf, DaysInMonth;
    results := [];
    var totalCount := 0;
    var current := start;
    var originalMday := start.mday;
    ghost var w, s, k := Window(rs, re), SeriesOf(rule, start), 0;
    SeriesAscends(rule, start);
    while true
      invariant s.Ascends()
      invariant current == s.visit(k) == Visit(rule, start, k)
      invariant totalCount == s.Rank(k)
      invariant results == FormatAll(s.Select(w, k)) && |results| < MAX_OCCURRENCES
      decreases s.Horizon(re) - k
    {
      if rule.until.Some? && TmBefore(rule.until.value, current) {
        s.StoppedExpansion(w, k);
        break;
      }
      if rule.count.Some? && totalCount >= rule.count.value {
        s.StoppedExpansion(w, k);
        break;
      }
      if !TmBefore(current, re) {
        s.StoppedExpansion(w, k);
        break;
      }
      var matches := ComputeMatches(current, rule);
      MatchIsListed(rule, start, k);
      if matches {
        totalCount := totalCount + 1;
        if TmBeforeOrEqual(rs, current) {
          results := results + [FormatIso(current)];
        }
        if |results| >= MAX_OCCURRENCES {
          s.FullExpansion(w, k + 1);
          break;
        }
      }
      BeforeEndIsBeforeHorizon(s, re, k);
      current := Advance(current, rule.freq, rule.interval);
      if rule.freq.Monthly? || rule.freq.Yearly? {
        current := current.(mday := originalMday);
        var maxDay := DaysInMonth(current.year, current.mon);
        if current.mday > maxDay {
          current := current.(mday := maxDay);
        }
      }
      NextBaseUnfolds(rule, s.visit(k), originalMday);
      NextVisit(rule, start, k);
      k := k + 1;
    }
  }

  lemma MatchIsListed(rule: RRule, start: Tm, k: nat)
    requires rule.WellFormed() && ValidTm(start) && !rule.ByWeek()
    ensures SeriesOf(rule, start).listed(k) == MatchesByRules(Visit(rule, start, k), rule)
  {
    hide Visit, MatchesByRules;
  }

  lemma NextBaseUnfolds(rule: RRule, t: Tm, mday: int)
    requires rule.WellFormed() && ValidTm(t) && mday >= 1
    ensures var next := Advanced(t, rule.freq, rule.interval);
            NextBase(rule, t, mday) == if rule.freq.Monthly? || rule.freq.Yearly?
                                       then next.(mday := Min(mday, DaysInMonth(next.year, next.mon))) else next
  {
    hide Advanced;
  }

  lemma BeforeEndIsBeforeHorizon(s: Series, end: Tm, k: nat)
    requires s.Ascends() && TmBefore(s.visit(k), end)
    ensures k < s.Horizon(end)
  {
    if k >= s.Horizon(end) {
      s.BeyondHorizon(end, k);
    }
  }
}
