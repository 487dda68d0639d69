/** The first loop of expand_rrule: weekly rules with BYDAY, week by week. */
module WeeklyExpansion {
  import opened Arithmetic
  import opened Calendar
  import opened EventSeries
  import opened Iso8601
  import opened Options
  import opened PlainExpansion
  import opened Recurrence
  import opened WeekWalk

  /** Days from the Monday of day's week to the day itself. */
  function DaysSinceMonday(day: int): (d: int)
    ensures 0 <= d < 7
    ensures day == 7 * MondayWeek(day) - 3 + d
  {
    (WeekdayOf(day) + 6) % 7
  }

  /** Day offset from dtstart of the candidate on BYDAY entry i, `weeks` weeks after dtstart's week. */
  function OffsetIn(rule: RRule, start: Tm, weeks: int, i: nat): int
    requires ValidTm(start) && i < |rule.byDay|
  {
    7 * weeks - DaysSinceMonday(DayOf(start)) + MondayOffset(rule.byDay[i])
  }

  /** Candidate c: entry c % n of BYDAY in the (c / n)-th visited week. */
  function CandidateOffset(rule: RRule, start: Tm, c: nat): int
    requires ValidTm(start) && rule.ByWeek()
  {
    OffsetIn(rule, start, rule.interval * (c / |rule.byDay|), c % |rule.byDay|)
  }

  function WalkOf(rule: RRule, start: Tm): Walk
    requires ValidTm(start) && rule.ByWeek()
  {
    Walk(start, (c: nat) => CandidateOffset(rule, start, c), |rule.byDay|, rule.until, rule.count)
  }

  /** BYDAY lists its days from Monday on, without repeats. */
  predicate MondayFirst(byDay: seq<Weekday>) {
    forall i, j :: 0 <= i < j < |byDay| ==> MondayOffset(byDay[i]) < MondayOffset(byDay[j])
  }

  lemma WalkAdvances(rule: RRule, start: Tm)
    requires rule.WellFormed() && ValidTm(start) && rule.ByWeek()
    ensures WalkOf(rule, start).Advances()
  {
    hide DaysInMonth, DayOf;
    var walk := WalkOf(rule, start);
    forall c: nat ensures walk.offset(c) + 6 >= 7 * (c / walk.perWeek) {
      var week := c / |rule.byDay|;
      IntervalGrows(rule.interval, week);
      assert walk.offset(c) == OffsetIn(rule, start, rule.interval * week, c % |rule.byDay|);
    }
  }

  lemma IntervalGrows(interval: int, week: nat)
    requires interval >= 1
    ensures interval * week >= week
  {
    if week > 0 {
      ProductGap(week, interval);
    }
  }

  lemma OffsetsAscend(rule: RRule, start: Tm, c: nat, d: nat)
    requires rule.WellFormed() && ValidTm(start) && rule.ByWeek() && MondayFirst(rule.byDay) && c < d
    ensures CandidateOffset(rule, start, c) < CandidateOffset(rule, start, d)
  {
    hide DaysInMonth, DayOf;
    var n := |rule.byDay|;
    var p, q := c / n, d / n;
    PlaceOrder(n, c, d);
    ProductOrder(rule.interval, p, q);
    if p == q {
      assert MondayOffset(rule.byDay[c % n]) < MondayOffset(rule.byDay[d % n]);
    }
  }

  /** Every day the rule names is some candidate. */
  lemma ListedIsCandidate(rule: RRule, start: Tm, k: nat) returns (c: nat)
    requires rule.WellFormed() && ValidTm(start) && rule.ByWeek() && Listed(rule, start, k)
    ensures CandidateOffset(rule, start, c) == k
  {
    hide DaysInMonth, DayOf;
    var first, day, n := DayOf(start), DayOf(start) + k, |rule.byDay|;
    var i: nat :| i < n && rule.byDay[i] == WeekdayOf(day);
    var weeks := MondayWeek(day) - MondayWeek(first);
    var q := weeks / rule.interval;
    assert weeks == rule.interval * q + weeks % rule.interval;
    assert weeks >= 0;
    assert q >= 0;
    c := n * q + i;
    QuotientOf(n, q, i);
    assert MondayOffset(rule.byDay[i]) == DaysSinceMonday(day);
  }

  /** Every candidate on or after dtstart is a day the rule names. */
  lemma CandidateIsListed(rule: RRule, start: Tm, c: nat)
    requires rule.WellFormed() && ValidTm(start) && rule.ByWeek() && CandidateOffset(rule, start, c) >= 0
    ensures Listed(rule, start, CandidateOffset(rule, start, c))
  {
    hide DaysInMonth, DayOf;
    var n, first := |rule.byDay|, DayOf(start);
    var weeks, wday := rule.interval * (c / n), rule.byDay[c % n];
    var day := first + CandidateOffset(rule, start, c);
    assert day == 7 * (MondayWeek(first) + weeks) - 3 + MondayOffset(wday);
    DayOfWeek(MondayWeek(first) + weeks, wday);
    QuotientOf(rule.interval, c / n, 0);
  }

  /** A day is known by its Monday-based week and its weekday. */
  lemma DayOfWeek(week: int, wday: Weekday)
    ensures var day := 7 * week - 3 + MondayOffset(wday);
            MondayWeek(day) == week && WeekdayOf(day) == wday
  {
  }

  lemma WalkFollowsSeries(rule: RRule, start: Tm)
    requires rule.WellFormed() && ValidTm(start) && rule.ByWeek() && MondayFirst(rule.byDay)
    ensures WalkOf(rule, start).Follows(SeriesOf(rule, start))
  {
    hide DaysInMonth, DayOf, CandidateOffset, Listed, AddDays, Series.Ascends, Walk.Advances;
    var walk, s := WalkOf(rule, start), SeriesOf(rule, start);
    WalkAdvances(rule, start);
    SeriesAscends(rule, start);
    forall c: nat, d: nat | c < d ensures walk.offset(c) < walk.offset(d) {
      OffsetsAscend(rule, start, c, d);
    }
    forall k: nat | s.listed(k) ensures exists c: nat :: walk.offset(c) == k {
      var c := ListedIsCandidate(rule, start, k);
      assert walk.offset(c) == k;
    }
    forall c: nat | walk.offset(c) >= 0 ensures s.listed(walk.offset(c)) {
      CandidateIsListed(rule, start, c);
    }
    forall k: nat ensures s.visit(k) == AddDays(start, k) {
      assert Visit(rule, start, k) == AddDays(start, k);
    }
  }

  /** With BYDAY listed Monday-first, the loop's result is the rule's expansion: ascending, all the
      listed weekdays of every interval-th week from dtstart's, cut by UNTIL, COUNT, window and cap. */
  lemma WeeklyExact(rule: RRule, start: Tm, w: Window)
    requires rule.WellFormed() && ValidTm(start) && rule.ByWeek() && MondayFirst(rule.byDay)
    ensures WalkOf(rule, start).Advances() && SeriesOf(rule, start).Ascends()
    ensures WalkOf(rule, start).Outcome(w) == SeriesOf(rule, start).Expansion(w)
  {
    hide DaysInMonth, WalkOf, SeriesOf, MondayFirst;
    WalkAdvances(rule, start);
    SeriesAscends(rule, start);
    WalkFollowsSeries(rule, start);
    WalkOf(rule, start).FollowsExactly(SeriesOf(rule, start), w);
  }

  // ---- And only then ----

  /** The loop is right for these days and this interval whatever the event and the window. */
  ghost predicate AlwaysExact(byDay: seq<Weekday>, interval: int)
    requires byDay != [] && interval >= 1
  {
    forall start: Tm, count: Option<int>, until: Option<Tm>, w: Window
      {:trigger WeeklyRight(byDay, interval, start, count, until, w)} ::
      WeeklyRight(byDay, interval, start, count, until, w)
  }

  ghost predicate WeeklyRight(byDay: seq<Weekday>, interval: int, start: Tm, count: Option<int>, until: Option<Tm>, w: Window)
    requires byDay != [] && interval >= 1
  {
    var rule := RRule(Weekly, interval, count, until, byDay, [], []);
    rule.WellFormed() && ValidTm(start) ==>
      && WalkOf(rule, start).Advances() && SeriesOf(rule, start).Ascends()
      && WalkOf(rule, start).Outcome(w) == SeriesOf(rule, start).Expansion(w)
  }

  /** The loop is exact on every event and window precisely for Monday-first lists: any other list
      has two neighbours out of order, and a COUNT that ends just behind them shows it. */
  lemma MondayFirstIsNeeded(byDay: seq<Weekday>, interval: int)
    requires byDay != [] && interval >= 1
    ensures AlwaysExact(byDay, interval) <==> MondayFirst(byDay)
  {
    hide MondayFirst, WeeklyRight, MondayOffset;
    if MondayFirst(byDay) {
      forall start: Tm, count: Option<int>, until: Option<Tm>, w: Window
        ensures WeeklyRight(byDay, interval, start, count, until, w)
      {
        RightWhenMondayFirst(byDay, interval, start, count, until, w);
      }
    } else {
      var i := FirstDescent(byDay);
      OutOfOrderIsWrong(byDay, interval, i);
    }
  }

  lemma RightWhenMondayFirst(byDay: seq<Weekday>, interval: int, start: Tm, count: Option<int>, until: Option<Tm>, w: Window)
    requires byDay != [] && interval >= 1 && MondayFirst(byDay)
    ensures WeeklyRight(byDay, interval, start, count, until, w)
  {
    hide DaysInMonth, WalkOf, SeriesOf, MondayFirst;
    var rule := RRule(Weekly, interval, count, until, byDay, [], []);
    if rule.WellFormed() && ValidTm(start) {
      WeeklyExact(rule, start, w);
    }
  }

  lemma {:induction false} AscendingFrom(byDay: seq<Weekday>, i: nat, j: nat)
    requires i < j < |byDay|
    requires forall k :: 0 <= k < |byDay| - 1 ==> MondayOffset(byDay[k]) < MondayOffset(byDay[k + 1])
    ensures MondayOffset(byDay[i]) < MondayOffset(byDay[j])
    decreases j
  {
    assert MondayOffset(byDay[j - 1]) < MondayOffset(byDay[j - 1 + 1]);
    if i < j - 1 {
      AscendingFrom(byDay, i, j - 1);
    }
  }

  /** A list that is not Monday-first goes wrong within its first eight entries. */
  lemma FirstDescent(byDay: seq<Weekday>) returns (i: nat)
    requires !MondayFirst(byDay)
    ensures i + 1 < |byDay| && i <= 6 && MondayOffset(byDay[i]) >= MondayOffset(byDay[i + 1])
  {
    hide MondayOffset;
    i := 0;
    while i + 1 < |byDay| && MondayOffset(byDay[i]) < MondayOffset(byDay[i + 1])
      invariant i < |byDay| && i <= MondayOffset(byDay[i])
      invariant forall k :: 0 <= k < i ==> MondayOffset(byDay[k]) < MondayOffset(byDay[k + 1])
    {
      i := i + 1;
    }
    NoDescentIsMondayFirst(byDay);
  }

  lemma NoDescentIsMondayFirst(byDay: seq<Weekday>)
    ensures (forall k :: 0 <= k < |byDay| - 1 ==> MondayOffset(byDay[k]) < MondayOffset(byDay[k + 1])) ==> MondayFirst(byDay)
  {
    hide MondayOffset;
    if forall k :: 0 <= k < |byDay| - 1 ==> MondayOffset(byDay[k]) < MondayOffset(byDay[k + 1]) {
      forall i, j | 0 <= i < j < |byDay| ensures MondayOffset(byDay[i]) < MondayOffset(byDay[j]) {
        AscendingFrom(byDay, i, j);
      }
    }
  }

  predicate NoRepeats(byDay: seq<Weekday>) {
    forall i, j :: 0 <= i < j < |byDay| ==> byDay[i] != byDay[j]
  }

  lemma OffsetsApart(rule: RRule, start: Tm, c: nat, d: nat)
    requires rule.WellFormed() && ValidTm(start) && rule.ByWeek() && NoRepeats(rule.byDay) && c < d
    ensures CandidateOffset(rule, start, c) != CandidateOffset(rule, start, d)
  {
    hide DaysInMonth, DayOf;
    var n := |rule.byDay|;
    PlaceOrder(n, c, d);
    ProductOrder(rule.interval, c / n, d / n);
    DayOfWeek(rule.interval * (c / n), rule.byDay[c % n]);
    DayOfWeek(rule.interval * (d / n), rule.byDay[d % n]);
    assert c / n == d / n ==> rule.byDay[c % n] != rule.byDay[d % n];
  }

  /** A list without repeats gives each day once. */
  lemma OutcomeApart(rule: RRule, start: Tm, w: Window, i: nat, j: nat)
    requires rule.WellFormed() && ValidTm(start) && rule.ByWeek() && NoRepeats(rule.byDay)
    ensures WalkOf(rule, start).Advances()
    ensures var ts := WalkOf(rule, start).Outcome(w);
            i < j < |ts| ==> ValidTm(ts[i]) && ValidTm(ts[j]) && DayOf(ts[i]) != DayOf(ts[j])
  {
    hide DaysInMonth, DayOf, CandidateOffset, NoRepeats, Walk.Collected, Walk.Candidate;
    WalkAdvances(rule, start);
    var walk := WalkOf(rule, start);
    forall c: nat, d: nat | c < d ensures walk.offset(c) != walk.offset(d) {
      OffsetsApart(rule, start, c, d);
    }
    walk.CollectsApart(w, walk.FirstHalt(w, 0));
    var ts := walk.Outcome(w);
    assert ts == walk.Collected(w, walk.FirstHalt(w, 0));
    assert i < j < |ts| ==> ts[i] in ts && ts[j] in ts;
  }

  /** The first repeated day is among the first eight entries. */
  lemma {:induction false} FirstRepeat(byDay: seq<Weekday>) returns (i: nat, j: nat)
    requires !NoRepeats(byDay)
    ensures i < j < |byDay| && j <= 7 && byDay[i] == byDay[j]
    decreases |byDay|
  {
    var front := byDay[..|byDay| - 1];
    if NoRepeats(front) {
      forall k, l | 0 <= k < l < |front| ensures byDay[k] != byDay[l] {
        assert front[k] == byDay[k] && front[l] == byDay[l];
      }
      DaysBelow(front, 7);
      i, j :| i < j < |byDay| && byDay[i] == byDay[j];
    } else {
      i, j := FirstRepeat(front);
    }
  }

  /** Days without repeats, all below n, are at most n. */
  lemma {:induction false} DaysBelow(days: seq<Weekday>, n: nat)
    requires NoRepeats(days) && forall i :: 0 <= i < |days| ==> days[i] < n
    ensures |days| <= n
    decreases n
  {
    assert days != [] ==> days[0] < n;
    if n > 0 && days != [] {
      if n - 1 in days {
        var k :| 0 <= k < |days| && days[k] == n - 1;
        var others := days[..k] + days[k + 1..];
        forall i | 0 <= i < |others| ensures others[i] == days[if i < k then i else i + 1] {
        }
        DaysBelow(others, n - 1);
      } else {
        forall i | 0 <= i < |days| ensures days[i] < n - 1 {
          assert days[i] in days;
        }
        DaysBelow(days, n - 1);
      }
    }
  }

  predicate OnMonday(start: Tm) {
    ValidTm(start) && DaysSinceMonday(DayOf(start)) == 0
  }

  lemma SomeMonday() returns (start: Tm)
    ensures OnMonday(start)
  {
    start := Tm(70, 0, 5, 0, 0, 0);
    assert DayOf(start) == 4;
  }

  lemma MondayOffsets(rule: RRule, start: Tm, c: nat)
    requires rule.WellFormed() && rule.ByWeek() && OnMonday(start)
    ensures CandidateOffset(rule, start, c) >= 0
    ensures c < |rule.byDay| ==> CandidateOffset(rule, start, c) == MondayOffset(rule.byDay[c])
  {
    hide DayOf, DaysInMonth, MondayOffset;
    IntervalGrows(rule.interval, c / |rule.byDay|);
    if c < |rule.byDay| {
      QuotientOf(|rule.byDay|, 0, c);
    }
  }

  function FirstRule(byDay: seq<Weekday>, interval: int, n: nat): RRule {
    RRule(Weekly, interval, Some(n), None, byDay, [], [])
  }

  function FirstWindow(start: Tm): Window
    requires ValidTm(start)
  {
    Window(start, AddDays(start, 7))
  }

  /** With COUNT = n the loop returns the first n days in the order they are listed. */
  lemma FirstDays(byDay: seq<Weekday>, interval: int, n: nat, start: Tm)
    requires interval >= 1 && 1 <= n <= |byDay| && n <= 8 && OnMonday(start)
    ensures var walk, w := WalkOf(FirstRule(byDay, interval, n), start), FirstWindow(start);
            && walk.Advances() && |walk.Outcome(w)| == n
            && forall c: nat :: c < n ==> walk.Outcome(w)[c] == walk.Candidate(c) && walk.offset(c) == MondayOffset(byDay[c])
  {
    hide MondayOffset, AddDays, CandidateOffset, DaysInMonth, TmBefore, Walk.Candidate, Walk.Collected, Walk.Counted,
      Walk.Advances, Walk.Outcome, DaysSinceMonday;
    var rule := FirstRule(byDay, interval, n);
    var walk, w := WalkOf(rule, start), FirstWindow(start);
    WalkAdvances(rule, start);
    forall c: nat ensures walk.offset(c) >= 0 && walk.Kept(c) {
      MondayOffsets(rule, start, c);
      walk.CandidateOrder(c, c);
    }
    forall c: nat | c < n ensures TmBefore(walk.Candidate(c), w.to) && walk.offset(c) == MondayOffset(byDay[c]) {
      MondayOffsets(rule, start, c);
      DaysBefore(walk, c);
    }
    forall c: nat | c < n ensures !walk.Halts(w, c) {
      walk.CollectsInOrder(w, c);
    }
    walk.CollectsInOrder(w, n);
    walk.OutcomeAt(w, n);
  }

  /** With COUNT = i + 2 the loop returns the two days in the order they are listed. */
  lemma OutOfOrderIsWrong(byDay: seq<Weekday>, interval: int, i: nat)
    requires interval >= 1 && i + 1 < |byDay| && i <= 6 && MondayOffset(byDay[i]) >= MondayOffset(byDay[i + 1])
    ensures !AlwaysExact(byDay, interval)
  {
    hide MondayOffset, AddDays, DaysInMonth, DaysSinceMonday, TmBefore, Walk.Candidate, Series.Expansion, Walk.Advances,
      Series.Ascends, WalkOf, SeriesOf, Walk.Outcome;
    var start := SomeMonday();
    var rule, w := FirstRule(byDay, interval, i + 2), FirstWindow(start);
    FirstDays(byDay, interval, i + 2, start);
    SeriesAscends(rule, start);
    StartsAt(rule, start);
    WalkOf(rule, start).CandidateOrder(i, i + 1);
    SeriesOf(rule, start).ExpansionShows(w);
    assert !WeeklyRight(byDay, interval, start, Some(i + 2), None, w);
  }

  lemma StartsAt(rule: RRule, start: Tm)
    requires ValidTm(start) && rule.ByWeek()
    ensures WalkOf(rule, start).start == start
  {
  }

  lemma DaysBefore(walk: Walk, c: nat)
    requires ValidTm(walk.start) && walk.offset(c) < 7
    ensures TmBefore(walk.Candidate(c), AddDays(walk.start, 7))
  {
    hide AddDays, YearStart, MonthStart, TimeGm;
    AddDaysFields(walk.start, 7);
    AddDaysFields(walk.start, walk.offset(c));
    TmOrderIsTimeOrder(walk.Candidate(c), AddDays(walk.start, 7));
  }

  // ---- The loop ----

  /** The nested loops return the scan's outcome, for every list of days; they always stop, since each
      further week moves every candidate at least seven days on. */
  method ExpandWeekly(rule: RRule, start: Tm, rs: Tm, re: Tm) returns (results: seq<string>)
    requires rule.WellFormed() && ValidTm(start) && rule.ByWeek()
    ensures WalkOf(rule, start).Advances()
    ensures results == FormatAll(WalkOf(rule, start).Outcome(Window(rs, re)))
  {
    hide DaysInMonth, CandidateOffset, FormatIso, Walk.Advances, Walk.Outcome, Walk.HaltBound, AddDays, TmBefore, TimeGm, GmTime,
      YearStart, MonthStart, WeekMonday, Walk.Candidate;
    ghost var walk, w, n := WalkOf(rule, start), Window(rs, re), |rule.byDay|;
    WalkAdvances(rule, start);
    results := [];
    var totalCount := 0;
    var stTt := TimeGm(start);
    var wday := WeekdayOf(DayOf(start));
    var daysSinceMon := (wday + 6) % 7;
    stTt := stTt - daysSinceMon * 86400;
    var currentWeek := GmTime(stTt);
    WeekDay(rule, start, 0);
    currentWeek := currentWeek.(hour := start.hour, min := start.min, sec := start.sec);
    ghost var week, c := 0, 0;
    while true
      invariant walk.Advances() && c == n * week
      invariant currentWeek == WeekMonday(rule, start, week)
      invariant totalCount == walk.Counted(c)
      invariant results == FormatAll(walk.Collected(w, c)) && |results| < MAX_OCCURRENCES
      invariant forall d: nat :: d < c ==> !walk.Halts(w, d)
      decreases if c > walk.HaltBound(w) then 0 else walk.HaltBound(w) + 1 - c
    {
      ghost var before := c;
      for i := 0 to |rule.byDay|
        invariant c == n * week + i && before == n * week
        invariant totalCount == walk.Counted(c)
        invariant results == FormatAll(walk.Collected(w, c)) && |results| < MAX_OCCURRENCES
        invariant forall d: nat :: d < c ==> !walk.Halts(w, d)
      {
        var targetWday: int := rule.byDay[i];
        var monOffset := (targetWday + 6) % 7;
        var weekTt := TimeGm(currentWeek);
        var dayTt := weekTt + monOffset * 86400;
        var candidate := GmTime(dayTt);
        DayInWeek(rule, start, week, i);
        candidate := candidate.(hour := start.hour, min := start.min, sec := start.sec);
        assert candidate == walk.Candidate(c);
        if TmBefore(candidate, start) {
          assert !walk.Halts(w, c) && FormatAll(walk.Collected(w, c + 1)) == results;
          c := c + 1;
          continue;
        }
        if rule.until.Some? && TmBefore(rule.until.value, candidate) {
          walk.OutcomeAt(w, c);
          return;
        }
        if rule.count.Some? && totalCount >= rule.count.value {
          walk.OutcomeAt(w, c);
          return;
        }
        if !TmBefore(candidate, re) {
          walk.OutcomeAt(w, c);
          return;
        }
        totalCount := totalCount + 1;
        if TmBeforeOrEqual(rs, candidate) {
          results := results + [FormatIso(candidate)];
        }
        c := c + 1;
        assert results == FormatAll(walk.Collected(w, c));
        if |results| >= MAX_OCCURRENCES {
          walk.OutcomeAt(w, c);
          return;
        }
      }
      var wt := TimeGm(currentWeek);
      wt := wt + 86400 * 7 * rule.interval;
      currentWeek := GmTime(wt);
      NextWeek(rule, start, week);
      currentWeek := currentWeek.(hour := start.hour, min := start.min, sec := start.sec);
      walk.HaltsByBound(w, before);
      assert n * (week + 1) == n * week + n;
      week := week + 1;
    }
  }

  /** The Monday of the week `week` visits after dtstart's, at dtstart's time of day. */
  function WeekMonday(rule: RRule, start: Tm, week: nat): (t: Tm)
    requires ValidTm(start)
    ensures ValidTm(t)
  {
    AddDays(start, 7 * (rule.interval * week) - DaysSinceMonday(DayOf(start)))
  }

  lemma ClockKept(t: Tm, days: int)
    requires ValidTm(t)
    ensures var r := GmTime(TimeGm(t) + days * 86400);
            r == AddDays(t, days) && r.(hour := t.hour, min := t.min, sec := t.sec) == r
  {
    hide YearStart, MonthStart, TimeGm, GmTime;
    assert SECONDS_PER_DAY * days == days * 86400;
    AddDaysFields(t, days);
  }

  lemma WeekDay(rule: RRule, start: Tm, week: nat)
    requires ValidTm(start)
    ensures var since := (WeekdayOf(DayOf(start)) + 6) % 7;
            var r := GmTime(TimeGm(start) - since * 86400);
            r.(hour := start.hour, min := start.min, sec := start.sec) == WeekMonday(rule, start, 0)
  {
    hide YearStart, MonthStart, TimeGm, GmTime, DayOf, AddDays, DaysInMonth;
    var since := DaysSinceMonday(DayOf(start));
    ClockKept(start, -since);
    assert rule.interval * 0 == 0;
    assert TimeGm(start) - since * 86400 == TimeGm(start) + (-since) * 86400;
  }

  lemma DayInWeek(rule: RRule, start: Tm, week: nat, i: nat)
    requires ValidTm(start) && rule.ByWeek() && i < |rule.byDay|
    ensures var r := GmTime(TimeGm(WeekMonday(rule, start, week)) + MondayOffset(rule.byDay[i]) * 86400);
            r.(hour := start.hour, min := start.min, sec := start.sec)
            == WalkOf(rule, start).Candidate(|rule.byDay| * week + i)
  {
    hide YearStart, MonthStart, TimeGm, GmTime, DayOf, AddDays, DaysInMonth;
    var monday := WeekMonday(rule, start, week);
    var back := 7 * (rule.interval * week) - DaysSinceMonday(DayOf(start));
    AddDaysFields(start, back);
    ClockKept(monday, MondayOffset(rule.byDay[i]));
    AddDaysCompose(start, back, MondayOffset(rule.byDay[i]));
    QuotientOf(|rule.byDay|, week, i);
  }

  lemma NextWeek(rule: RRule, start: Tm, week: nat)
    requires ValidTm(start)
    ensures var r := GmTime(TimeGm(WeekMonday(rule, start, week)) + 86400 * 7 * rule.interval);
            r.(hour := start.hour, min := start.min, sec := start.sec) == WeekMonday(rule, start, week + 1)
  {
    hide YearStart, MonthStart, TimeGm, GmTime, DayOf, AddDays, DaysInMonth;
    var monday := WeekMonday(rule, start, week);
    var back := 7 * (rule.interval * week) - DaysSinceMonday(DayOf(start));
    AddDaysFields(start, back);
    ClockKept(monday, 7 * rule.interval);
    AddDaysCompose(start, back, 7 * rule.interval);
    assert rule.interval * (week + 1) == rule.interval * week + rule.interval;
    assert 7 * rule.interval * 86400 == 86400 * 7 * rule.interval;
  }
}
