/** expand_rrule as a whole, on text, and the occurrence loop of the list-events route. */
module CalendarHandler {
  import opened Calendar
  import opened EventSeries
  import opened Iso8601
  import opened Options
  import opened PlainExpansion
  import opened Recurrence
  import opened RRuleParser
  import opened Text
  import opened WeeklyExpansion
  import opened WeekWalk

  // ---- expand_rrule ----

  /** The start times expand_rrule returns. */
  ghost function ExpandedTimes(rule: RRule, start: Tm, w: Window): seq<Tm>
    requires rule.WellFormed() && ValidTm(start)
  {
    if rule.ByWeek() then
      WalkAdvances(rule, start);
      WalkOf(rule, start).Outcome(w)
    else
      SeriesAscends(rule, start);
      SeriesOf(rule, start).Expansion(w)
  }

  method ExpandRRule(rule: RRule, dtstart: string, rangeStart: string, rangeEnd: string) returns (results: seq<string>)
    requires rule.WellFormed() && ValidTm(ParseIso(dtstart))
    ensures results == FormatAll(ExpandedTimes(rule, ParseIso(dtstart), Window(ParseIso(rangeStart), ParseIso(rangeEnd))))
  {
    hide ValidTm, ParseIso, FormatIso, WalkOf, SeriesOf, Walk.Outcome, Series.Expansion;
    var start, rs, re := ParseIso(dtstart), ParseIso(rangeStart), ParseIso(rangeEnd);
    if rule.ByWeek() {
      results := ExpandWeekly(rule, start, rs, re);
    } else {
      results := ExpandPlain(rule, start, rs, re);
    }
  }

  /** The rules for which expand_rrule is exact on every event and window. */
  predicate Ordered(rule: RRule) {
    rule.ByWeek() ==> MondayFirst(rule.byDay)
  }

  /** For such rules the result is the rule's meaning, whichever loop computes it. */
  lemma ExpandedIsExpansion(rule: RRule, start: Tm, w: Window)
    requires rule.WellFormed() && ValidTm(start) && Ordered(rule)
    ensures SeriesOf(rule, start).Ascends()
    ensures ExpandedTimes(rule, start, w) == SeriesOf(rule, start).Expansion(w)
  {
    hide ValidTm, WalkOf, SeriesOf, Walk.Outcome, Series.Expansion, MondayFirst;
    SeriesAscends(rule, start);
    if rule.ByWeek() {
      WeeklyExact(rule, start, w);
    }
  }

  /** Asking for [a,c) is asking for [a,b) and then for [b,c), exactly when the answers to the two
      together stay within the cap on results. */
  lemma ExpandedAdditive(rule: RRule, start: Tm, a: Tm, b: Tm, c: Tm)
    requires rule.WellFormed() && ValidTm(start) && Ordered(rule)
    requires TmBeforeOrEqual(a, b) && TmBeforeOrEqual(b, c)
    ensures ExpandedTimes(rule, start, Window(a, c))
            == ExpandedTimes(rule, start, Window(a, b)) + ExpandedTimes(rule, start, Window(b, c))
       <==> |ExpandedTimes(rule, start, Window(a, b))| + |ExpandedTimes(rule, start, Window(b, c))| <= MAX_OCCURRENCES
  {
    hide ValidTm, SeriesOf, Series.Expansion, ExpandedTimes, Ordered;
    ExpandedIsExpansion(rule, start, Window(a, b));
    ExpandedIsExpansion(rule, start, Window(b, c));
    ExpandedIsExpansion(rule, start, Window(a, c));
    SeriesOf(rule, start).RangeAdditivity(a, b, c);
  }

  // ---- Occurrences always survive the trip through text ----

  ghost predicate FromTo(ts: seq<Tm>, start: Tm, end: Tm) {
    forall i :: 0 <= i < |ts| ==> ValidTm(ts[i]) && !TmBefore(ts[i], start) && TmBefore(ts[i], end)
  }

  lemma {:induction false} CollectedFromTo(walk: Walk, w: Window, c: nat)
    requires ValidTm(walk.start) && forall d: nat :: d < c ==> !walk.Halts(w, d)
    ensures FromTo(walk.Collected(w, c), walk.start, w.to)
  {
    hide ValidTm, TmBefore, AddDays;
    if c > 0 {
      CollectedFromTo(walk, w, c - 1);
      assert !walk.Halts(w, c - 1);
    }
  }

  lemma ExpansionFromTo(s: Series, w: Window)
    requires s.Ascends()
    ensures FromTo(s.Expansion(w), s.visit(0), w.to)
  {
    hide ValidTm, TmBefore, Series.Select;
    var ts := s.Expansion(w);
    s.ExpansionShows(w);
    forall i | 0 <= i < |ts| ensures ValidTm(ts[i]) && !TmBefore(ts[i], s.visit(0)) && TmBefore(ts[i], w.to) {
      assert ts[i] in ts;
      var k: nat :| s.Occurs(k) && w.Contains(s.visit(k)) && ts[i] == s.visit(k);
      if k > 0 {
        assert TmBefore(s.visit(0), s.visit(k));
      }
      TmBeforeIsTotalOrder(s.visit(0), s.visit(k), s.visit(0));
    }
  }

  lemma ExpandedFromTo(rule: RRule, start: Tm, w: Window)
    requires rule.WellFormed() && ValidTm(start)
    ensures FromTo(ExpandedTimes(rule, start, w), start, w.to)
  {
    hide ValidTm, FromTo, Walk.Collected, Series.Expansion, CandidateOffset, Listed, Visit;
    if rule.ByWeek() {
      WalkAdvances(rule, start);
      var walk := WalkOf(rule, start);
      CollectedFromTo(walk, w, walk.FirstHalt(w, 0));
    } else {
      SeriesAscends(rule, start);
      ExpansionFromTo(SeriesOf(rule, start), w);
    }
  }

  lemma ParsedYear(text: string)
    ensures -999 <= ParseIso(text).year + 1900 <= 9999
  {
    if |text| >= 10 {
      FourCharsBound(text[0..4]);
    }
  }

  /** Every returned start time reads back as the time it was written from: it lies between dtstart
      and the end of the range, and neither was read with a year the format cannot hold. */
  lemma OccurrencesReadBack(rule: RRule, dtstart: string, w: Window, rangeEnd: string)
    requires rule.WellFormed() && ValidTm(ParseIso(dtstart)) && w.to == ParseIso(rangeEnd)
    ensures var ts := ExpandedTimes(rule, ParseIso(dtstart), w);
            forall i :: 0 <= i < |ts| ==> ValidTm(ts[i]) && ParseIso(FormatIso(ts[i])) == ts[i]
  {
    hide ValidTm, ParseIso, FormatIso, ExpandedTimes;
    var ts := ExpandedTimes(rule, ParseIso(dtstart), w);
    ExpandedFromTo(rule, ParseIso(dtstart), w);
    ParsedYear(dtstart);
    ParsedYear(rangeEnd);
    forall i | 0 <= i < |ts| ensures ValidTm(ts[i]) && ParseIso(FormatIso(ts[i])) == ts[i] {
      FormatParseRoundTrip(ts[i]);
    }
  }

  // ---- The occurrence loop ----

  // The fields of an event that an occurrence can change; the others are copied as they are.
  datatype Event = Event(title: string, description: string, location: string, color: string,
                         startTime: string, endTime: string, allDay: bool, rrule: string)

  datatype ExceptionRow = ExceptionRow(originalDate: string, isDeleted: bool, title: string, description: string,
                                       location: string, color: string, startTime: string, endTime: string, allDay: bool)

  datatype Entry = Entry(event: Event, occurrenceDate: string, isException: bool)

  function DurationSeconds(startText: string, endText: string): int
    requires ValidTm(ParseIso(startText)) && ValidTm(ParseIso(endText))
  {
    TimeGm(ParseIso(endText)) - TimeGm(ParseIso(startText))
  }

  /** The end of an occurrence: its start plus the master event's duration. */
  function EndAfter(occurrence: string, duration: int): string
    requires ValidTm(ParseIso(occurrence))
  {
    FormatIso(GmTime(TimeGm(ParseIso(occurrence)) + duration))
  }

  predicate SameMinute(a: Tm, b: Tm) {
    a.year == b.year && a.mon == b.mon && a.mday == b.mday && a.hour == b.hour && a.min == b.min
  }

  predicate Hits(ex: ExceptionRow, occurrence: string) {
    SameMinute(ParseIso(ex.originalDate), ParseIso(occurrence))
  }

  /** The first exception for an occurrence decides; the length when there is none. */
  function FirstHit(exs: seq<ExceptionRow>, occurrence: string): (i: nat)
    ensures i <= |exs| && (i < |exs| ==> Hits(exs[i], occurrence))
    ensures forall j :: 0 <= j < i ==> !Hits(exs[j], occurrence)
  {
    if exs == [] || Hits(exs[0], occurrence) then 0 else 1 + FirstHit(exs[1..], occurrence)
  }

  function OrElse(a: string, b: string): string {
    if a != "" then a else b
  }

  /** An override replaces what it states and leaves the master event's own values otherwise, its
      start and end time included. */
  function Overridden(e: Event, ex: ExceptionRow): Event {
    e.(title := OrElse(ex.title, e.title), description := OrElse(ex.description, e.description),
       location := OrElse(ex.location, e.location), color := OrElse(ex.color, e.color),
       startTime := OrElse(ex.startTime, e.startTime), endTime := OrElse(ex.endTime, e.endTime), allDay := ex.allDay)
  }

  function EntryFor(e: Event, exs: seq<ExceptionRow>, duration: int, occurrence: string): Option<Entry>
    requires ValidTm(ParseIso(occurrence))
  {
    var i := FirstHit(exs, occurrence);
    if i == |exs| then
      Some(Entry(e.(startTime := occurrence, endTime := EndAfter(occurrence, duration)), occurrence, false))
    else if exs[i].isDeleted then None
    else Some(Entry(Overridden(e, exs[i]), occurrence, true))
  }

  function Entries(e: Event, exs: seq<ExceptionRow>, duration: int, occurrences: seq<string>): seq<Entry>
    requires forall i :: 0 <= i < |occurrences| ==> ValidTm(ParseIso(occurrences[i]))
  {
    if occurrences == [] then []
    else
      var last := |occurrences| - 1;
      Entries(e, exs, duration, occurrences[..last])
      + match EntryFor(e, exs, duration, occurrences[last]) { case None => [] case Some(entry) => [entry] }
  }

  /** The exception scan of one occurrence. */
  method ApplyExceptions(e: Event, exs: seq<ExceptionRow>, occStart: string) returns (obj: Event, isDeleted: bool, isException: bool)
    ensures var i := FirstHit(exs, occStart);
            && isDeleted == (i < |exs| && exs[i].isDeleted)
            && isException == (i < |exs| && !exs[i].isDeleted)
            && obj == if isException then Overridden(e, exs[i]) else e
  {
    hide ParseIso, FirstHit;
    isDeleted, isException := false, false;
    obj := e;
    var i := 0;
    while i < |exs|
      invariant i <= |exs|
      invariant !isDeleted && !isException && obj == e
      invariant forall j :: 0 <= j < i ==> !Hits(exs[j], occStart)
    {
      var ex := exs[i];
      if SameMinute(ParseIso(ex.originalDate), ParseIso(occStart)) {
        HitIsFirst(exs, occStart, i);
        if ex.isDeleted {
          isDeleted := true;
          return;
        }
        isException := true;
        if ex.title != "" { obj := obj.(title := ex.title); }
        if ex.description != "" { obj := obj.(description := ex.description); }
        if ex.location != "" { obj := obj.(location := ex.location); }
        if ex.color != "" { obj := obj.(color := ex.color); }
        if ex.startTime != "" { obj := obj.(startTime := ex.startTime); }
        if ex.endTime != "" { obj := obj.(endTime := ex.endTime); }
        obj := obj.(allDay := ex.allDay);
        return;
      }
      i := i + 1;
    }
  }

  /** One recurring event of the route: parse its rule, expand it, and merge its exceptions. It ends for
      every rule text. */
  method ListRecurring(e: Event, exs: seq<ExceptionRow>, rangeStart: string, rangeEnd: string) returns (arr: seq<Entry>)
    requires ValidTm(ParseIso(e.startTime)) && ValidTm(ParseIso(e.endTime))
    ensures Parsed(e.rrule).WellFormed()
    ensures var ts := ExpandedTimes(Parsed(e.rrule), ParseIso(e.startTime), Window(ParseIso(rangeStart), ParseIso(rangeEnd)));
            && (forall i :: 0 <= i < |ts| ==> ValidTm(ParseIso(FormatAll(ts)[i])))
            && arr == Entries(e, exs, DurationSeconds(e.startTime, e.endTime), FormatAll(ts))
  {
    hide ValidTm, ParseIso, FormatIso, ExpandedTimes, Parsed, TimeGm, GmTime, RRule.WellFormed, FirstHit, Overridden,
      EntryFor;
    ghost var w := Window(ParseIso(rangeStart), ParseIso(rangeEnd));
    var rule := ParseRRule(e.rrule);
    var occurrences := ExpandRRule(rule, e.startTime, rangeStart, rangeEnd);
    OccurrencesReadBack(rule, e.startTime, w, rangeEnd);
    var duration := DurationSeconds(e.startTime, e.endTime);
    arr := [];
    for n := 0 to |occurrences|
      invariant arr == Entries(e, exs, duration, occurrences[..n])
    {
      var occStart := occurrences[n];
      var obj, isDeleted, isException := ApplyExceptions(e, exs, occStart);
      assert occurrences[..n + 1][..n] == occurrences[..n];
      EntryIs(e, exs, duration, occStart);
      if isDeleted {
        continue;
      }
      if !isException {
        obj := obj.(startTime := occStart);
        var occTt := TimeGm(ParseIso(occStart));
        occTt := occTt + duration;
        obj := obj.(endTime := FormatIso(GmTime(occTt)));
      }
      arr := arr + [Entry(obj, occStart, isException)];
    }
    assert occurrences[..|occurrences|] == occurrences;
  }

  lemma EntryIs(e: Event, exs: seq<ExceptionRow>, duration: int, occurrence: string)
    requires ValidTm(ParseIso(occurrence))
    ensures var i := FirstHit(exs, occurrence);
            EntryFor(e, exs, duration, occurrence)
            == if i == |exs| then
                 Some(Entry(e.(startTime := occurrence, endTime := FormatIso(GmTime(TimeGm(ParseIso(occurrence)) + duration))),
                            occurrence, false))
               else if exs[i].isDeleted then None
               else Some(Entry(Overridden(e, exs[i]), occurrence, true))
  {
    hide ValidTm, ParseIso, FormatIso, TimeGm, GmTime, FirstHit, Overridden;
  }

  lemma HitIsFirst(exs: seq<ExceptionRow>, occurrence: string, i: nat)
    requires i < |exs| && Hits(exs[i], occurrence) && forall j :: 0 <= j < i ==> !Hits(exs[j], occurrence)
    ensures FirstHit(exs, occurrence) == i
  {
    hide Hits;
    var f := FirstHit(exs, occurrence);
    assert f <= i ==> f < |exs| && Hits(exs[f], occurrence);
  }

  // ---- What the list promises ----

  /** Two times are the same for an exception when the minute they fall in is. */
  lemma SameMinuteIsMinute(a: Tm, b: Tm)
    requires ValidTm(a) && ValidTm(b)
    ensures SameMinute(a, b) <==> TimeGm(a) / 60 == TimeGm(b) / 60
  {
    hide DayOf, DaysInMonth;
    assert SameMinute(a, b) ==> DayOf(a) == DayOf(b) by { SameDay(a, b); }
    assert TimeGm(a) / 60 == DayOf(a) * 1440 + a.hour * 60 + a.min;
    assert TimeGm(b) / 60 == DayOf(b) * 1440 + b.hour * 60 + b.min;
    MinuteFields(a, b);
  }

  lemma MinuteFields(a: Tm, b: Tm)
    requires ValidTm(a) && ValidTm(b)
    ensures DayOf(a) * 1440 + a.hour * 60 + a.min == DayOf(b) * 1440 + b.hour * 60 + b.min ==> SameMinute(a, b)
  {
    hide YearStart, MonthStart, DaysInMonth;
    var c := b.(sec := a.sec);
    TmOrderIsTimeOrder(a, c);
  }

  /** What the list shows of one occurrence, field by field: nothing when the first exception in its minute
      deletes it; what that exception states, and the master event's own value where it states nothing; and
      without an exception the master event at the occurrence's time. */
  lemma EntryShows(e: Event, exs: seq<ExceptionRow>, duration: int, occurrence: string, i: nat)
    requires ValidTm(ParseIso(occurrence)) && i <= |exs|
    requires forall j :: 0 <= j < i ==> !SameMinute(ParseIso(exs[j].originalDate), ParseIso(occurrence))
    requires i < |exs| ==> SameMinute(ParseIso(exs[i].originalDate), ParseIso(occurrence))
    ensures var entry := EntryFor(e, exs, duration, occurrence);
            if i == |exs| then
              && entry.Some? && !entry.value.isException && entry.value.occurrenceDate == occurrence
              && entry.value.event == e.(startTime := occurrence,
                                         endTime := FormatIso(GmTime(TimeGm(ParseIso(occurrence)) + duration)))
            else if exs[i].isDeleted then entry == None
            else
              && entry.Some? && entry.value.isException && entry.value.occurrenceDate == occurrence
              && var shown, ex := entry.value.event, exs[i];
                 && shown.title == (if ex.title == "" then e.title else ex.title)
                 && shown.description == (if ex.description == "" then e.description else ex.description)
                 && shown.location == (if ex.location == "" then e.location else ex.location)
                 && shown.color == (if ex.color == "" then e.color else ex.color)
                 && shown.startTime == (if ex.startTime == "" then e.startTime else ex.startTime)
                 && shown.endTime == (if ex.endTime == "" then e.endTime else ex.endTime)
                 && shown.allDay == ex.allDay && shown.rrule == e.rrule
  {
    hide ValidTm, ParseIso, FormatIso, TimeGm, GmTime, SameMinute;
    var f := FirstHit(exs, occurrence);
    assert f < i ==> Hits(exs[f], occurrence);
    assert i < f ==> !Hits(exs[i], occurrence);
  }

  /** An occurrence without an exception lasts as long as the master event, to the second, exactly when
      its end still has a year the text can hold. */
  lemma DurationKept(t: Tm, duration: int)
    requires ValidTm(t) && ParseIso(FormatIso(t)) == t
    ensures var end, text := GmTime(TimeGm(t) + duration), EndAfter(FormatIso(t), duration);
            && (ParseIso(text) == end <==> -999 <= end.year + 1900 <= 9999)
            && (ParseIso(text) == end ==> DurationSeconds(FormatIso(t), text) == duration)
  {
    hide ParseIso, FormatIso, GmTime, ValidTm;
    var end := GmTime(TimeGm(t) + duration);
    FormatParseRoundTrip(end);
    GmTimeInverse(TimeGm(t) + duration);
  }

  /** An exception row touches at most one occurrence, for these days and this interval, whatever the event
      and the window. */
  ghost predicate HitsAtMostOne(byDay: seq<Weekday>, interval: int)
    requires byDay != [] && interval >= 1
  {
    forall start: Tm, count: Option<int>, until: Option<Tm>, w: Window, ex: Tm, i: nat, j: nat
      {:trigger HitsOne(RRule(Weekly, interval, count, until, byDay, [], []), start, w, ex, i, j)} ::
      HitsOne(RRule(Weekly, interval, count, until, byDay, [], []), start, w, ex, i, j)
  }

  ghost predicate HitsOne(rule: RRule, start: Tm, w: Window, ex: Tm, i: nat, j: nat) {
    rule.WellFormed() && ValidTm(start) && i < j < |ExpandedTimes(rule, start, w)| ==>
      var ts := ExpandedTimes(rule, start, w);
      !(SameMinute(ex, ts[i]) && SameMinute(ex, ts[j]))
  }

  /** Unless BYDAY repeats a day, no two occurrences fall on one day. */
  lemma ExceptionHitsOne(rule: RRule, start: Tm, w: Window, ex: Tm, i: nat, j: nat)
    requires rule.ByWeek() ==> NoRepeats(rule.byDay)
    ensures HitsOne(rule, start, w, ex, i, j)
  {
    hide DaysInMonth, WalkOf, SeriesOf, Series.Select, Walk.Outcome, DayOf, NoRepeats;
    if rule.WellFormed() && ValidTm(start) && i < j < |ExpandedTimes(rule, start, w)| {
      var ts := ExpandedTimes(rule, start, w);
      if rule.ByWeek() {
        OutcomeApart(rule, start, w, i, j);
      } else {
        SeriesAscends(rule, start);
        var s := SeriesOf(rule, start);
        s.SelectAscends(w, s.Horizon(w.to), i, j);
      }
      SameDay(ts[i], ts[j]);
    }
  }

  /** And exactly then: a repeated day is listed twice, and both entries are the exception's. */
  lemma ExceptionHitsOneExactly(byDay: seq<Weekday>, interval: int)
    requires byDay != [] && interval >= 1
    ensures HitsAtMostOne(byDay, interval) <==> NoRepeats(byDay)
  {
    hide NoRepeats, HitsOne, WalkOf, Walk.Outcome, AddDays, Walk.Candidate;
    if NoRepeats(byDay) {
      forall start: Tm, count: Option<int>, until: Option<Tm>, w: Window, ex: Tm, i: nat, j: nat
        ensures HitsOne(RRule(Weekly, interval, count, until, byDay, [], []), start, w, ex, i, j)
      {
        ExceptionHitsOne(RRule(Weekly, interval, count, until, byDay, [], []), start, w, ex, i, j);
      }
    } else {
      var i, j := FirstRepeat(byDay);
      var start := SomeMonday();
      var rule, w := FirstRule(byDay, interval, j + 1), FirstWindow(start);
      FirstDays(byDay, interval, j + 1, start);
      StartsAt(rule, start);
      var walk := WalkOf(rule, start);
      SameCandidate(walk, i, j);
      RepeatedHit(rule, start, w, i, j);
      assert !HitsOne(RRule(Weekly, interval, Some(j + 1), None, byDay, [], []), start, w, walk.Candidate(i), i, j);
    }
  }

  lemma SameCandidate(walk: Walk, c: nat, d: nat)
    requires ValidTm(walk.start) && walk.offset(c) == walk.offset(d)
    ensures walk.Candidate(c) == walk.Candidate(d)
  {
  }

  lemma RepeatedHit(rule: RRule, start: Tm, w: Window, i: nat, j: nat)
    requires rule.WellFormed() && rule.ByWeek() && ValidTm(start) && WalkOf(rule, start).Advances()
    requires var ts := WalkOf(rule, start).Outcome(w); i < j < |ts| && ts[i] == ts[j]
    ensures var ts := WalkOf(rule, start).Outcome(w); !HitsOne(rule, start, w, ts[i], i, j)
  {
    hide WalkOf, Walk.Outcome;
  }

  lemma SameDay(a: Tm, b: Tm)
    requires ValidTm(a) && ValidTm(b)
    ensures SameMinute(a, b) ==> DayOf(a) == DayOf(b)
  {
  }
}
