/** The first loop of expand_rrule seen from far: candidates at given day offsets from dtstart, in
    whatever order BYDAY lists them, scanned until UNTIL, COUNT, the window or the cap says stop. */
module WeekWalk {
  import opened Arithmetic
  import opened Calendar
  import opened EventSeries
  import opened Options

  datatype Walk = Walk(start: Tm, offset: nat -> int, perWeek: nat, until: Option<Tm>, count: Option<int>)
  {
    /** Candidates come `perWeek` to a week, and each further week is at least seven days on. */
    ghost predicate Advances() {
      && ValidTm(start) && perWeek >= 1
      && forall c: nat :: offset(c) + 6 >= 7 * (c / perWeek)
    }

    function Candidate(c: nat): Tm
      requires ValidTm(start)
    {
      AddDays(start, offset(c))
    }

    /** Candidates before dtstart are passed over without any check. */
    predicate Kept(c: nat)
      requires ValidTm(start)
    {
      !TmBefore(Candidate(c), start)
    }

    function Counted(c: nat): nat
      requires ValidTm(start)
    {
      if c == 0 then 0 else Counted(c - 1) + if Kept(c - 1) then 1 else 0
    }

    /** The results after c candidates. */
    function Collected(w: Window, c: nat): (ts: seq<Tm>)
      requires ValidTm(start)
      ensures |ts| <= c
    {
      if c == 0 then []
      else Collected(w, c - 1)
           + if Kept(c - 1) && TmBeforeOrEqual(w.from, Candidate(c - 1)) then [Candidate(c - 1)] else []
    }

    predicate CutOff(w: Window, c: nat)
      requires ValidTm(start)
    {
      || (until.Some? && TmBefore(until.value, Candidate(c)))
      || (count.Some? && Counted(c) >= count.value)
      || !TmBefore(Candidate(c), w.to)
    }

    predicate Halts(w: Window, c: nat)
      requires ValidTm(start)
    {
      (Kept(c) && CutOff(w, c)) || |Collected(w, c)| >= MAX_OCCURRENCES
    }

    ghost function HaltBound(w: Window): nat
      requires Advances()
    {
      var days := YearStart(w.to.year + 1) - DayOf(start);
      perWeek * (1 + if days < 0 then 0 else days)
    }

    /** A day offset below zero is a candidate before dtstart, and candidates compare by offset. */
    lemma CandidateOrder(c: nat, d: nat)
      requires ValidTm(start)
      ensures TmBefore(Candidate(c), Candidate(d)) <==> offset(c) < offset(d)
      ensures Kept(c) <==> offset(c) >= 0
      ensures DayOf(Candidate(c)) == DayOf(start) + offset(c)
    {
      hide YearStart, MonthStart, TimeGm, AddDays;
      AddDaysFields(start, offset(c));
      AddDaysFields(start, offset(d));
      TmOrderIsTimeOrder(Candidate(c), Candidate(d));
      TmOrderIsTimeOrder(Candidate(c), start);
    }

    /** The scan halts whatever the order of the days. */
    lemma HaltsByBound(w: Window, c: nat)
      requires Advances()
      ensures c >= HaltBound(w) ==> Halts(w, c)
    {
      hide TimeGm, AddDays, MonthStart, DaysInYear;
      var days := YearStart(w.to.year + 1) - DayOf(start);
      var weeks := 1 + if days < 0 then 0 else days;
      QuotientBound(c, perWeek, weeks);
      CandidateOrder(c, c);
      if c >= HaltBound(w) {
        LateDayIsLater(Candidate(c), w.to);
      }
    }

    /** The first candidate at which the scan returns. */
    ghost function FirstHalt(w: Window, c: nat): (h: nat)
      requires Advances()
      ensures h >= c && Halts(w, h)
      ensures forall d: nat :: c <= d < h ==> !Halts(w, d)
      decreases if c >= HaltBound(w) then 0 else HaltBound(w) - c
    {
      HaltsByBound(w, c);
      if Halts(w, c) then c else FirstHalt(w, c + 1)
    }

    /** What the first loop returns. */
    ghost function Outcome(w: Window): seq<Tm>
      requires Advances()
    {
      Collected(w, FirstHalt(w, 0))
    }

    lemma OutcomeAt(w: Window, c: nat)
      requires Advances() && Halts(w, c) && forall d: nat :: d < c ==> !Halts(w, d)
      ensures Outcome(w) == Collected(w, c)
    {
      hide Walk.Halts, Walk.Collected;
      var h := FirstHalt(w, 0);
      assert Halts(w, h) && Halts(w, c);
    }

    // ---- In ascending order, the scan is the series ----

    /** The candidates are exactly the listed days of s, in ascending order. */
    ghost predicate Follows(s: Series) {
      && Advances() && s.Ascends() && s.until == until && s.count == count
      && (forall c: nat, d: nat :: c < d ==> offset(c) < offset(d))
      && (forall k: nat :: s.visit(k) == AddDays(start, k))
      && (forall k: nat :: s.listed(k) ==> exists c: nat :: offset(c) == k)
      && (forall c: nat :: offset(c) >= 0 ==> s.listed(offset(c)))
    }

    function Position(c: nat): nat {
      if offset(c) < 0 then 0 else offset(c)
    }

    lemma {:induction false} NothingListed(s: Series, w: Window, j: nat, k: nat)
      requires j <= k && forall i: nat :: j <= i < k ==> !s.listed(i)
      ensures s.Rank(j) == s.Rank(k) && s.Select(w, j) == s.Select(w, k)
      decreases k
    {
      if j < k {
        NothingListed(s, w, j, k - 1);
      }
    }

    lemma GapBefore(s: Series, w: Window, c: nat, j: nat)
      requires Follows(s) && j <= Position(c)
      requires c > 0 ==> offset(c - 1) < j
      ensures s.Rank(j) == s.Rank(Position(c)) && s.Select(w, j) == s.Select(w, Position(c))
    {
      hide AddDays, Series.Rank, Series.Select, Walk.Collected;
      forall d: nat ensures offset(d) < j || offset(d) >= offset(c) {
        if d < c - 1 {
          assert offset(d) < offset(c - 1);
        } else if c < d {
          assert offset(c) < offset(d);
        }
      }
      NothingListed(s, w, j, Position(c));
    }

    /** Up to the first halt the two agree candidate by candidate. */
    lemma {:induction false} InStep(s: Series, w: Window, c: nat)
      requires Follows(s) && forall d: nat :: d < c ==> !Halts(w, d)
      ensures Counted(c) == s.Rank(Position(c))
      ensures Collected(w, c) == s.Select(w, Position(c))
    {
      hide AddDays, TmBefore, Walk.Halts, Walk.CutOff, Walk.Kept, Walk.Candidate, Walk.Counted, Walk.Collected, Series.Rank, Series.Select;
      if c == 0 {
        GapBefore(s, w, 0, 0);
        CountNothing(s, w);
      } else {
        InStep(s, w, c - 1);
        assert offset(c - 1) < offset(c);
        CandidateOrder(c - 1, c - 1);
        if offset(c - 1) < 0 {
          StepOver(w, c - 1);
          GapBefore(s, w, c, 0);
        } else {
          StepOnto(s, w, c - 1);
          GapBefore(s, w, c, offset(c - 1) + 1);
        }
      }
    }

    lemma CountNothing(s: Series, w: Window)
      requires ValidTm(start)
      ensures Counted(0) == s.Rank(0) && Collected(w, 0) == s.Select(w, 0)
    {
    }

    lemma StepOver(w: Window, c: nat)
      requires ValidTm(start) && !Kept(c)
      ensures Counted(c + 1) == Counted(c) && Collected(w, c + 1) == Collected(w, c)
    {
    }

    lemma StepOnto(s: Series, w: Window, c: nat)
      requires Follows(s) && !Halts(w, c) && Kept(c) && offset(c) >= 0
      requires Counted(c) == s.Rank(offset(c)) && Collected(w, c) == s.Select(w, offset(c))
      ensures Counted(c + 1) == s.Rank(offset(c) + 1)
      ensures Collected(w, c + 1) == s.Select(w, offset(c) + 1)
    {
      hide AddDays, TmBefore, Walk.Kept;
      assert s.listed(offset(c)) && s.visit(offset(c)) == Candidate(c);
    }

    lemma {:induction false} CollectedBelowCap(w: Window, c: nat)
      requires ValidTm(start) && forall d: nat :: d < c ==> !Halts(w, d)
      ensures |Collected(w, c)| <= MAX_OCCURRENCES
    {
      hide Walk.Kept, Walk.CutOff, Walk.Candidate, TmBeforeOrEqual;
      if c > 0 {
        assert !Halts(w, c - 1);
      }
    }

    /** Scanning the days of each week in ascending order gives exactly the series' expansion. */
    lemma FollowsExactly(s: Series, w: Window)
      requires Follows(s)
      ensures Outcome(w) == s.Expansion(w)
    {
      hide AddDays, TmBefore, Walk.Candidate, Walk.Counted, Walk.Collected, Series.Rank, Series.Select, Series.Expansion;
      var h := FirstHalt(w, 0);
      InStep(s, w, h);
      CollectedBelowCap(w, h);
      if |Collected(w, h)| >= MAX_OCCURRENCES {
        s.FullExpansion(w, Position(h));
      } else {
        CandidateOrder(h, h);
        assert s.visit(Position(h)) == Candidate(h) by { assert AddDays(start, offset(h)) == Candidate(h) by { CandidateIs(h); } }
        s.StoppedExpansion(w, Position(h));
      }
    }

    /** Where every candidate is on display, the scan collects them in the order it meets them. */
    lemma {:induction false} CollectsInOrder(w: Window, c: nat)
      requires ValidTm(start) && w.from == start
      requires forall d: nat :: d < c ==> offset(d) >= 0
      ensures Counted(c) == c && |Collected(w, c)| == c
      ensures forall d: nat :: d < c ==> Collected(w, c)[d] == Candidate(d)
    {
      hide AddDays, TmBefore, Walk.Candidate;
      if c > 0 {
        CollectsInOrder(w, c - 1);
        CandidateOrder(c - 1, c - 1);
        TmBeforeIsTotalOrder(Candidate(c - 1), start, start);
      }
    }

    /** t is one of the first c candidates. */
    ghost predicate Among(t: Tm, c: nat)
      requires ValidTm(start)
    {
      exists d: nat :: d < c && t == Candidate(d)
    }

    /** Every result is a candidate, and candidates on different days give results on different days. */
    lemma {:induction false} CollectsApart(w: Window, c: nat)
      requires ValidTm(start) && forall d: nat, e: nat :: d < e ==> offset(d) != offset(e)
      ensures forall t :: t in Collected(w, c) ==> Among(t, c) && ValidTm(t)
      ensures DaysApart(Collected(w, c))
    {
      hide AddDays, TmBefore, TmBeforeOrEqual, DayOf, DaysInMonth, Walk.Kept, Walk.Candidate, Walk.Among, DaysApart;
      if c == 0 {
        NothingApart();
      } else {
        CollectsApart(w, c - 1);
        var front, last := Collected(w, c - 1), Candidate(c - 1);
        CandidateIs(c - 1);
        forall t | t in front ensures Among(t, c) && DayOf(t) != DayOf(last) {
          AmongEarlier(t, c - 1);
        }
        LastAmong(c);
        ApartPush(front, last);
        assert Collected(w, c) == front || Collected(w, c) == front + [last];
      }
    }

    lemma LastAmong(c: nat)
      requires ValidTm(start) && c > 0
      ensures Among(Candidate(c - 1), c)
    {
    }

    lemma AmongEarlier(t: Tm, c: nat)
      requires ValidTm(start) && Among(t, c) && forall d: nat, e: nat :: d < e ==> offset(d) != offset(e)
      ensures Among(t, c + 1) && ValidTm(t) && ValidTm(Candidate(c)) && DayOf(t) != DayOf(Candidate(c))
    {
      hide AddDays, DayOf, DaysInMonth;
      var d: nat :| d < c && t == Candidate(d);
      assert Candidate(d) == t;
      CandidateOrder(d, c);
      CandidateOrder(c, d);
    }

    lemma CandidateIs(c: nat)
      requires ValidTm(start)
      ensures Candidate(c) == AddDays(start, offset(c))
    {
    }
  }

  ghost predicate DaysApart(ts: seq<Tm>) {
    forall i, j :: 0 <= i < j < |ts| && ValidTm(ts[i]) && ValidTm(ts[j]) ==> DayOf(ts[i]) != DayOf(ts[j])
  }

  lemma NothingApart()
    ensures DaysApart([])
  {
  }

  lemma ApartPush(front: seq<Tm>, t: Tm)
    requires DaysApart(front) && ValidTm(t) && forall u :: u in front ==> ValidTm(u) && DayOf(u) != DayOf(t)
    ensures DaysApart(front + [t])
  {
    hide DayOf, DaysInMonth;
    var ts := front + [t];
    forall i, j | 0 <= i < j < |ts| && ValidTm(ts[i]) && ValidTm(ts[j]) ensures DayOf(ts[i]) != DayOf(ts[j]) {
      assert ts[i] in front;
    }
  }
}
