/** A recurring event seen from far: a strictly ascending series of base dates, a filter on it, and
    the cut-offs UNTIL, COUNT, the display window and the cap on results. */
module EventSeries {
  import opened Calendar
  import opened Options

  const MAX_OCCURRENCES := 1000

  // The display window [from, to).
  datatype Window = Window(from: Tm, to: Tm)
  {
    predicate Contains(t: Tm) {
      TmBeforeOrEqual(from, t) && TmBefore(t, to)
    }
  }

  datatype Series = Series(visit: nat -> Tm, listed: nat -> bool, until: Option<Tm>, count: Option<int>)
  {
    /** The base dates are valid and ascend by at least a day. */
    ghost predicate Ascends() {
      && (forall k: nat :: ValidTm(visit(k)))
      && (forall j: nat, k: nat :: j < k ==> DayOf(visit(j)) + (k - j) <= DayOf(visit(k)))
      && (forall j: nat, k: nat :: j < k ==> TmBefore(visit(j), visit(k)))
    }

    /** How many base dates before k are listed: COUNT is charged from dtstart. */
    function Rank(k: nat): nat {
      if k == 0 then 0 else Rank(k - 1) + if listed(k - 1) then 1 else 0
    }

    predicate PastUntil(t: Tm) {
      until.Some? && TmBefore(until.value, t)
    }

    predicate PastCount(rank: int) {
      count.Some? && rank >= count.value
    }

    /** Base date k is an occurrence: a property of the event alone, whatever is displayed. */
    predicate Occurs(k: nat) {
      listed(k) && !PastUntil(visit(k)) && !PastCount(Rank(k))
    }

    predicate Shows(w: Window, k: nat) {
      Occurs(k) && w.Contains(visit(k))
    }

    /** The occurrences among the first n base dates that fall in the window. */
    function Select(w: Window, n: nat): (ts: seq<Tm>)
      ensures |ts| <= n
    {
      if n == 0 then [] else Select(w, n - 1) + if Shows(w, n - 1) then [visit(n - 1)] else []
    }

    /** No base date from here on is before `end`. */
    ghost function Horizon(end: Tm): nat
      requires Ascends()
    {
      var days := YearStart(end.year + 1) - DayOf(visit(0));
      if days < 0 then 0 else days
    }

    /** The meaning of the series over a window. */
    ghost function Expansion(w: Window): (ts: seq<Tm>)
      requires Ascends()
      ensures |ts| <= MAX_OCCURRENCES
    {
      var all := Select(w, Horizon(w.to));
      if |all| <= MAX_OCCURRENCES then all else all[..MAX_OCCURRENCES]
    }

    /** Day numbers reach the horizon, so every later base date is outside the window. */
    lemma BeyondHorizon(end: Tm, k: nat)
      requires Ascends() && k >= Horizon(end)
      ensures !TmBefore(visit(k), end)
    {
      LateDayIsLater(visit(k), end);
    }

    // ---- Cutting the series short loses nothing ----

    lemma {:induction false} RankMonotone(j: nat, k: nat)
      requires Ascends() && j <= k
      ensures Rank(j) <= Rank(k)
      decreases k
    {
      if j < k {
        RankMonotone(j, k - 1);
      }
    }

    lemma {:induction false} SelectFrozen(w: Window, j: nat, n: nat)
      requires Ascends() && j <= n
      requires forall i: nat :: j <= i < n ==> !Shows(w, i)
      ensures Select(w, n) == Select(w, j)
      decreases n
    {
      if j < n {
        SelectFrozen(w, j, n - 1);
      }
    }

    lemma {:induction false} SelectPrefix(w: Window, j: nat, n: nat)
      requires Ascends() && j <= n
      ensures Select(w, j) <= Select(w, n)
      decreases n
    {
      if j < n {
        SelectPrefix(w, j, n - 1);
      }
    }

    /** The three reasons the loops have to stop early. */
    predicate Stops(w: Window, k: nat)
      requires Ascends()
    {
      PastUntil(visit(k)) || PastCount(Rank(k)) || !TmBefore(visit(k), w.to)
    }

    /** Once a date is past UNTIL, COUNT or the window's end, all later ones are too. */
    lemma StopIsFinal(w: Window, k: nat, i: nat)
      requires Ascends() && k <= i && Stops(w, k)
      ensures !Shows(w, i)
    {
      RankMonotone(k, i);
      if k < i {
        if PastUntil(visit(k)) {
          TmBeforeIsTotalOrder(until.value, visit(k), visit(i));
        }
        TmBeforeIsTotalOrder(visit(k), visit(i), w.to);
      }
    }

    /** Stopping at k leaves the whole expansion. */
    lemma StoppedExpansion(w: Window, k: nat)
      requires Ascends() && Stops(w, k) && |Select(w, k)| <= MAX_OCCURRENCES
      ensures Expansion(w) == Select(w, k)
    {
      var h := Horizon(w.to);
      if k <= h {
        forall i: nat | k <= i < h ensures !Shows(w, i) {
          StopIsFinal(w, k, i);
        }
        SelectFrozen(w, k, h);
      } else {
        SelectStable(w, k);
      }
    }

    /** Filling the cap at k leaves the whole expansion. */
    lemma FullExpansion(w: Window, k: nat)
      requires Ascends() && |Select(w, k)| == MAX_OCCURRENCES
      ensures Expansion(w) == Select(w, k)
    {
      var h := Horizon(w.to);
      if k <= h {
        SelectPrefix(w, k, h);
      } else {
        SelectStable(w, k);
      }
    }

    lemma SelectStable(w: Window, n: nat)
      requires Ascends() && n >= Horizon(w.to)
      ensures Select(w, n) == Select(w, Horizon(w.to))
    {
      var h := Horizon(w.to);
      forall i: nat | h <= i < n ensures !Shows(w, i) {
        BeyondHorizon(w.to, i);
      }
      SelectFrozen(w, h, n);
    }

    // ---- What an expansion holds ----

    /** Which base date stands at place i of a selection. */
    lemma {:induction false} SelectAt(w: Window, n: nat, i: nat) returns (k: nat)
      requires Ascends() && i < |Select(w, n)|
      ensures k < n && Shows(w, k) && visit(k) == Select(w, n)[i]
      ensures |Select(w, k)| == i
    {
      if i < |Select(w, n - 1)| {
        k := SelectAt(w, n - 1, i);
      } else {
        k := n - 1;
      }
    }

    lemma {:induction false} SelectHolds(w: Window, n: nat, k: nat)
      requires Ascends() && k < n && Shows(w, k)
      ensures visit(k) in Select(w, n)
    {
      if k < n - 1 {
        SelectHolds(w, n - 1, k);
      }
    }

    lemma SelectAscends(w: Window, n: nat, i: nat, j: nat)
      requires Ascends() && i < j < |Select(w, n)|
      ensures TmBefore(Select(w, n)[i], Select(w, n)[j])
      ensures ValidTm(Select(w, n)[i]) && ValidTm(Select(w, n)[j])
      ensures DayOf(Select(w, n)[i]) < DayOf(Select(w, n)[j])
    {
      hide Series.Select, TmBefore;
      var k := SelectAt(w, n, i);
      var l := SelectAt(w, n, j);
      if l <= k {
        SelectPrefix(w, l, k);
      }
      assert k < l;
      assert TmBefore(visit(k), visit(l)) && DayOf(visit(k)) + (l - k) <= DayOf(visit(l));
    }

    /** An expansion strictly ascends, and below the cap it holds exactly the occurrences in the window. */
    lemma ExpansionShows(w: Window)
      requires Ascends()
      ensures var ts := Expansion(w);
              && (forall i, j :: 0 <= i < j < |ts| ==> TmBefore(ts[i], ts[j]))
              && (forall t :: t in ts ==> exists k: nat :: Shows(w, k) && t == visit(k))
      ensures |Expansion(w)| < MAX_OCCURRENCES ==>
                forall k: nat :: Shows(w, k) ==> visit(k) in Expansion(w)
    {
      var h, ts := Horizon(w.to), Expansion(w);
      forall i, j | 0 <= i < j < |ts| ensures TmBefore(ts[i], ts[j]) {
        SelectAscends(w, h, i, j);
      }
      forall t | t in ts ensures exists k: nat :: Shows(w, k) && t == visit(k) {
        var i: nat :| i < |ts| && ts[i] == t;
        var k := SelectAt(w, h, i);
      }
      if |ts| < MAX_OCCURRENCES {
        forall k: nat | Shows(w, k) ensures visit(k) in ts {
          if k >= h {
            BeyondHorizon(w.to, k);
          } else {
            SelectHolds(w, h, k);
          }
        }
      }
    }

    /** What RFC 5545 asks of an occurrence in the window: it is listed, not after UNTIL, fewer than COUNT
        listed dates come before it, and it lies in [from, to). */
    ghost predicate Meant(w: Window, k: nat) {
      && listed(k)
      && (until.Some? ==> !TmBefore(until.value, visit(k)))
      && (count.Some? ==> |set j: nat | j < k && listed(j)| < count.value)
      && !TmBefore(visit(k), w.from)
      && TmBefore(visit(k), w.to)
    }

    lemma {:induction false} RankCounts(k: nat)
      ensures Rank(k) == |set j: nat | j < k && listed(j)|
    {
      if k > 0 {
        RankCounts(k - 1);
        var before, upTo := set j: nat | j < k - 1 && listed(j), set j: nat | j < k && listed(j);
        assert upTo == before + if listed(k - 1) then {k - 1} else {};
      } else {
        assert (set j: nat | j < 0 && listed(j)) == {};
      }
    }

    lemma ShowsIsMeant(w: Window, k: nat)
      ensures Shows(w, k) <==> Meant(w, k)
    {
      RankCounts(k);
      TmBeforeIsTotalOrder(w.from, visit(k), visit(k));
    }

    /** The expansion is those dates, ascending, or the first 1000 of them. */
    lemma ExpansionExact(w: Window)
      requires Ascends()
      ensures var ts := Expansion(w);
              && |ts| <= 1000
              && (forall i, j :: 0 <= i < j < |ts| ==> TmBefore(ts[i], ts[j]))
              && (forall t :: t in ts ==> exists k: nat :: Meant(w, k) && t == visit(k))
              && (forall k: nat :: Meant(w, k) ==> visit(k) in ts || (|ts| == 1000 && TmBefore(ts[999], visit(k))))
    {
      hide Series.Shows, Series.Meant, TmBefore, Series.Select;
      var h, ts := Horizon(w.to), Expansion(w);
      ExpansionShows(w);
      forall t | t in ts ensures exists k: nat :: Meant(w, k) && t == visit(k) {
        var k: nat :| Shows(w, k) && t == visit(k);
        ShowsIsMeant(w, k);
      }
      forall k: nat | Meant(w, k) ensures visit(k) in ts || (|ts| == 1000 && TmBefore(ts[999], visit(k))) {
        ShowsIsMeant(w, k);
        BeyondMeant(w, k);
        SelectHolds(w, h, k);
        var all := Select(w, h);
        var i :| 0 <= i < |all| && all[i] == visit(k);
        if i >= 1000 {
          SelectAscends(w, h, 999, i);
        }
      }
    }

    lemma BeyondMeant(w: Window, k: nat)
      requires Ascends() && Meant(w, k)
      ensures k < Horizon(w.to)
    {
      hide TmBefore;
      if k >= Horizon(w.to) {
        BeyondHorizon(w.to, k);
      }
    }

    /** COUNT bounds every expansion. */
    lemma {:induction false} SelectWithinCount(w: Window, n: nat)
      requires Ascends()
      ensures |Select(w, n)| <= Rank(n)
      ensures count.Some? && count.value >= 0 ==> |Select(w, n)| <= count.value
    {
      if n > 0 {
        SelectWithinCount(w, n - 1);
      }
    }

    // ---- Adjacent windows ----

    lemma {:induction false} SelectSplits(a: Tm, b: Tm, c: Tm, n: nat)
      requires Ascends() && TmBeforeOrEqual(a, b) && TmBeforeOrEqual(b, c)
      ensures Select(Window(a, c), n) == Select(Window(a, b), n) + Select(Window(b, c), n)
      ensures n > 0 && TmBefore(visit(n - 1), b) ==> Select(Window(b, c), n) == []
    {
      hide TmBefore;
      if n > 0 {
        SelectSplits(a, b, c, n - 1);
        var t := visit(n - 1);
        TmBeforeIsTotalOrder(a, b, t);
        TmBeforeIsTotalOrder(t, b, c);
        if n > 1 {
          TmBeforeIsTotalOrder(visit(n - 2), t, b);
        }
      }
    }

    lemma SelectToHorizon(w: Window, later: Tm)
      requires Ascends() && TmBeforeOrEqual(w.to, later)
      ensures Select(w, Horizon(later)) == Select(w, Horizon(w.to))
    {
      if w.to.year < later.year {
        YearStartMonotone(w.to.year, later.year);
        YearStartStep(later.year);
        SelectStable(w, Horizon(later));
      }
    }

    /** Expanding [a,c) is expanding [a,b) and then [b,c), exactly when the two together stay within
        the cap. */
    lemma RangeAdditivity(a: Tm, b: Tm, c: Tm)
      requires Ascends() && TmBeforeOrEqual(a, b) && TmBeforeOrEqual(b, c)
      ensures Expansion(Window(a, c)) == Expansion(Window(a, b)) + Expansion(Window(b, c))
         <==> |Expansion(Window(a, b))| + |Expansion(Window(b, c))| <= MAX_OCCURRENCES
    {
      SelectSplits(a, b, c, Horizon(c));
      SelectToHorizon(Window(a, b), c);
    }

    /** In particular whenever [a,c) is below the cap. */
    lemma RangeAdditivityBelowCap(a: Tm, b: Tm, c: Tm)
      requires Ascends() && TmBeforeOrEqual(a, b) && TmBeforeOrEqual(b, c)
      requires |Expansion(Window(a, c))| < MAX_OCCURRENCES
      ensures Expansion(Window(a, c)) == Expansion(Window(a, b)) + Expansion(Window(b, c))
    {
      SelectSplits(a, b, c, Horizon(c));
      SelectToHorizon(Window(a, b), c);
    }
  }
}
