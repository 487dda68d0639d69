/** parse_iso8601 and format_iso8601. */
module Iso8601 {
  import opened Calendar
  import opened Text

  const EPOCH_YEAR := 1970

  /** Fields are read at fixed offsets; what stands between them, and after them, is ignored. */
  function ParseIso(s: string): Tm {
    Tm(if |s| >= 10 then SafeStoi(s[0..4], EPOCH_YEAR) - 1900 else 0,
       if |s| >= 10 then SafeStoi(s[5..7], 1) - 1 else 0,
       if |s| >= 10 then SafeStoi(s[8..10], 1) else 0,
       if |s| >= 19 then SafeStoi(s[11..13], 0) else 0,
       if |s| >= 19 then SafeStoi(s[14..16], 0) else 0,
       if |s| >= 19 then SafeStoi(s[17..19], 0) else 0)
  }

  function ClockText(t: Tm): string {
    "T" + PrintfPadded(2, t.hour) + (":" + PrintfPadded(2, t.min) + (":" + PrintfPadded(2, t.sec) + "Z"))
  }

  function MonthText(t: Tm): string {
    "-" + PrintfPadded(2, t.mon + 1) + ("-" + PrintfPadded(2, t.mday) + ClockText(t))
  }

  /** "%04d-%02d-%02dT%02d:%02d:%02dZ". */
  function FormatIso(t: Tm): string {
    "" + PrintfPadded(4, t.year + 1900) + MonthText(t)
  }

  lemma TwoDigits(v: int)
    requires 0 <= v < 100
    ensures |PrintfPadded(2, v)| == 2
  {
    PaddedValue(2, v);
    assert Pow10(2) == 10 * Pow10(1) && Pow10(1) == 10 * Pow10(0);
  }

  lemma FourDigits(v: int)
    requires -999 <= v <= 9999
    ensures |PrintfPadded(4, v)| == 4
  {
    assert Pow10(4) == 10 * Pow10(3) && Pow10(3) == 10 * Pow10(2) && Pow10(2) == 10 * Pow10(1) && Pow10(1) == 10 * Pow10(0);
    PaddedValue(4, if v < 0 then 0 else v);
    PaddedValue(3, if v < 0 then -v else 0);
  }

  lemma ClockLayout(t: Tm)
    requires ValidTm(t)
    ensures var s := ClockText(t);
            |s| == 10 && s[1..3] == PrintfPadded(2, t.hour) && s[4..6] == PrintfPadded(2, t.min)
            && s[7..9] == PrintfPadded(2, t.sec)
  {
    hide PrintfPadded;
    TwoDigits(t.hour);
    TwoDigits(t.min);
    TwoDigits(t.sec);
  }

  lemma MonthLayout(t: Tm)
    requires ValidTm(t)
    ensures var s := MonthText(t);
            |s| == 16 && s[1..3] == PrintfPadded(2, t.mon + 1) && s[4..6] == PrintfPadded(2, t.mday)
            && s[6..] == ClockText(t)
  {
    hide PrintfPadded, ClockText;
    TwoDigits(t.mon + 1);
    TwoDigits(t.mday);
    ClockLayout(t);
    assert MonthText(t)[6..] == ClockText(t);
  }

  lemma FormatLayout(t: Tm)
    requires ValidTm(t) && -999 <= t.year + 1900 <= 9999
    ensures var s := FormatIso(t);
            && |s| == 20
            && s[0..4] == PrintfPadded(4, t.year + 1900) && s[5..7] == PrintfPadded(2, t.mon + 1)
            && s[8..10] == PrintfPadded(2, t.mday) && s[11..13] == PrintfPadded(2, t.hour)
            && s[14..16] == PrintfPadded(2, t.min) && s[17..19] == PrintfPadded(2, t.sec)
  {
    hide PrintfPadded, MonthText, ClockText, DaysInMonth;
    var s := FormatIso(t);
    FourDigits(t.year + 1900);
    MonthLayout(t);
    ClockLayout(t);
    assert s[4..] == MonthText(t);
    assert s[10..] == MonthText(t)[6..];
    assert s[5..7] == s[4..][1..3] && s[8..10] == s[4..][4..6];
    assert s[11..13] == s[10..][1..3] && s[14..16] == s[10..][4..6] && s[17..19] == s[10..][7..9];
  }

  /** A year read from four characters is within -999..9999. */
  lemma FourCharsBound(s: string)
    requires |s| == 4
    ensures -999 <= SafeStoi(s, EPOCH_YEAR) <= 9999
  {
    if IsInteger(s) {
      if s[0] == '-' {
        DigitsBound(s[1..]);
      } else {
        DigitsBound(s);
      }
      assert Pow10(4) == 10 * Pow10(3) && Pow10(3) == 10 * Pow10(2) && Pow10(2) == 10 * Pow10(1) && Pow10(1) == 10 * Pow10(0);
    }
  }

  lemma {:induction false} DigitsBound(s: string)
    requires AllDigits(s)
    ensures DigitsValue(s) < Pow10(|s|)
  {
    if s != [] {
      DigitsBound(s[..|s| - 1]);
    }
  }

  lemma FormatReads(t: Tm)
    requires ValidTm(t) && -999 <= t.year + 1900 <= 9999
    ensures ParseIso(FormatIso(t)) == t
  {
    hide SafeStoi, PrintfPadded, FormatIso;
    FormatLayout(t);
    FieldReads(4, t.year + 1900, EPOCH_YEAR);
    FieldReads(2, t.mon + 1, 1);
    FieldReads(2, t.mday, 1);
    FieldReads(2, t.hour, 0);
    FieldReads(2, t.min, 0);
    FieldReads(2, t.sec, 0);
  }

  lemma FieldReads(width: nat, v: int, fallback: int)
    requires -999 <= v <= 9999
    ensures SafeStoi(PrintfPadded(width, v), fallback) == v
  {
    SafeStoiPrintf(width, v, fallback);
  }

  lemma LongYearIsLost(t: Tm)
    requires ValidTm(t) && !(-999 <= t.year + 1900 <= 9999)
    ensures ParseIso(FormatIso(t)) != t
  {
    hide SafeStoi, PrintfPadded;
    var s := FormatIso(t);
    LongEnough(t);
    FourCharsBound(s[0..4]);
  }

  lemma LongEnough(t: Tm)
    requires ValidTm(t)
    ensures |FormatIso(t)| >= 10
  {
    hide PrintfPadded, ClockText;
    MonthLayout(t);
  }

  /** The text form restores all six fields of a valid time exactly when its year has at most four
      characters. */
  lemma FormatParseRoundTrip(t: Tm)
    requires ValidTm(t)
    ensures ParseIso(FormatIso(t)) == t <==> -999 <= t.year + 1900 <= 9999
  {
    hide ParseIso, FormatIso;
    if -999 <= t.year + 1900 <= 9999 {
      FormatReads(t);
    } else {
      LongYearIsLost(t);
    }
  }

  // ---- Text order is time order ----

  predicate FourDigitYear(t: Tm) {
    0 <= t.year + 1900 <= 9999
  }

  lemma FieldOrder(width: nat, sep: string, m: int, n: int, x: string, y: string)
    requires (width == 2 && 0 <= m < 100 && 0 <= n < 100) || (width == 4 && 0 <= m < 10000 && 0 <= n < 10000)
    ensures LexBefore(sep + PrintfPadded(width, m) + x, sep + PrintfPadded(width, n) + y)
       <==> m < n || (m == n && LexBefore(x, y))
  {
    assert Pow10(4) == 10 * Pow10(3) && Pow10(3) == 10 * Pow10(2) && Pow10(2) == 10 * Pow10(1) && Pow10(1) == 10 * Pow10(0);
    PaddedValue(width, m);
    PaddedValue(width, n);
    PaddedOrder(width, m, n);
    var a, b := Padded(width, m), Padded(width, n);
    LexAppend(sep, sep, a + x, b + y);
    LexIrreflexive(sep);
    assert sep + a + x == sep + (a + x) && sep + b + y == sep + (b + y);
    LexAppend(a, b, x, y);
  }

  lemma LexIrreflexive(s: string)
    ensures !LexBefore(s, s)
  {
  }

  lemma ClockOrder(a: Tm, b: Tm)
    requires ValidTm(a) && ValidTm(b)
    ensures LexBefore(ClockText(a), ClockText(b))
       <==> if a.hour != b.hour then a.hour < b.hour else if a.min != b.min then a.min < b.min else a.sec < b.sec
  {
    var sa, sb := ":" + PrintfPadded(2, a.sec) + "Z", ":" + PrintfPadded(2, b.sec) + "Z";
    LexIrreflexive("Z");
    FieldOrder(2, ":", a.sec, b.sec, "Z", "Z");
    FieldOrder(2, ":", a.min, b.min, sa, sb);
    FieldOrder(2, "T", a.hour, b.hour, ":" + PrintfPadded(2, a.min) + sa, ":" + PrintfPadded(2, b.min) + sb);
  }

  lemma MonthOrder(a: Tm, b: Tm)
    requires ValidTm(a) && ValidTm(b)
    ensures LexBefore(MonthText(a), MonthText(b))
       <==> if a.mon != b.mon then a.mon < b.mon else if a.mday != b.mday then a.mday < b.mday
            else LexBefore(ClockText(a), ClockText(b))
  {
    FieldOrder(2, "-", a.mday, b.mday, ClockText(a), ClockText(b));
    FieldOrder(2, "-", a.mon + 1, b.mon + 1, "-" + PrintfPadded(2, a.mday) + ClockText(a), "-" + PrintfPadded(2, b.mday) + ClockText(b));
  }

  /** Sorting the text sorts the instants. */
  lemma TextOrderIsTimeOrder(a: Tm, b: Tm)
    requires ValidTm(a) && ValidTm(b) && FourDigitYear(a) && FourDigitYear(b)
    ensures LexBefore(FormatIso(a), FormatIso(b)) <==> TmBefore(a, b)
  {
    ClockOrder(a, b);
    MonthOrder(a, b);
    FieldOrder(4, "", a.year + 1900, b.year + 1900, MonthText(a), MonthText(b));
  }

  // ---- The form is that of ISO 8601 ----

  lemma FormatExample()
    ensures FormatIso(Tm(126, 2, 15, 9, 5, 30)) == "2026-03-15T09:05:30Z"
  {
    hide PrintfPadded, MonthText;
    YearDigits();
    MonthExample();
  }

  lemma MonthExample()
    ensures MonthText(Tm(126, 2, 15, 9, 5, 30)) == "-03-15T09:05:30Z"
  {
    hide PrintfPadded, ClockText;
    PairOfDigits(3, "03");
    PairOfDigits(15, "15");
    ClockExample();
  }

  lemma ClockExample()
    ensures ClockText(Tm(126, 2, 15, 9, 5, 30)) == "T09:05:30Z"
  {
    hide PrintfPadded;
    PairOfDigits(9, "09");
    PairOfDigits(5, "05");
    PairOfDigits(30, "30");
  }

  lemma PairOfDigits(v: nat, text: string)
    requires v < 100 && |text| == 2 && AllDigits(text)
    requires text[0] as int - '0' as int == v / 10 && text[1] as int - '0' as int == v % 10
    ensures PrintfPadded(2, v) == text
  {
    assert Padded(1, v / 10) == [DigitChar(v / 10)];
  }

  lemma YearDigits()
    ensures PrintfPadded(4, 2026) == "2026"
  {
    assert Padded(1, 2) == "2";
    assert Padded(2, 20) == "20";
    assert Padded(3, 202) == "202";
  }

  /** A text with the fields at the same places reads the same, whatever stands between and behind them; a
      date alone is the start of its day. */
  lemma OtherFormsRead(t: Tm, s: string)
    requires ValidTm(t) && FourDigitYear(t) && |s| >= 10
    requires var text := FormatIso(t);
             && |text| == 20 && s[0..4] == text[0..4] && s[5..7] == text[5..7] && s[8..10] == text[8..10]
             && (|s| >= 19 ==> s[11..13] == text[11..13] && s[14..16] == text[14..16] && s[17..19] == text[17..19])
    ensures ParseIso(s) == if |s| >= 19 then t else t.(hour := 0, min := 0, sec := 0)
  {
    hide FormatIso, DaysInMonth;
    FormatParseRoundTrip(t);
    hide SafeStoi;
  }
}
