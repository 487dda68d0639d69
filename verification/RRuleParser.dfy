/** parse_rrule: RRULE text to a rule, for every string; and the text that each rule is read back from. */
module RRuleParser {
  import opened Calendar
  import opened Iso8601
  import opened Options
  import opened Recurrence
  import opened Text

  // ---- std::string and split helpers ----

  /** std::string::find of one character; the length when there is none. */
  function IndexOf(s: string, c: char): (i: nat)
    ensures i <= |s| && c !in s[..i] && (i < |s| ==> s[i] == c)
  {
    if s == [] || s[0] == c then 0 else
      var i := 1 + IndexOf(s[1..], c);
      assert s[..i] == [s[0]] + s[1..][..i - 1];
      i
  }

  /** The non-empty pieces between delimiters. */
  function Split(s: string, delim: char): (parts: seq<string>)
    decreases |s|
  {
    if s == [] then []
    else
      var i := IndexOf(s, delim);
      (if i == 0 then [] else [s[..i]]) + if i < |s| then Split(s[i + 1..], delim) else []
  }

  lemma SplitStep(s: string, delim: char)
    requires s != []
    ensures var i := IndexOf(s, delim);
            Split(s, delim) == (if i == 0 then [] else [s[..i]]) + Split(if i < |s| then s[i + 1..] else [], delim)
  {
    hide IndexOf;
  }

  method ComputeSplit(s: string, delim: char) returns (parts: seq<string>)
    ensures parts == Split(s, delim)
  {
    hide IndexOf, Split;
    parts := [];
    var rest := s;
    while rest != []
      invariant parts + Split(rest, delim) == Split(s, delim)
      decreases |rest|
    {
      SplitStep(rest, delim);
      var i := IndexOf(rest, delim);
      ghost var done, piece := parts, if i == 0 then [] else [rest[..i]];
      if i != 0 {
        parts := parts + [rest[..i]];
      }
      rest := if i < |rest| then rest[i + 1..] else [];
      Regroup(done, piece, Split(rest, delim));
      assert parts == done + piece;
    }
    EmptySplit(delim);
  }

  lemma Regroup(a: seq<string>, b: seq<string>, c: seq<string>)
    ensures a + b + c == a + (b + c)
  {
  }

  lemma EmptySplit(delim: char)
    ensures Split([], delim) == []
  {
  }

  // ---- One KEY=VALUE part ----

  function FreqOf(val: string, current: Freq): Freq {
    if val == "DAILY" then Daily
    else if val == "WEEKLY" then Weekly
    else if val == "MONTHLY" then Monthly
    else if val == "YEARLY" then Yearly
    else current
  }

  /** parse_weekday: an unknown two-letter name is a Monday. */
  function WeekdayNamed(s: string): Weekday {
    if s == "SU" then 0
    else if s == "MO" then 1
    else if s == "TU" then 2
    else if s == "WE" then 3
    else if s == "TH" then 4
    else if s == "FR" then 5
    else if s == "SA" then 6
    else 1
  }

  /** UNTIL in basic form, rewritten to the extended form that parse_iso8601 reads; a date alone means
      the end of that day. */
  function NormalizedUntil(val: string): string
    requires |val| >= 8
  {
    val[0..4] + "-" + val[4..6] + "-" + val[6..8]
    + if |val| >= 15 then "T" + val[9..11] + ":" + val[11..13] + ":" + val[13..15] + "Z" else "T23:59:59Z"
  }

  /** The day name behind an optional ordinal such as the 2 of 2MO. */
  function StripOrdinal(s: string): string {
    if s != [] && (s[0] == '-' || IsDigit(s[0])) then StripOrdinal(s[1..]) else s
  }

  function DaysNamed(names: seq<string>): seq<Weekday> {
    if names == [] then []
    else
      var day := StripOrdinal(names[|names| - 1]);
      DaysNamed(names[..|names| - 1]) + if |day| == 2 then [WeekdayNamed(day)] else []
  }

  function MonthDaysNamed(nums: seq<string>): seq<int> {
    if nums == [] then []
    else
      var d := SafeStoi(nums[|nums| - 1], 0);
      MonthDaysNamed(nums[..|nums| - 1]) + if d != 0 then [d] else []
  }

  function MonthsNamed(nums: seq<string>): seq<int> {
    if nums == [] then []
    else
      var m := SafeStoi(nums[|nums| - 1], 0);
      MonthsNamed(nums[..|nums| - 1]) + if 1 <= m <= 12 then [m] else []
  }

  function WithValue(rule: RRule, key: string, val: string): RRule {
    if key == "FREQ" then rule.(freq := FreqOf(val, rule.freq))
    else if key == "INTERVAL" then
      var n := SafeStoi(val, 1);
      rule.(interval := if n < 1 then 1 else n)
    else if key == "COUNT" then
      var n := SafeStoi(val, -1);
      if n >= 0 then rule.(count := Some(n)) else rule
    else if key == "UNTIL" then
      if |val| >= 8 then rule.(until := Some(ParseIso(NormalizedUntil(val)))) else rule
    else if key == "BYDAY" then rule.(byDay := rule.byDay + DaysNamed(Split(val, ',')))
    else if key == "BYMONTHDAY" then rule.(byMonthDay := rule.byMonthDay + MonthDaysNamed(Split(val, ',')))
    else if key == "BYMONTH" then rule.(byMonth := rule.byMonth + MonthsNamed(Split(val, ',')))
    else rule
  }

  function WithPart(rule: RRule, part: string): RRule {
    var eq := IndexOf(part, '=');
    if eq == |part| then rule else WithValue(rule, part[..eq], part[eq + 1..])
  }

  function WithParts(rule: RRule, parts: seq<string>): RRule {
    if parts == [] then rule else WithPart(WithParts(rule, parts[..|parts| - 1]), parts[|parts| - 1])
  }

  const DEFAULT_RULE := RRule(Weekly, 1, None, None, [], [], [])

  const PREFIX := "RRULE:"

  function StripPrefix(s: string): string {
    if PREFIX <= s then s[|PREFIX|..] else s
  }

  function Parsed(text: string): RRule {
    WithParts(DEFAULT_RULE, Split(StripPrefix(text), ';'))
  }

  // ---- The loops ----

  method ParseRRule(text: string) returns (rule: RRule)
    ensures rule == Parsed(text)
    ensures rule.WellFormed()
  {
    hide Split, WithValue, StripPrefix;
    rule := DEFAULT_RULE;
    var s := StripPrefix(text);
    var parts := ComputeSplit(s, ';');
    for i := 0 to |parts|
      invariant rule == WithParts(DEFAULT_RULE, parts[..i])
      invariant rule.WellFormed()
    {
      var part := parts[i];
      assert parts[..i + 1][..i] == parts[..i];
      var eq := IndexOf(part, '=');
      if eq == |part| {
        continue;
      }
      ghost var was := rule;
      rule := SetValue(rule, part[..eq], part[eq + 1..]);
      WellFormedKept(was, part[..eq], part[eq + 1..]);
    }
    assert parts[..|parts|] == parts;
  }

  method SetValue(rule: RRule, key: string, val: string) returns (r: RRule)
    ensures r == WithValue(rule, key, val)
  {
    hide Split, NormalizedUntil, ParseIso, SafeStoi, WeekdayNamed;
    r := rule;
    if key == "BYDAY" {
      var days := ComputeSplit(val, ',');
      for i := 0 to |days|
        invariant r == rule.(byDay := rule.byDay + DaysNamed(days[..i]))
      {
        var dayStr := days[i];
        while dayStr != [] && (dayStr[0] == '-' || IsDigit(dayStr[0]))
          invariant StripOrdinal(dayStr) == StripOrdinal(days[i])
          decreases |dayStr|
        {
          dayStr := dayStr[1..];
        }
        assert days[..i + 1][..i] == days[..i];
        if |dayStr| == 2 {
          r := r.(byDay := r.byDay + [WeekdayNamed(dayStr)]);
        }
      }
      assert days[..|days|] == days;
    } else if key == "BYMONTHDAY" {
      var nums := ComputeSplit(val, ',');
      for i := 0 to |nums|
        invariant r == rule.(byMonthDay := rule.byMonthDay + MonthDaysNamed(nums[..i]))
      {
        var d := SafeStoi(nums[i], 0);
        assert nums[..i + 1][..i] == nums[..i];
        if d != 0 {
          r := r.(byMonthDay := r.byMonthDay + [d]);
        }
      }
      assert nums[..|nums|] == nums;
    } else if key == "BYMONTH" {
      var nums := ComputeSplit(val, ',');
      for i := 0 to |nums|
        invariant r == rule.(byMonth := rule.byMonth + MonthsNamed(nums[..i]))
      {
        var m := SafeStoi(nums[i], 0);
        assert nums[..i + 1][..i] == nums[..i];
        if 1 <= m <= 12 {
          r := r.(byMonth := r.byMonth + [m]);
        }
      }
      assert nums[..|nums|] == nums;
    } else {
      r := WithValue(rule, key, val);
    }
  }

  // ---- Every text gives a usable rule ----

  lemma {:induction false} MonthsInRange(nums: seq<string>)
    ensures forall i :: 0 <= i < |MonthsNamed(nums)| ==> 1 <= MonthsNamed(nums)[i] <= 12
  {
    if nums != [] {
      MonthsInRange(nums[..|nums| - 1]);
    }
  }

  lemma {:induction false} MonthDaysNonZero(nums: seq<string>)
    ensures forall i :: 0 <= i < |MonthDaysNamed(nums)| ==> MonthDaysNamed(nums)[i] != 0
  {
    if nums != [] {
      MonthDaysNonZero(nums[..|nums| - 1]);
    }
  }

  lemma WellFormedKept(rule: RRule, key: string, val: string)
    requires rule.WellFormed()
    ensures WithValue(rule, key, val).WellFormed()
  {
    hide Split, NormalizedUntil, ParseIso, SafeStoi, DaysNamed, MonthsNamed, MonthDaysNamed;
    MonthsInRange(Split(val, ','));
    MonthDaysNonZero(Split(val, ','));
  }

  lemma {:induction false} PartsWellFormed(rule: RRule, parts: seq<string>)
    requires rule.WellFormed()
    ensures WithParts(rule, parts).WellFormed()
  {
    hide WithValue, RRule.WellFormed;
    if parts != [] {
      var part := parts[|parts| - 1];
      var eq := IndexOf(part, '=');
      PartsWellFormed(rule, parts[..|parts| - 1]);
      if eq < |part| {
        WellFormedKept(WithParts(rule, parts[..|parts| - 1]), part[..eq], part[eq + 1..]);
      }
    }
  }

  /** Whatever the text, the interval is at least 1, the count is not negative, months are in 1..12 and
      month days are not zero. */
  lemma ParsedWellFormed(text: string)
    ensures Parsed(text).WellFormed()
  {
    hide WithParts, Split;
    PartsWellFormed(DEFAULT_RULE, Split(StripPrefix(text), ';'));
  }

  // ---- Reading back a written rule ----

  function Joined(parts: seq<string>, delim: char): string {
    if parts == [] then "" else if |parts| == 1 then parts[0] else parts[0] + [delim] + Joined(parts[1..], delim)
  }

  lemma {:induction false} IndexOfBehind(a: string, c: char, b: string)
    requires c !in a
    ensures IndexOf(a + [c] + b, c) == |a|
  {
    if a == [] {
      assert a + [c] + b == [c] + b;
    } else {
      assert (a + [c] + b)[1..] == a[1..] + [c] + b;
      IndexOfBehind(a[1..], c, b);
    }
  }

  lemma {:induction false} IndexOfAbsent(a: string, c: char)
    requires c !in a
    ensures IndexOf(a, c) == |a|
  {
    if a != [] {
      IndexOfAbsent(a[1..], c);
    }
  }

  ghost predicate Pieces(parts: seq<string>, delim: char) {
    forall i :: 0 <= i < |parts| ==> parts[i] != [] && delim !in parts[i]
  }

  lemma {:induction false} SplitJoined(parts: seq<string>, delim: char)
    requires Pieces(parts, delim)
    ensures Split(Joined(parts, delim), delim) == parts
  {
    if |parts| == 1 {
      IndexOfAbsent(parts[0], delim);
      assert parts[0][..|parts[0]|] == parts[0];
    } else if |parts| > 1 {
      var rest := Joined(parts[1..], delim);
      IndexOfBehind(parts[0], delim, rest);
      var s := parts[0] + [delim] + rest;
      assert s[..|parts[0]|] == parts[0] && s[|parts[0]| + 1..] == rest;
      SplitJoined(parts[1..], delim);
      assert parts == [parts[0]] + parts[1..];
    }
  }

  lemma {:induction false} JoinedLetters(parts: seq<string>, delim: char, c: char)
    requires c != delim && forall i :: 0 <= i < |parts| ==> c !in parts[i]
    ensures c !in Joined(parts, delim)
  {
    if |parts| > 1 {
      JoinedLetters(parts[1..], delim, c);
    }
  }

  function KeyValue(key: string, val: string): string {
    key + ['='] + val
  }

  function FreqName(freq: Freq): string {
    match freq
    case Daily => "DAILY"
    case Weekly => "WEEKLY"
    case Monthly => "MONTHLY"
    case Yearly => "YEARLY"
  }

  function WeekdayName(day: Weekday): (s: string)
    ensures |s| == 2
  {
    ["SU", "MO", "TU", "WE", "TH", "FR", "SA"][day]
  }

  function Names(days: seq<Weekday>): (names: seq<string>)
    ensures |names| == |days|
  {
    seq(|days|, i requires 0 <= i < |days| => WeekdayName(days[i]))
  }

  function Numbers(nums: seq<int>): (texts: seq<string>)
    ensures |texts| == |nums|
  {
    seq(|nums|, i requires 0 <= i < |nums| => ToString(nums[i]))
  }

  /** The basic form of a date and time: YYYYMMDDTHHMMSSZ. */
  function BasicForm(t: Tm): string {
    PrintfPadded(4, t.year + 1900) + PrintfPadded(2, t.mon + 1) + PrintfPadded(2, t.mday) + "T"
    + PrintfPadded(2, t.hour) + PrintfPadded(2, t.min) + PrintfPadded(2, t.sec) + "Z"
  }

  /** The rule written as RRULE parts; unset parts are left out. */
  function Parts(rule: RRule): seq<string> {
    [KeyValue("FREQ", FreqName(rule.freq)), KeyValue("INTERVAL", ToString(rule.interval))]
    + (if rule.count.Some? then [KeyValue("COUNT", ToString(rule.count.value))] else [])
    + (if rule.until.Some? then [KeyValue("UNTIL", BasicForm(rule.until.value))] else [])
    + (if rule.byDay != [] then [KeyValue("BYDAY", Joined(Names(rule.byDay), ','))] else [])
    + (if rule.byMonthDay != [] then [KeyValue("BYMONTHDAY", Joined(Numbers(rule.byMonthDay), ','))] else [])
    + (if rule.byMonth != [] then [KeyValue("BYMONTH", Joined(Numbers(rule.byMonth), ','))] else [])
  }

  function Written(rule: RRule): string {
    Joined(Parts(rule), ';')
  }

  /** Rules whose numbers fit an int and whose UNTIL is a date with a four-digit year. */
  predicate Writable(rule: RRule) {
    && rule.WellFormed()
    && rule.interval <= INT_MAX
    && (rule.count.Some? ==> rule.count.value <= INT_MAX)
    && (rule.until.Some? ==> ValidTm(rule.until.value) && FourDigitYear(rule.until.value))
    && (forall i :: 0 <= i < |rule.byMonthDay| ==> INT_MIN <= rule.byMonthDay[i] <= INT_MAX)
  }

  lemma WithKeyValue(rule: RRule, key: string, val: string)
    requires '=' !in key
    ensures WithPart(rule, KeyValue(key, val)) == WithValue(rule, key, val)
  {
    hide WithValue;
    IndexOfBehind(key, '=', val);
    var part := KeyValue(key, val);
    assert part[..|key|] == key && part[|key| + 1..] == val;
  }

  lemma {:induction false} WithAppended(rule: RRule, a: seq<string>, b: seq<string>)
    ensures WithParts(rule, a + b) == WithParts(WithParts(rule, a), b)
  {
    hide WithPart;
    if b == [] {
      assert a + b == a;
    } else {
      WithAppended(rule, a, b[..|b| - 1]);
      assert (a + b)[..|a + b| - 1] == a + b[..|b| - 1];
    }
  }

  lemma WithOne(rule: RRule, part: string)
    ensures WithParts(rule, [part]) == WithPart(rule, part)
  {
    hide WithPart;
    assert [part][..0] == [];
  }

  // -- values --

  lemma NumberText(n: int)
    ensures forall i :: 0 <= i < |ToString(n)| ==> ToString(n)[i] == '-' || IsDigit(ToString(n)[i])
    ensures ToString(n) != []
  {
  }

  lemma {:induction false} NumbersReadBack(nums: seq<int>)
    requires forall i :: 0 <= i < |nums| ==> INT_MIN <= nums[i] <= INT_MAX
    ensures (forall i :: 0 <= i < |nums| ==> nums[i] != 0) ==> MonthDaysNamed(Numbers(nums)) == nums
    ensures (forall i :: 0 <= i < |nums| ==> 1 <= nums[i] <= 12) ==> MonthsNamed(Numbers(nums)) == nums
  {
    hide SafeStoi, ToString;
    if nums != [] {
      var front := nums[..|nums| - 1];
      NumbersReadBack(front);
      assert Numbers(nums)[..|nums| - 1] == Numbers(front);
      ReadNumber(nums[|nums| - 1]);
      assert nums == front + [nums[|nums| - 1]];
    }
  }

  lemma ReadNumber(n: int)
    requires INT_MIN <= n <= INT_MAX
    ensures SafeStoi(ToString(n), 0) == n && SafeStoi(ToString(n), 1) == n && SafeStoi(ToString(n), -1) == n
  {
    SafeStoiPrintf(0, n, 0);
    SafeStoiPrintf(0, n, 1);
    SafeStoiPrintf(0, n, -1);
  }

  lemma DayReadBack(day: Weekday)
    ensures StripOrdinal(WeekdayName(day)) == WeekdayName(day) && WeekdayNamed(WeekdayName(day)) == day
  {
  }

  lemma {:induction false} DaysReadBack(days: seq<Weekday>)
    ensures DaysNamed(Names(days)) == days
  {
    hide WeekdayName, StripOrdinal, WeekdayNamed;
    if days != [] {
      var front := days[..|days| - 1];
      DaysReadBack(front);
      assert Names(days)[..|days| - 1] == Names(front);
      DayReadBack(days[|days| - 1]);
      assert days == front + [days[|days| - 1]];
    }
  }

  lemma NumbersArePieces(nums: seq<int>, delim: char)
    requires delim != '-' && !IsDigit(delim)
    ensures Pieces(Numbers(nums), delim)
  {
    hide ToString;
    forall i | 0 <= i < |nums| ensures ToString(nums[i]) != [] && delim !in ToString(nums[i]) {
      NumberText(nums[i]);
    }
  }

  lemma NamesArePieces(days: seq<Weekday>, delim: char)
    requires delim == ',' || delim == ';'
    ensures Pieces(Names(days), delim)
  {
    forall i | 0 <= i < |days| ensures delim !in WeekdayName(days[i]) {
      assert delim !in "SUMOTUWETHFRSA";
    }
  }

  lemma BasicFormReads(t: Tm)
    requires ValidTm(t) && FourDigitYear(t)
    ensures |BasicForm(t)| == 16 && NormalizedUntil(BasicForm(t)) == FormatIso(t)
    ensures ';' !in BasicForm(t)
  {
    hide PrintfPadded;
    var y, m, d, h, i, s := PrintfPadded(4, t.year + 1900), PrintfPadded(2, t.mon + 1), PrintfPadded(2, t.mday),
      PrintfPadded(2, t.hour), PrintfPadded(2, t.min), PrintfPadded(2, t.sec);
    FourDigits(t.year + 1900);
    TwoDigits(t.mon + 1);
    TwoDigits(t.mday);
    TwoDigits(t.hour);
    TwoDigits(t.min);
    TwoDigits(t.sec);
    PlainDigits(4, t.year + 1900);
    PlainDigits(2, t.mon + 1);
    PlainDigits(2, t.mday);
    PlainDigits(2, t.hour);
    PlainDigits(2, t.min);
    PlainDigits(2, t.sec);
    BasicFormSlices(y, m, d, h, i, s);
  }

  lemma PlainDigits(width: nat, v: int)
    ensures ';' !in PrintfPadded(width, v)
  {
  }

  lemma BasicFormSlices(y: string, m: string, d: string, h: string, i: string, s: string)
    requires |y| == 4 && |m| == 2 && |d| == 2 && |h| == 2 && |i| == 2 && |s| == 2
    ensures var v := y + m + d + "T" + h + i + s + "Z";
            && |v| == 16
            && NormalizedUntil(v) == "" + y + ("-" + m + ("-" + d + ("T" + h + (":" + i + (":" + s + "Z")))))
  {
    var v := y + m + d + "T" + h + i + s + "Z";
    assert v[0..4] == y && v[4..6] == m && v[6..8] == d;
    assert v[9..11] == h && v[11..13] == i && v[13..15] == s;
  }

  // -- the whole text --

  lemma OnePiece(key: string, val: string, delim: char)
    requires delim !in key && delim !in val && delim != '='
    ensures Pieces([KeyValue(key, val)], delim)
  {
  }

  lemma PiecesAppended(a: seq<string>, b: seq<string>, delim: char)
    ensures Pieces(a, delim) && Pieces(b, delim) ==> Pieces(a + b, delim)
  {
  }

  lemma PartsArePieces(rule: RRule)
    requires Writable(rule)
    ensures Pieces(Parts(rule), ';')
  {
    hide ToString, BasicForm, Names, Numbers, RRule.WellFormed, FourDigitYear, ValidTm, KeyValue, Pieces, Joined;
    var head := [KeyValue("FREQ", FreqName(rule.freq)), KeyValue("INTERVAL", ToString(rule.interval))];
    var count := if rule.count.Some? then [KeyValue("COUNT", ToString(rule.count.value))] else [];
    var until := if rule.until.Some? then [KeyValue("UNTIL", BasicForm(rule.until.value))] else [];
    var days := if rule.byDay != [] then [KeyValue("BYDAY", Joined(Names(rule.byDay), ','))] else [];
    var monthDays := if rule.byMonthDay != [] then [KeyValue("BYMONTHDAY", Joined(Numbers(rule.byMonthDay), ','))] else [];
    var months := if rule.byMonth != [] then [KeyValue("BYMONTH", Joined(Numbers(rule.byMonth), ','))] else [];
    HeadPieces(rule);
    LimitPieces(rule);
    ListPieces(rule);
    assert Parts(rule) == head + count + until + days + monthDays + months;
    PiecesAppended(head, count, ';');
    PiecesAppended(head + count, until, ';');
    PiecesAppended(head + count + until, days, ';');
    PiecesAppended(head + count + until + days, monthDays, ';');
    PiecesAppended(head + count + until + days + monthDays, months, ';');
  }

  lemma HeadPieces(rule: RRule)
    ensures Pieces([KeyValue("FREQ", FreqName(rule.freq)), KeyValue("INTERVAL", ToString(rule.interval))], ';')
  {
    hide ToString, KeyValue, Pieces;
    NumberText(rule.interval);
    OnePiece("FREQ", FreqName(rule.freq), ';');
    OnePiece("INTERVAL", ToString(rule.interval), ';');
    var first, second := KeyValue("FREQ", FreqName(rule.freq)), KeyValue("INTERVAL", ToString(rule.interval));
    PiecesAppended([first], [second], ';');
    assert [first] + [second] == [first, second];
  }

  lemma NoPieces(delim: char)
    ensures Pieces([], delim)
  {
  }

  lemma LimitPieces(rule: RRule)
    requires Writable(rule)
    ensures Pieces(if rule.count.Some? then [KeyValue("COUNT", ToString(rule.count.value))] else [], ';')
    ensures Pieces(if rule.until.Some? then [KeyValue("UNTIL", BasicForm(rule.until.value))] else [], ';')
  {
    hide ToString, BasicForm, RRule.WellFormed, FourDigitYear, ValidTm, KeyValue, Pieces;
    NoPieces(';');
    if rule.count.Some? {
      NumberText(rule.count.value);
      OnePiece("COUNT", ToString(rule.count.value), ';');
    }
    if rule.until.Some? {
      BasicFormReads(rule.until.value);
      OnePiece("UNTIL", BasicForm(rule.until.value), ';');
    }
  }

  lemma ListPieces(rule: RRule)
    ensures Pieces(if rule.byDay != [] then [KeyValue("BYDAY", Joined(Names(rule.byDay), ','))] else [], ';')
    ensures Pieces(if rule.byMonthDay != [] then [KeyValue("BYMONTHDAY", Joined(Numbers(rule.byMonthDay), ','))] else [], ';')
    ensures Pieces(if rule.byMonth != [] then [KeyValue("BYMONTH", Joined(Numbers(rule.byMonth), ','))] else [], ';')
  {
    hide ToString, Names, Numbers, KeyValue, Joined;
    NamesArePieces(rule.byDay, ';');
    JoinedLetters(Names(rule.byDay), ',', ';');
    OnePiece("BYDAY", Joined(Names(rule.byDay), ','), ';');
    NumbersArePieces(rule.byMonthDay, ';');
    JoinedLetters(Numbers(rule.byMonthDay), ',', ';');
    OnePiece("BYMONTHDAY", Joined(Numbers(rule.byMonthDay), ','), ';');
    NumbersArePieces(rule.byMonth, ';');
    JoinedLetters(Numbers(rule.byMonth), ',', ';');
    OnePiece("BYMONTH", Joined(Numbers(rule.byMonth), ','), ';');
  }

  lemma WithFreqAndInterval(rule: RRule, freq: Freq, interval: int)
    requires 1 <= interval <= INT_MAX
    ensures WithParts(rule, [KeyValue("FREQ", FreqName(freq)), KeyValue("INTERVAL", ToString(interval))])
         == rule.(freq := freq, interval := interval)
  {
    hide ToString, SafeStoi, WithPart;
    var a, b := KeyValue("FREQ", FreqName(freq)), KeyValue("INTERVAL", ToString(interval));
    assert [a, b] == [a] + [b];
    WithAppended(rule, [a], [b]);
    WithOne(rule, a);
    WithKeyValue(rule, "FREQ", FreqName(freq));
    WithOne(rule.(freq := freq), b);
    WithKeyValue(rule.(freq := freq), "INTERVAL", ToString(interval));
    ReadNumber(interval);
  }

  lemma WithLimits(rule: RRule, count: Option<int>, until: Option<Tm>)
    requires rule.count.None? && rule.until.None?
    requires count.Some? ==> 0 <= count.value <= INT_MAX
    requires until.Some? ==> ValidTm(until.value) && FourDigitYear(until.value)
    ensures WithParts(WithParts(rule, if count.Some? then [KeyValue("COUNT", ToString(count.value))] else []),
                      if until.Some? then [KeyValue("UNTIL", BasicForm(until.value))] else [])
         == rule.(count := count, until := until)
  {
    hide ToString, SafeStoi, WithPart, BasicForm, NormalizedUntil, ParseIso, FormatIso, ValidTm;
    var counted := rule.(count := count);
    if count.Some? {
      WithOne(rule, KeyValue("COUNT", ToString(count.value)));
      WithKeyValue(rule, "COUNT", ToString(count.value));
      ReadNumber(count.value);
    }
    if until.Some? {
      WithOne(counted, KeyValue("UNTIL", BasicForm(until.value)));
      WithKeyValue(counted, "UNTIL", BasicForm(until.value));
      BasicFormReads(until.value);
      FormatParseRoundTrip(until.value);
    }
  }

  lemma WithDays(rule: RRule, days: seq<Weekday>)
    requires rule.byDay == []
    ensures WithParts(rule, if days != [] then [KeyValue("BYDAY", Joined(Names(days), ','))] else []) == rule.(byDay := days)
  {
    hide WithPart, Names, Joined, Split, DaysNamed;
    if days != [] {
      var text := Joined(Names(days), ',');
      WithOne(rule, KeyValue("BYDAY", text));
      WithKeyValue(rule, "BYDAY", text);
      NamesArePieces(days, ',');
      SplitJoined(Names(days), ',');
      DaysReadBack(days);
    }
  }

  lemma WithMonthDays(rule: RRule, nums: seq<int>)
    requires rule.byMonthDay == [] && forall i :: 0 <= i < |nums| ==> nums[i] != 0 && INT_MIN <= nums[i] <= INT_MAX
    ensures WithParts(rule, if nums != [] then [KeyValue("BYMONTHDAY", Joined(Numbers(nums), ','))] else [])
         == rule.(byMonthDay := nums)
  {
    hide WithPart, Numbers, Joined, Split, MonthDaysNamed, MonthsNamed;
    if nums != [] {
      var text := Joined(Numbers(nums), ',');
      WithOne(rule, KeyValue("BYMONTHDAY", text));
      WithKeyValue(rule, "BYMONTHDAY", text);
      NumbersArePieces(nums, ',');
      SplitJoined(Numbers(nums), ',');
      NumbersReadBack(nums);
    }
  }

  lemma WithMonths(rule: RRule, nums: seq<int>)
    requires rule.byMonth == [] && forall i :: 0 <= i < |nums| ==> 1 <= nums[i] <= 12
    ensures WithParts(rule, if nums != [] then [KeyValue("BYMONTH", Joined(Numbers(nums), ','))] else [])
         == rule.(byMonth := nums)
  {
    hide WithPart, Numbers, Joined, Split, MonthDaysNamed, MonthsNamed;
    if nums != [] {
      var text := Joined(Numbers(nums), ',');
      WithOne(rule, KeyValue("BYMONTH", text));
      WithKeyValue(rule, "BYMONTH", text);
      NumbersArePieces(nums, ',');
      SplitJoined(Numbers(nums), ',');
      NumbersReadBack(nums);
    }
  }

  /** A written rule is read back unchanged: no field is lost, mixed up or reordered. */
  lemma ParsedWritten(rule: RRule)
    requires Writable(rule)
    ensures Parsed(Written(rule)) == rule
  {
    hide ToString, BasicForm, Names, Numbers, FourDigitYear, ValidTm, WithParts, Pieces, Joined, Split, KeyValue;
    var all := Parts(rule);
    PartsArePieces(rule);
    NoPrefix(rule);
    SplitJoined(all, ';');
    var head := [KeyValue("FREQ", FreqName(rule.freq)), KeyValue("INTERVAL", ToString(rule.interval))];
    var count := if rule.count.Some? then [KeyValue("COUNT", ToString(rule.count.value))] else [];
    var until := if rule.until.Some? then [KeyValue("UNTIL", BasicForm(rule.until.value))] else [];
    var days := if rule.byDay != [] then [KeyValue("BYDAY", Joined(Names(rule.byDay), ','))] else [];
    var monthDays := if rule.byMonthDay != [] then [KeyValue("BYMONTHDAY", Joined(Numbers(rule.byMonthDay), ','))] else [];
    var months := if rule.byMonth != [] then [KeyValue("BYMONTH", Joined(Numbers(rule.byMonth), ','))] else [];
    var r0 := DEFAULT_RULE;
    var r1 := r0.(freq := rule.freq, interval := rule.interval);
    var r2 := r1.(count := rule.count, until := rule.until);
    var r3 := r2.(byDay := rule.byDay);
    var r4 := r3.(byMonthDay := rule.byMonthDay);
    assert all == head + count + until + days + monthDays + months;
    WithAppended(r0, head + count + until + days + monthDays, months);
    WithAppended(r0, head + count + until + days, monthDays);
    WithAppended(r0, head + count + until, days);
    WithAppended(r0, head + count, until);
    WithAppended(r0, head, count);
    WithFreqAndInterval(r0, rule.freq, rule.interval);
    WithLimits(r1, rule.count, rule.until);
    WithDays(r2, rule.byDay);
    WithMonthDays(r3, rule.byMonthDay);
    WithMonths(r4, rule.byMonth);
  }

  lemma NoPrefix(rule: RRule)
    ensures StripPrefix(Written(rule)) == Written(rule)
  {
    hide ToString, BasicForm, Names, Numbers;
    var text, first := Written(rule), Parts(rule)[0];
    assert first[0] == 'F';
    assert text == Joined(Parts(rule), ';') && |Parts(rule)| >= 2;
    assert text[0] == first[0];
    assert PREFIX[0] == 'R';
  }

  // ---- Other forms that are read ----

  lemma PrefixedReads(rule: RRule)
    requires Writable(rule)
    ensures Parsed("RRULE:" + Written(rule)) == rule
  {
    hide Written, WithParts, Split;
    ParsedWritten(rule);
    NoPrefix(rule);
    assert ("RRULE:" + Written(rule))[6..] == Written(rule);
  }

  /** A date alone is the last second of that day. */
  lemma UntilDateAlone(rule: RRule, t: Tm)
    requires ValidTm(t) && FourDigitYear(t)
    ensures WithValue(rule, "UNTIL", PrintfPadded(4, t.year + 1900) + PrintfPadded(2, t.mon + 1) + PrintfPadded(2, t.mday))
         == rule.(until := Some(t.(hour := 23, min := 59, sec := 59)))
  {
    hide PrintfPadded, ParseIso, FormatIso, DaysInMonth, NormalizedUntil;
    var end := t.(hour := 23, min := 59, sec := 59);
    FourDigits(t.year + 1900);
    TwoDigits(t.mon + 1);
    TwoDigits(t.mday);
    UntilText(PrintfPadded(4, t.year + 1900), PrintfPadded(2, t.mon + 1), PrintfPadded(2, t.mday));
    NightText(t);
    FormatParseRoundTrip(end);
  }

  lemma UntilText(y: string, m: string, d: string)
    requires |y| == 4 && |m| == 2 && |d| == 2
    ensures NormalizedUntil(y + m + d) == y + "-" + m + "-" + d + "T23:59:59Z"
  {
    var text := y + m + d;
    assert text[0..4] == y && text[4..6] == m && text[6..8] == d;
  }

  lemma NightText(t: Tm)
    ensures FormatIso(t.(hour := 23, min := 59, sec := 59))
         == PrintfPadded(4, t.year + 1900) + "-" + PrintfPadded(2, t.mon + 1) + "-" + PrintfPadded(2, t.mday) + "T23:59:59Z"
  {
    hide PrintfPadded, ClockText;
    ElevenAtNight(t);
  }

  lemma ElevenAtNight(t: Tm)
    ensures ClockText(t.(hour := 23, min := 59, sec := 59)) == "T23:59:59Z"
  {
    assert Padded(0, 2) == "2" && Padded(0, 5) == "5";
    assert PrintfPadded(2, 23) == "23" && PrintfPadded(2, 59) == "59";
  }

  /** An ordinal in front of a day, such as 2MO or -1FR, is read and ignored. */
  lemma {:induction false} OrdinalIgnored(ordinal: string, day: Weekday)
    requires forall i :: 0 <= i < |ordinal| ==> ordinal[i] == '-' || '0' <= ordinal[i] <= '9'
    ensures DaysNamed([ordinal + WeekdayName(day)]) == [day]
  {
    Stripped(ordinal, WeekdayName(day));
    var names := [ordinal + WeekdayName(day)];
    assert names[..0] == [] && DaysNamed([]) == [];
  }

  lemma {:induction false} Stripped(ordinal: string, name: string)
    requires forall i :: 0 <= i < |ordinal| ==> ordinal[i] == '-' || '0' <= ordinal[i] <= '9'
    requires name != [] && name[0] != '-' && !('0' <= name[0] <= '9')
    ensures StripOrdinal(ordinal + name) == name
  {
    if ordinal == [] {
      assert ordinal + name == name;
    } else {
      assert (ordinal + name)[1..] == ordinal[1..] + name;
      Stripped(ordinal[1..], name);
    }
  }
}
