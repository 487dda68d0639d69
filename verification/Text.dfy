/** Decimal text: printf-style zero padding, std::to_string, the exception-free integer parser of the
    recurrence code, and std::string's lexicographic order. */
module Text {

  const INT_MIN := -0x8000_0000
  const INT_MAX := 0x7FFF_FFFF

  predicate IsDigit(c: char) {
    '0' <= c <= '9'
  }

  predicate AllDigits(s: string) {
    forall i :: 0 <= i < |s| ==> IsDigit(s[i])
  }

  function DigitChar(d: nat): (c: char)
    requires d < 10
    ensures IsDigit(c) && c as int - '0' as int == d
  {
    '0' + d as char
  }

  /** The value of a run of digits, leading zeros allowed. */
  function DigitsValue(s: string): (n: nat)
    requires AllDigits(s)
  {
    if s == [] then 0 else DigitsValue(s[..|s| - 1]) * 10 + (s[|s| - 1] as int - '0' as int)
  }

  /** The decimal digits of `n`, zero-padded on the left to at least `width` characters. */
  function Padded(width: nat, n: nat): (s: string)
    ensures AllDigits(s) && |s| >= width && |s| >= 1
    decreases n, width
  {
    if n < 10 && width <= 1 then [DigitChar(n)]
    else Padded(if width == 0 then 0 else width - 1, n / 10) + [DigitChar(n % 10)]
  }

  function Pow10(width: nat): nat {
    if width == 0 then 1 else 10 * Pow10(width - 1)
  }

  lemma {:induction false} PaddedValue(width: nat, n: nat)
    ensures DigitsValue(Padded(width, n)) == n
    ensures width >= 1 && n < Pow10(width) ==> |Padded(width, n)| == width
    decreases n, width
  {
    if n < 10 && width <= 1 {
    } else {
      var w := if width == 0 then 0 else width - 1;
      PaddedValue(w, n / 10);
      assert Padded(width, n)[..|Padded(width, n)| - 1] == Padded(w, n / 10);
      if width >= 1 && n < Pow10(width) {
        assert Pow10(width) == 10 * Pow10(w);
        assert w >= 1;
      }
    }
  }

  // ---- printf("%0*d") and std::to_string ----

  function PrintfPadded(width: nat, v: int): (s: string)
    ensures |s| >= 1
  {
    if v < 0 then "-" + Padded(if width == 0 then 0 else width - 1, -v) else Padded(width, v)
  }

  /** std::to_string(int). */
  function ToString(v: int): string {
    PrintfPadded(0, v)
  }

  // ---- Parsing ----

  /** A whole string that is an optional minus sign and at least one digit. */
  predicate IsInteger(s: string) {
    if s != [] && s[0] == '-' then |s| > 1 && AllDigits(s[1..]) else s != [] && AllDigits(s)
  }

  function IntegerValue(s: string): int
    requires IsInteger(s)
  {
    if s[0] == '-' then -(DigitsValue(s[1..]) as int) else DigitsValue(s)
  }

  /** safe_stoi: the whole string as an `int`, or the fallback when it is not one or does not fit. */
  function SafeStoi(s: string, fallback: int): int {
    if IsInteger(s) && INT_MIN <= IntegerValue(s) <= INT_MAX then IntegerValue(s) else fallback
  }

  lemma PrintfIsInteger(width: nat, v: int)
    ensures IsInteger(PrintfPadded(width, v)) && IntegerValue(PrintfPadded(width, v)) == v
  {
    if v < 0 {
      var w := if width == 0 then 0 else width - 1;
      PaddedValue(w, -v);
      assert PrintfPadded(width, v)[1..] == Padded(w, -v);
    } else {
      PaddedValue(width, v);
      assert IsDigit(Padded(width, v)[0]);
    }
  }

  /** Reading what printf wrote gives the number back, whatever the padding. */
  lemma SafeStoiPrintf(width: nat, v: int, fallback: int)
    requires INT_MIN <= v <= INT_MAX
    ensures SafeStoi(PrintfPadded(width, v), fallback) == v
  {
    PrintfIsInteger(width, v);
  }

  lemma ToStringInjective(v: int, w: int)
    requires ToString(v) == ToString(w)
    ensures v == w
  {
    PrintfIsInteger(0, v);
    PrintfIsInteger(0, w);
  }

  // ---- std::string operator< ----

  predicate LexBefore(a: string, b: string) {
    if b == [] then false
    else if a == [] then true
    else a[0] < b[0] || (a[0] == b[0] && LexBefore(a[1..], b[1..]))
  }

  /** Two strings with prefixes of equal length compare by the prefixes first. */
  lemma {:induction false} LexAppend(a: string, b: string, x: string, y: string)
    requires |a| == |b|
    ensures LexBefore(a + x, b + y) <==> LexBefore(a, b) || (a == b && LexBefore(x, y))
  {
    if a == [] {
      assert a + x == x && b + y == y;
    } else {
      LexAppend(a[1..], b[1..], x, y);
      assert (a + x)[1..] == a[1..] + x && (b + y)[1..] == b[1..] + y;
      assert a == b <==> a[0] == b[0] && a[1..] == b[1..] by {
        assert a == [a[0]] + a[1..] && b == [b[0]] + b[1..];
      }
    }
  }

  /** Digits of one width compare as numbers. */
  lemma {:induction false} PaddedOrder(width: nat, m: nat, n: nat)
    requires width >= 1 && m < Pow10(width) && n < Pow10(width)
    ensures LexBefore(Padded(width, m), Padded(width, n)) <==> m < n
    ensures Padded(width, m) == Padded(width, n) <==> m == n
  {
    PaddedValue(width, m);
    PaddedValue(width, n);
    if width == 1 {
      assert Pow10(1) == 10 * Pow10(0);
    } else {
      assert Pow10(width) == 10 * Pow10(width - 1);
      PaddedOrder(width - 1, m / 10, n / 10);
      PaddedValue(width - 1, m / 10);
      PaddedValue(width - 1, n / 10);
      LexAppend(Padded(width - 1, m / 10), Padded(width - 1, n / 10), [DigitChar(m % 10)], [DigitChar(n % 10)]);
    }
  }
}
