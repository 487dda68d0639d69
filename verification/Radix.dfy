/** Positional numbers, and the regrouping of bits that base64url and base32 share: a byte string is
    one big-endian number, and so is its text, so RFC 4648's left-to-right regrouping is a change of
    base by powers of two. */
module Radix {
  import opened Arithmetic
  import opened Bytes

  function Pow2(n: nat): (p: nat)
    ensures p >= 1
  {
    if n == 0 then 1 else 2 * Pow2(n - 1)
  }

  predicate Below(base: nat, ds: seq<int>) {
    forall i :: 0 <= i < |ds| ==> 0 <= ds[i] < base
  }

  /** The number written by `ds`, most significant digit first. */
  function FromDigits(base: nat, ds: seq<int>): int {
    if ds == [] then 0 else FromDigits(base, ds[..|ds| - 1]) * base + ds[|ds| - 1]
  }

  /** The last m digits of v. */
  function ToDigits(base: nat, v: int, m: nat): (ds: seq<int>)
    requires base >= 1
    ensures |ds| == m && Below(base, ds)
    decreases m
  {
    if m == 0 then []
    else ToDigits(base, v / base, m - 1) + [v % base]
  }

  lemma {:induction false} Pow2Sum(m: nat, n: nat)
    ensures Pow2(m + n) == Pow2(m) * Pow2(n)
  {
    if m > 0 {
      Pow2Sum(m - 1, n);
      assert Pow2(m + n) == 2 * Pow2(m - 1 + n) == 2 * (Pow2(m - 1) * Pow2(n));
    }
  }

  lemma FromDigitsPush(base: nat, ds: seq<int>, d: int)
    ensures FromDigits(base, ds + [d]) == FromDigits(base, ds) * base + d
  {
    assert (ds + [d])[..|ds|] == ds;
  }

  /** m digits write exactly the numbers below base to the m-th power. */
  lemma {:induction false} DigitsBound(k: nat, ds: seq<int>)
    requires Below(Pow2(k), ds)
    ensures 0 <= FromDigits(Pow2(k), ds) < Pow2(k * |ds|)
  {
    if ds != [] {
      var front, last := ds[..|ds| - 1], ds[|ds| - 1];
      DigitsBound(k, front);
      var v, p, q := FromDigits(Pow2(k), front), Pow2(k), Pow2(k * |front|);
      assert k * |ds| == k + k * |front|;
      Pow2Sum(k, k * |front|);
      ProductOrder(p, v, q);
      assert v * p == p * v;
      if v >= 1 {
        ProductGap(p, v);
      }
    } else {
      assert k * 0 == 0;
    }
  }

  lemma {:induction false} DigitsOfNumber(k: nat, ds: seq<int>)
    requires Below(Pow2(k), ds)
    ensures ToDigits(Pow2(k), FromDigits(Pow2(k), ds), |ds|) == ds
  {
    if ds != [] {
      var front, last := ds[..|ds| - 1], ds[|ds| - 1];
      DigitsOfNumber(k, front);
      var v := FromDigits(Pow2(k), front);
      QuotientOf(Pow2(k), v, last);
      assert v * Pow2(k) == Pow2(k) * v;
      assert ds == front + [last];
    }
  }

  lemma {:induction false} NumberOfDigits(k: nat, v: nat, m: nat)
    requires v < Pow2(k * m)
    ensures FromDigits(Pow2(k), ToDigits(Pow2(k), v, m)) == v
  {
    hide Pow2, FromDigits;
    if m == 0 {
      EmptyNumber(k);
    } else {
      var base, rest := Pow2(k), Pow2(k * (m - 1));
      assert k * m == k + k * (m - 1);
      Pow2Sum(k, k * (m - 1));
      QuotientLess(v, base, rest);
      NumberOfDigits(k, v / base, m - 1);
      FromDigitsPush(base, ToDigits(base, v / base, m - 1), v % base);
      Recompose(v, base);
    }
  }

  lemma EmptyNumber(k: nat)
    ensures Pow2(k * 0) == 1 && FromDigits(Pow2(k), []) == 0
  {
    assert k * 0 == 0;
  }

  lemma Recompose(v: int, base: nat)
    requires base >= 1
    ensures v / base * base + v % base == v
  {
  }

  // ---- What encoding and decoding mean ----

  /** Characters needed for n bytes, g bits each. */
  function EncodedLength(g: nat, n: nat): nat
    requires g >= 1
  {
    (8 * n + g - 1) / g
  }

  /** The g-bit groups of `data`, the last one filled up with zero bits. */
  function Encode(g: nat, data: seq<int>): (ds: seq<int>)
    requires g >= 1
    ensures |ds| == EncodedLength(g, |data|) && Below(Pow2(g), ds)
  {
    var m := EncodedLength(g, |data|);
    PaddingBits(g, |data|);
    ToDigits(Pow2(g), FromDigits(256, data) * Pow2(g * m - 8 * |data|), m)
  }

  /** The whole bytes of a row of g-bit groups; leftover bits are dropped. */
  function Decode(g: nat, ds: seq<int>): (data: seq<byte>)
    ensures |data| == g * |ds| / 8
  {
    var bits := g * |ds|;
    var out := ToDigits(256, FromDigits(Pow2(g), ds) / Pow2(bits % 8), bits / 8);
    out
  }

  lemma PaddingBits(g: nat, n: nat)
    requires g >= 1
    ensures 8 * n <= g * EncodedLength(g, n) < 8 * n + g
  {
    var x, m := 8 * n + g - 1, EncodedLength(g, n);
    assert x == g * m + x % g;
  }

  lemma Pow2Of8()
    ensures Pow2(8) == 256 && Pow2(6) == 64 && Pow2(5) == 32 && Pow2(0) == 1
  {
    assert Pow2(4) == 16 && Pow2(2) == 4;
  }

  /** Decoding undoes encoding for every group size up to a byte. */
  lemma RoundTrip(g: nat, data: seq<int>)
    requires 1 <= g <= 8 && Below(256, data)
    ensures Decode(g, Encode(g, data)) == data
  {
    Pow2Of8();
    var n, m := |data|, EncodedLength(g, |data|);
    PaddingBits(g, n);
    var pad := g * m - 8 * n;
    var v := FromDigits(256, data);
    DigitsBound(8, data);
    Pow2Sum(8 * n, pad);
    var scaled := v * Pow2(pad);
    ProductOrder(Pow2(pad), v, Pow2(8 * n));
    assert scaled == Pow2(pad) * v;
    ScaledBound(v, Pow2(pad));
    NumberOfDigits(g, scaled, m);
    assert g * m / 8 == n && g * m % 8 == pad;
    QuotientOf(Pow2(pad), v, 0);
    DigitsOfNumber(8, data);
  }

  lemma ScaledBound(v: nat, p: nat)
    ensures v * p >= 0
  {
  }

  // ---- The accumulator ----

  const WORD := 0x1_0000_0000

  /** `(acc << a) | d` in a 32-bit unsigned word; d fits in the a bits shifted in. */
  function ShiftIn(acc: int, a: nat, d: int): (r: int)
    ensures 0 <= r < WORD && (r - (acc * Pow2(a) + d)) % WORD == 0
  {
    (acc * Pow2(a) + d) % WORD
  }

  /** The same in a signed 32-bit word. */
  function ShiftInSigned(acc: int, a: nat, d: int): (r: int)
    ensures -0x8000_0000 <= r < 0x8000_0000 && (r - (acc * Pow2(a) + d)) % WORD == 0
  {
    var u := ShiftIn(acc, a, d);
    if u >= 0x8000_0000 then u - WORD else u
  }

  /** `(acc >> shift) & mask` for a mask of g ones; the shift keeps the sign, so it rounds down. */
  function Bits(acc: int, shift: nat, g: nat): (d: int)
    ensures 0 <= d < Pow2(g)
  {
    acc / Pow2(shift) % Pow2(g)
  }

  /** The digits emitted so far, followed by the low `bits` bits of the accumulator, are the number
      read so far. The accumulator is never masked: its higher bits are left over and never read. */
  ghost predicate Regrouped(read: int, g: nat, out: seq<int>, acc: int, bits: nat) {
    Below(Pow2(g), out) && read == FromDigits(Pow2(g), out) * Pow2(bits) + acc % Pow2(bits)
  }

  lemma ModOfMod(x: int, y: int, k: nat)
    requires k <= 32 && (x - y) % WORD == 0
    ensures x % Pow2(k) == y % Pow2(k)
  {
    hide Pow2;
    Pow2Sum(k, 32 - k);
    WordIsPow2();
    ModOfMultiple(x, y, Pow2(k), Pow2(32 - k));
  }

  lemma WordIsPow2()
    ensures Pow2(32) == WORD
  {
    Pow2Of8();
    Pow2Sum(8, 8);
    Pow2Sum(16, 16);
  }

  lemma ShiftMod(acc: int, a: nat, d: int, bits: nat)
    requires 0 <= d < Pow2(a)
    ensures (acc * Pow2(a) + d) % Pow2(bits + a) == acc % Pow2(bits) * Pow2(a) + d
  {
    hide Pow2;
    Pow2Sum(bits, a);
    ShiftRemainder(acc, Pow2(bits), Pow2(a), d);
  }

  /** Shifting a digits of the input in. */
  lemma Feed(read: int, g: nat, out: seq<int>, acc: int, bits: nat, a: nat, d: int, next: int)
    requires Regrouped(read, g, out, acc, bits) && 0 <= d < Pow2(a) && bits + a <= 32
    requires (next - (acc * Pow2(a) + d)) % WORD == 0
    ensures Regrouped(read * Pow2(a) + d, g, out, next, bits + a)
  {
    hide Pow2, FromDigits, Below;
    ModOfMod(next, acc * Pow2(a) + d, bits + a);
    ShiftMod(acc, a, d, bits);
    Pow2Sum(bits, a);
    Distribute(FromDigits(Pow2(g), out), Pow2(bits), acc % Pow2(bits), Pow2(a));
  }

  lemma SplitBits(acc: int, bits: nat, g: nat)
    requires bits >= g
    ensures acc % Pow2(bits) == Bits(acc, bits - g, g) * Pow2(bits - g) + acc % Pow2(bits - g)
  {
    hide Pow2;
    Pow2Sum(g, bits - g);
    SplitRemainder(acc, Pow2(g), Pow2(bits - g));
  }

  /** Taking the next g bits out. */
  lemma Emit(read: int, g: nat, out: seq<int>, acc: int, bits: nat)
    requires Regrouped(read, g, out, acc, bits) && bits >= g
    ensures Regrouped(read, g, out + [Bits(acc, bits - g, g)], acc, bits - g)
  {
    hide Pow2, FromDigits, Bits;
    var v, d := FromDigits(Pow2(g), out), Bits(acc, bits - g, g);
    SplitBits(acc, bits, g);
    Pow2Sum(g, bits - g);
    FromDigitsPush(Pow2(g), out, d);
    Distribute(v, Pow2(g), d, Pow2(bits - g));
  }

  /** Filling the last group up with zero bits. */
  lemma Fill(read: int, g: nat, out: seq<int>, acc: int, bits: nat, next: int)
    requires Regrouped(read, g, out, acc, bits) && bits <= g <= 32
    requires (next - acc * Pow2(g - bits)) % WORD == 0
    ensures Regrouped(read * Pow2(g - bits), g, out + [Bits(next, 0, g)], next, 0)
  {
    hide Pow2, FromDigits, Bits;
    var a := g - bits;
    Feed(read, g, out, acc, bits, a, 0, next);
    Emit(read * Pow2(a), g, out, next, g);
  }

  /** With nothing left over, the digits are those of the number read. */
  lemma AllEmitted(read: int, g: nat, out: seq<int>, acc: int)
    requires Regrouped(read, g, out, acc, 0)
    ensures out == ToDigits(Pow2(g), read, |out|)
  {
    hide Pow2, FromDigits, ToDigits;
    NothingLeft(acc);
    DigitsOfNumber(g, out);
  }

  lemma NothingLeft(acc: int)
    ensures Pow2(0) == 1 && acc % Pow2(0) == 0
  {
  }

  /** Leftover bits are exactly what division drops. */
  lemma Dropped(read: int, g: nat, out: seq<int>, acc: int, bits: nat)
    requires Regrouped(read, g, out, acc, bits)
    ensures out == ToDigits(Pow2(g), read / Pow2(bits), |out|)
  {
    hide Pow2, FromDigits, ToDigits;
    var v := FromDigits(Pow2(g), out);
    assert v * Pow2(bits) == Pow2(bits) * v;
    QuotientOf(Pow2(bits), v, acc % Pow2(bits));
    DigitsOfNumber(g, out);
  }

  // ---- The ends of the loops ----

  lemma Start(g: nat)
    ensures forall base: nat :: Regrouped(FromDigits(base, []), g, [], 0, 0)
  {
  }

  lemma FeedByte(data: seq<byte>, i: nat, g: nat, out: seq<int>, acc: int, bits: nat, next: int)
    requires i < |data| && Regrouped(FromDigits(256, data[..i]), g, out, acc, bits) && bits + 8 <= 32
    requires (next - (acc * Pow2(8) + data[i])) % WORD == 0
    ensures Regrouped(FromDigits(256, data[..i + 1]), g, out, next, bits + 8)
  {
    hide Pow2, FromDigits, Regrouped;
    Pow2Of8();
    Feed(FromDigits(256, data[..i]), g, out, acc, bits, 8, data[i], next);
    FromDigitsPush(256, data[..i], data[i]);
    assert data[..i + 1] == data[..i] + [data[i]];
  }

  lemma FeedDigit(ds: seq<int>, v: int, a: nat, g: nat, out: seq<int>, acc: int, bits: nat, next: int)
    requires Regrouped(FromDigits(Pow2(a), ds), g, out, acc, bits) && bits + a <= 32 && 0 <= v < Pow2(a)
    requires (next - (acc * Pow2(a) + v)) % WORD == 0
    ensures Regrouped(FromDigits(Pow2(a), ds + [v]), g, out, next, bits + a)
  {
    hide Pow2, FromDigits, Regrouped;
    Feed(FromDigits(Pow2(a), ds), g, out, acc, bits, a, v, next);
    FromDigitsPush(Pow2(a), ds, v);
  }

  /** A loop that has emitted every group has computed the encoding. */
  lemma Finished(g: nat, data: seq<int>, ds: seq<int>, acc: int, pad: nat)
    requires g >= 1 && pad < g && |ds| * g == 8 * |data| + pad
    requires Regrouped(FromDigits(256, data) * Pow2(pad), g, ds, acc, 0)
    ensures ds == Encode(g, data)
  {
    hide Pow2, FromDigits, Regrouped, ToDigits, EncodedLength;
    AllEmitted(FromDigits(256, data) * Pow2(pad), g, ds, acc);
    LengthOf(g, |data|, |ds|, pad);
  }

  lemma LengthOf(g: nat, n: nat, m: nat, pad: nat)
    requires pad < g && m * g == 8 * n + pad
    ensures EncodedLength(g, n) == m && g * m - 8 * n == pad
  {
    assert 8 * n + g - 1 == g * m + (g - 1 - pad);
    QuotientOf(g, m, g - 1 - pad);
  }

  lemma DecodeFinished(g: nat, ds: seq<int>, out: seq<byte>, acc: int, bits: nat)
    requires bits < 8 && |out| * 8 + bits == g * |ds|
    requires Regrouped(FromDigits(Pow2(g), ds), 8, out, acc, bits)
    ensures out == Decode(g, ds)
  {
    hide Pow2, FromDigits, Regrouped, ToDigits;
    Pow2Of8();
    Dropped(FromDigits(Pow2(g), ds), 8, out, acc, bits);
  }
}
