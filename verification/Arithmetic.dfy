/** The few facts about products and quotients of variables that the solver does not find alone. */
module Arithmetic {

  lemma {:induction false} ProductGap(n: nat, d: nat)
    requires n >= 1 && d >= 1
    ensures n * d >= n
    decreases d
  {
    if d > 1 {
      ProductGap(n, d - 1);
      assert n * d == n * (d - 1) + n;
    }
  }

  /** Multiplying by a positive number keeps the order, with room to spare. */
  lemma ProductOrder(n: nat, a: int, b: int)
    requires n >= 1
    ensures a < b ==> n * a + n <= n * b
    ensures n * a < n * b ==> a < b
  {
    if a < b {
      ProductGap(n, b - a);
      assert n * (b - a) == n * b - n * a;
    } else if b < a {
      ProductGap(n, a - b);
      assert n * (a - b) == n * a - n * b;
    }
  }

  lemma QuotientBound(c: nat, n: nat, q: nat)
    requires n >= 1
    ensures c >= n * q ==> c / n >= q
  {
    assert c == n * (c / n) + c % n;
    assert n * (c / n + 1) == n * (c / n) + n;
    ProductOrder(n, q, c / n + 1);
  }

  /** Quotient and remainder are what they are composed of. */
  lemma QuotientOf(n: nat, q: int, r: nat)
    requires r < n
    ensures (n * q + r) / n == q && (n * q + r) % n == r
  {
    var c := n * q + r;
    assert c == n * (c / n) + c % n;
    assert n * (q + 1) == n * q + n && n * (c / n + 1) == n * (c / n) + n;
    ProductOrder(n, q, c / n + 1);
    ProductOrder(n, c / n, q + 1);
  }

  /** Quotients and remainders order like the numbers. */
  lemma PlaceOrder(n: nat, c: nat, d: nat)
    requires n >= 1 && c < d
    ensures c / n < d / n || (c / n == d / n && c % n < d % n)
  {
    var p, q := c / n, d / n;
    assert c == n * p + c % n && d == n * q + d % n;
    assert n * (q + 1) == n * q + n;
    ProductOrder(n, p, q + 1);
  }

  lemma QuotientLess(v: nat, base: nat, rest: nat)
    requires base >= 1 && v < base * rest
    ensures 0 <= v / base < rest
  {
    var h := v / base;
    assert v == base * h + v % base;
    ProductOrder(base, h, rest);
    ProductOrder(base, 0, h + 1);
    assert base * (h + 1) == base * h + base;
    assert base * 0 == 0;
  }

  lemma Distribute(v: int, p: int, r: int, q: int)
    ensures (v * p + r) * q == v * (p * q) + r * q
  {
    assert (v * p + r) * q == v * p * q + r * q;
    assert v * p * q == v * (p * q);
  }

  /** Numbers that agree modulo a multiple of p agree modulo p. */
  lemma ModOfMultiple(x: int, y: int, p: nat, q: nat)
    requires p >= 1 && p * q >= 1 && (x - y) % (p * q) == 0
    ensures x % p == y % p
  {
    var w := p * q;
    var t, r := (x - y) / w, y % p;
    assert x - y == w * t + (x - y) % w;
    ProductOfThree(p, q, t);
    assert y == p * (y / p) + r;
    assert p * (q * t + y / p) == p * (q * t) + p * (y / p);
    QuotientOf(p, q * t + y / p, r);
  }

  lemma ProductOfThree(p: int, q: int, t: int)
    ensures p * q * t == p * (q * t)
  {
  }

  /** Appending a digit d < q below a number, seen modulo p * q. */
  lemma ShiftRemainder(acc: int, p: nat, q: nat, d: int)
    requires p >= 1 && 0 <= d < q
    ensures (acc * q + d) % (p * q) == acc % p * q + d
  {
    var h, r := acc / p, acc % p;
    assert acc == p * h + r;
    Distribute(p, h, r, q);
    assert p * (h * q) == p * q * h by {
      ProductOfThree(p, h, q);
      ProductOfThree(p, q, h);
      assert h * q == q * h;
    }
    ProductOrder(q, r, p);
    ProductOrder(q, 0, r + 1);
    assert q * r == r * q && q * p == p * q && q * (r + 1) == q * r + q && q * 0 == 0;
    QuotientOf(p * q, h, r * q + d);
  }

  /** A number modulo p * q is its next digit above q and the rest below. */
  lemma SplitRemainder(acc: int, p: nat, q: nat)
    requires p >= 1 && q >= 1
    ensures p * q >= 1
    ensures acc % (p * q) == acc / q % p * q + acc % q
  {
    ProductGap(p, q);
    var h, r := acc / q, acc % q;
    assert acc == q * h + r;
    ShiftRemainder(h, p, q, r);
    assert h * q == q * h;
  }
}
