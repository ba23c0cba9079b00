/** Powers and division facts that the layout proofs share. */
module Arithmetic {
  function Pow(b: nat, e: nat): (r: nat)
    ensures b > 0 ==> r > 0
  {
    if e == 0 then 1 else b * Pow(b, e - 1)
  }

  lemma MulPow(b: nat, k: nat, m: nat)
    ensures m * Pow(b, k + 1) == b * (m * Pow(b, k)) == (m * b) * Pow(b, k)
  {
    var p := Pow(b, k);
    assert m * (b * p) == b * (m * p) == (m * b) * p;
  }

  lemma MulMonotone(b: nat, x: int, y: int)
    requires x <= y
    ensures b * x <= b * y
  {
    assert b * (y - x) >= 0;
  }

  lemma MulCancels(b: nat, x: int, y: int)
    requires b > 0
    ensures b * x < b * y <==> x < y
    ensures b * x == b * y <==> x == y
  {
    if x < y {
      MulMonotone(b, x + 1, y);
      assert b * (x + 1) == b * x + b;
    } else if y < x {
      MulMonotone(b, y + 1, x);
      assert b * (y + 1) == b * y + b;
    }
  }

  function CeilDiv(a: nat, b: nat): nat
    requires b > 0
  {
    (a + b - 1) / b
  }

  /** Quotient and remainder are determined by b * q + r. */
  lemma DivMod(b: nat, q: nat, r: nat)
    requires r < b
    ensures (b * q + r) / b == q && (b * q + r) % b == r
  {
    var x := b * q + r;
    assert x == b * (x / b) + x % b;
    assert b * (q + 1) == b * q + b && b * (x / b + 1) == b * (x / b) + b;
    MulCancels(b, q, x / b + 1);
    MulCancels(b, x / b, q + 1);
  }

  lemma DivShrinks(b: nat, y: nat)
    requires b >= 2 && y > 0
    ensures y / b < y
  {
    var q := y / b;
    assert y == b * q + y % b;
    MulMonotone(q, 2, b);
    assert q * b == b * q && q * 2 == q + q;
  }

  /** Inside one block of size s, the block number is the quotient. */
  lemma BlockOf(s: nat, m: nat, x: nat)
    requires s > 0
    ensures s * m <= x < s * m + s <==> x / s == m
    ensures s * m < x < s * m + s <==> x / s == m && x % s != 0
  {
    assert x == s * (x / s) + x % s;
    if s * m <= x < s * m + s {
      DivMod(s, m, x - s * m);
    }
  }

  /** One wrap around. */
  lemma WrapOnce(x: nat, n: nat)
    requires 0 < n <= x < 2 * n
    ensures x % n == x - n
  {
    DivMod(n, 1, x - n);
  }

  /** size * h, by repeated addition, which keeps the arithmetic around it linear. */
  function Times(size: nat, h: nat): nat {
    if h == 0 then 0 else Times(size, h - 1) + size
  }

  lemma {:induction false} TimesIsProduct(size: nat, h: nat)
    ensures Times(size, h) == size * h
  {
    if h == 0 {
    } else {
      TimesIsProduct(size, h - 1);
      assert size * h == size * (h - 1) + size;
    }
  }
}
