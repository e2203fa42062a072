/**
 * Powers of two and the division facts the bit-field arithmetic needs.
 * Python integers are unbounded, so masks and shifts on them are modelled
 * as division and remainder by powers of two.
 */
module Arith {

  function Pow2(n: nat): (r: nat)
    ensures r >= 1
  {
    if n == 0 then 1 else 2 * Pow2(n - 1)
  }

  lemma {:induction false} Pow2Add(a: nat, b: nat)
    ensures Pow2(a + b) == Pow2(a) * Pow2(b)
  {
    if a > 0 {
      Pow2Add(a - 1, b);
      assert Pow2(a + b) == 2 * Pow2(a - 1 + b);
      Double(Pow2(a - 1), Pow2(b));
    }
  }

  lemma Double(x: int, y: int)
    ensures 2 * (x * y) == (2 * x) * y
  {
  }

  lemma Pow2Mono(a: nat, b: nat)
    requires a <= b
    ensures Pow2(a) <= Pow2(b)
  {
    Pow2Add(a, b - a);
    MulAtLeast(Pow2(a), Pow2(b - a));
  }

  /** Eight more bits multiply by 256. */
  lemma Pow2Byte(n: nat)
    requires n >= 1
    ensures Pow2(8 * n) == 256 * Pow2(8 * (n - 1))
  {
    Pow2Eight();
    Pow2Split(8 * n, 8, 8 * (n - 1));
  }

  lemma Pow2Eight()
    ensures Pow2(8) == 256
  {
  }

  lemma Pow2Split(m: nat, a: nat, b: nat)
    requires m == a + b
    ensures Pow2(m) == Pow2(a) * Pow2(b)
  {
    Pow2Add(a, b);
  }

  /** `x >> k`: `x` halved `k` times, rounding down. */
  function Shr(x: nat, k: nat): nat {
    if k == 0 then x else Shr(x / 2, k - 1)
  }

  /** Shifting right by `k` is dividing by 2^k. */
  lemma {:induction false} ShrDiv(x: nat, k: nat)
    ensures Shr(x, k) == x / Pow2(k)
  {
    if k > 0 {
      ShrDiv(x / 2, k - 1);
      DivDiv(x, 2, Pow2(k - 1));
    }
  }

  lemma MulNat(a: nat, b: nat)
    ensures a * b >= 0
  {
  }

  lemma MulAtLeast(a: nat, m: nat)
    requires m >= 1
    ensures a * m >= a
  {
  }

  /** Quotient and remainder are determined by the division equation. */
  lemma DivModUnique(x: int, a: int, q: int, r: int)
    requires a > 0 && 0 <= r < a && x == a * q + r
    ensures x / a == q && x % a == r
  {
    var q', r' := x / a, x % a;
    assert x == a * q' + r';
    if q' < q {
      assert a * (q - q') == r' - r;
      MulAtLeast(a, q - q');
    } else if q' > q {
      assert a * (q' - q) == r - r';
      MulAtLeast(a, q' - q);
    }
  }

  /** Dividing twice is dividing by the product; the remainder splits accordingly. */
  lemma DivDiv(x: nat, a: nat, b: nat)
    requires a > 0 && b > 0
    ensures x / a / b == x / (a * b)
    ensures x % (a * b) == a * ((x / a) % b) + x % a
  {
    var q1, r1 := x / a, x % a;
    var q2, r2 := q1 / b, q1 % b;
    assert x == a * q1 + r1;
    assert q1 == b * q2 + r2;
    assert x == (a * b) * q2 + (a * r2 + r1) by {
      assert a * q1 == a * (b * q2) + a * r2;
    }
    assert a * r2 <= a * (b - 1) by {
      MulLe(a, r2, b - 1);
    }
    assert a * (b - 1) == a * b - a;
    DivModUnique(x, a * b, q2, a * r2 + r1);
  }

  lemma MulSucc(a: int, b: int)
    ensures a * (b + 1) == a * b + a
  {
  }

  lemma MulLe(a: nat, x: int, y: int)
    requires x <= y
    ensures a * x <= a * y
  {
    MulNat(a, y - x);
    assert a * (y - x) == a * y - a * x;
  }

  /** The multiple of `m` at or below `x` is at least `m` below any multiple of `m` above `x`. */
  lemma BelowMultiple(x: nat, m: nat, r: nat)
    requires m > 0 && x < m * r
    ensures m * (x / m) + m <= m * r
  {
    DivBelow(x, m, r);
    MulLe(m, x / m + 1, r);
    MulSucc(m, x / m);
  }

  /** Taking the remainder by a multiple of `a` keeps the remainder by `a`. */
  lemma ModMod(x: nat, a: nat, b: nat)
    requires a > 0 && b > 0
    ensures (x % (a * b)) % a == x % a
    ensures (x % (a * b)) / a == (x / a) % b
  {
    DivDiv(x, a, b);
    DivModUnique(x % (a * b), a, (x / a) % b, x % a);
  }

  lemma DivBelow(x: nat, a: nat, b: nat)
    requires a > 0 && x < a * b
    ensures x / a < b
  {
  }

  function Min(a: nat, b: nat): nat {
    if a <= b then a else b
  }

  function Max(a: nat, b: nat): nat {
    if a <= b then b else a
  }
}
