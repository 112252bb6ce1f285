/**
 * Base-ten arithmetic on natural numbers, stated digit by digit: powers of
 * ten, dropping the lowest digits and keeping them.
 */
module Arith {

  function Pow10(k: nat): (p: nat)
    ensures p > 0
  {
    if k == 0 then 1 else 10 * Pow10(k - 1)
  }

  /** `m` with its `k` lowest decimal digits dropped: the quotient by 10^k. */
  function Shift(m: nat, k: nat): nat
  {
    if k == 0 then m else Shift(m / 10, k - 1)
  }

  /** The `k` lowest decimal digits of `m`: the remainder by 10^k. */
  function Low(m: nat, k: nat): nat
  {
    if k == 0 then 0 else m % 10 + 10 * Low(m / 10, k - 1)
  }

  lemma MulLe(a: nat, b: nat, p: nat)
    requires a <= b
    ensures a * p <= b * p
  {
    if p > 0 {
      MulLe(a, b, p - 1);
      assert a * p == a * (p - 1) + a;
      assert b * p == b * (p - 1) + b;
    }
  }

  lemma {:induction false} ShiftLow(m: nat, k: nat)
    ensures m == Shift(m, k) * Pow10(k) + Low(m, k)
    ensures Low(m, k) < Pow10(k)
  {
    if k > 0 {
      var m' := m / 10;
      ShiftLow(m', k - 1);
      var q, r, p := Shift(m', k - 1), Low(m', k - 1), Pow10(k - 1);
      assert Shift(m, k) == q && Low(m, k) == m % 10 + 10 * r && Pow10(k) == 10 * p;
      Times10(q, p);
      DigitStep(m, m', q * p, r);
    }
  }

  lemma MulAssoc(x: nat, y: nat, z: nat)
    ensures x * (y * z) == (x * y) * z
  {
  }

  /** `x * (10 * y) == 10 * (x * y)`. */
  lemma Times10(x: nat, y: nat)
    ensures x * (10 * y) == 10 * (x * y)
  {
  }

  lemma DigitStep(m: nat, m': nat, a: nat, r: nat)
    requires m' == m / 10 && m' == a + r
    ensures m == 10 * a + (m % 10 + 10 * r)
  {
  }

  lemma MulSucc(a: nat, p: nat)
    ensures (a + 1) * p == a * p + p
  {
  }

  /** Division with remainder has one answer. */
  lemma QuotientUnique(p: nat, q1: nat, r1: nat, q2: nat, r2: nat)
    requires r1 < p && r2 < p && q1 * p + r1 == q2 * p + r2
    ensures q1 == q2 && r1 == r2
  {
    if q1 < q2 {
      MulLe(q1 + 1, q2, p);
      MulSucc(q1, p);
      assert false;
    } else if q2 < q1 {
      MulLe(q2 + 1, q1, p);
      MulSucc(q2, p);
      assert false;
    }
  }

  lemma ShiftUnique(m: nat, k: nat, q: nat, r: nat)
    requires m == q * Pow10(k) + r && r < Pow10(k)
    ensures Shift(m, k) == q && Low(m, k) == r
  {
    ShiftLow(m, k);
    QuotientUnique(Pow10(k), Shift(m, k), Low(m, k), q, r);
  }

  lemma {:induction false} ShiftNext(m: nat, k: nat)
    ensures Shift(m, k + 1) == Shift(m, k) / 10
    ensures Low(m, k + 1) == (Shift(m, k) % 10) * Pow10(k) + Low(m, k)
  {
    if k > 0 {
      var m' := m / 10;
      ShiftNext(m', k - 1);
      var d, p := Shift(m', k - 1) % 10, Pow10(k - 1);
      assert Shift(m, k) % 10 == d && Pow10(k) == 10 * p;
      assert Low(m, k + 1) == m % 10 + 10 * (d * p + Low(m', k - 1));
      assert Low(m, k) == m % 10 + 10 * Low(m', k - 1);
      Times10(d, p);
    }
  }

  lemma Pow10Add(a: nat, b: nat)
    ensures Pow10(a + b) == Pow10(a) * Pow10(b)
  {
    if a > 0 {
      Pow10Add(a - 1, b);
      assert Pow10(a + b) == 10 * (Pow10(a - 1) * Pow10(b));
      MulAssoc(10, Pow10(a - 1), Pow10(b));
    }
  }

  /** The digit just below the lowest `k` is five or more exactly when the lowest `k + 1` digits make half of 10^(k+1). */
  lemma DigitHalf(m: nat, k: nat)
    ensures Shift(m, k) % 10 >= 5 <==> 2 * Low(m, k + 1) >= Pow10(k + 1)
  {
    ShiftNext(m, k);
    ShiftLow(m, k);
    var digit, e := Shift(m, k) % 10, Pow10(k);
    assert Pow10(k + 1) == 10 * e;
    if digit >= 5 {
      MulLe(5, digit, e);
    } else {
      MulLe(digit, 4, e);
    }
  }
}
