/**
 * The exact decimal values the converter works on (the part of BigNumber it
 * relies on): reading a plain numeral, rounding to two places half-up, and
 * the floor of the value and of its hundredths.
 */
module Decimals {
  import opened Text
  import opened Arith

  datatype Option<T> = None | Some(value: T)

  /** A non-negative exact decimal whose value is mantissa / 10^scale. */
  datatype Decimal = Decimal(mantissa: nat, scale: nat)

  function DigitValue(c: char): (d: nat)
    requires IsDigit(c)
    ensures d < 10
  {
    c as int - '0' as int
  }

  function DigitChar(d: nat): (c: char)
    requires d < 10
    ensures IsDigit(c) && DigitValue(c) == d
  {
    ('0' as int + d) as char
  }

  /** The number a digit string denotes in base ten. */
  function DigitsValue(s: string): (v: nat)
    requires AllDigits(s)
  {
    if s == [] then 0 else DigitsValue(s[..|s| - 1]) * 10 + DigitValue(s[|s| - 1])
  }

  /** Reading the concatenation of two digit strings shifts the first by the length of the second. */
  lemma {:induction false} DigitsValueAppend(a: string, b: string)
    requires AllDigits(a) && AllDigits(b)
    ensures AllDigits(a + b)
    ensures DigitsValue(a + b) == DigitsValue(a) * Pow10(|b|) + DigitsValue(b)
  {
    AllDigitsAppend(a, b);
    if b != [] {
      var b' := b[..|b| - 1];
      var x, y, d, p := DigitsValue(a), DigitsValue(b'), DigitValue(b[|b| - 1]), Pow10(|b'|);
      assert (a + b)[..|a + b| - 1] == a + b';
      DigitsValueAppend(a, b');
      assert DigitsValue(a + b) == DigitsValue(a + b') * 10 + d;
      assert DigitsValue(b) == y * 10 + d && Pow10(|b|) == 10 * p;
      Times10(x, p);
      AppendStep(x * p, y, d);
    } else {
      assert a + b == a;
    }
  }

  lemma AppendStep(xp: nat, y: nat, d: nat)
    ensures (xp + y) * 10 + d == 10 * xp + (y * 10 + d)
  {
  }

  /** The decimal digits of `n` without leading zeros ("0" for zero). */
  function DigitsOf(n: nat): (s: string)
    ensures |s| >= 1 && AllDigits(s)
    ensures DigitsValue(s) == n
    ensures s[0] != '0' || n == 0
  {
    if n < 10 then [DigitChar(n)]
    else
      var s := DigitsOf(n / 10) + [DigitChar(n % 10)];
      assert s[..|s| - 1] == DigitsOf(n / 10);
      s
  }

  /** The two digits of a number of hundredths below one hundred, as in ",05". */
  function TwoDigits(c: nat): (s: string)
    requires c < 100
    ensures |s| == 2 && AllDigits(s) && DigitsValue(s) == c
  {
    var hi, lo := DigitChar(c / 10), DigitChar(c % 10);
    var s := [hi, lo];
    assert [hi][..0] == [];
    assert DigitsValue([hi]) == c / 10;
    assert s[..1] == [hi];
    s
  }

  /**
   * The strings BigNumber accepts in plain notation, `\d+(\.\d*)?|\.\d+`:
   * digits, or digits around one point with at least one digit somewhere.
   */
  ghost predicate IsPlainNumeral(s: string) {
    || (|s| >= 1 && AllDigits(s))
    || (exists k :: 0 <= k < |s| && s[k] == '.' && AllDigits(s[..k]) && AllDigits(s[k + 1..]) && |s| >= 2)
  }

  /** `new BigNumber(s)` restricted to plain notation; None stands for NaN. */
  function ParseDecimal(s: string): (r: Option<Decimal>)
  {
    var k := FirstIndex(s, '.');
    if k < 0 then
      if |s| >= 1 && AllDigits(s) then Some(Decimal(DigitsValue(s), 0)) else None
    else if |s| >= 2 && AllDigits(s[..k]) && AllDigits(s[k + 1..]) then
      AllDigitsAppend(s[..k], s[k + 1..]);
      Some(Decimal(DigitsValue(s[..k] + s[k + 1..]), |s| - k - 1))
    else None
  }

  /** A string is read exactly when it is a plain numeral. */
  lemma ParseDecimalAccepts(s: string)
    ensures ParseDecimal(s).Some? <==> IsPlainNumeral(s)
  {
    if IsPlainNumeral(s) {
      PlainNumeralParses(s);
    }
  }

  lemma PlainNumeralParses(s: string)
    requires IsPlainNumeral(s)
    ensures ParseDecimal(s).Some?
  {
    if |s| >= 1 && AllDigits(s) {
      DigitsHaveNoSeparator(s);
    } else {
      var j :| 0 <= j < |s| && s[j] == '.' && AllDigits(s[..j]) && AllDigits(s[j + 1..]) && |s| >= 2;
      DigitsHaveNoSeparator(s[..j]);
      FirstIndexUnique(s, '.', j);
    }
  }

  /**
   * The value read is the digits taken without the point, over ten to the
   * number of digits after the point.
   */
  lemma ParseDecimalValue(s: string)
    requires ParseDecimal(s).Some?
    ensures AllDigits(RemoveAll(s, '.'))
    ensures ParseDecimal(s).value.mantissa == DigitsValue(RemoveAll(s, '.'))
    ensures ParseDecimal(s).value.scale == (if '.' in s then |s| - 1 - FirstIndex(s, '.') else 0)
  {
    var k := FirstIndex(s, '.');
    if k < 0 {
      assert AllDigits(s);
      RemoveAllAbsent(s, '.');
    } else {
      var a, b := s[..k], s[k + 1..];
      assert s[k] == '.' && '.' !in a;
      assert AllDigits(a) && AllDigits(b) && |a| + |b| >= 1;
      SplitAround(s, k);
      PointedValue(a, b);
    }
  }

  lemma PointedValue(a: string, b: string)
    requires '.' !in a && AllDigits(a) && AllDigits(b) && |a| + |b| >= 1
    ensures AllDigits(RemoveAll(a + ['.'] + b, '.'))
    ensures ParseDecimal(a + ['.'] + b) == Some(Decimal(DigitsValue(RemoveAll(a + ['.'] + b, '.')), |b|))
  {
    ParsePointed(a, b);
    DigitsHaveNoSeparator(b);
    RemoveAllAround(a, '.', b);
  }

  /** A digit string is parsed to its own value, at scale zero. */
  lemma ParseDigits(s: string)
    requires |s| >= 1 && AllDigits(s)
    ensures ParseDecimal(s) == Some(Decimal(DigitsValue(s), 0))
  {
    DigitsHaveNoSeparator(s);
  }

  /** "<digits>.<digits>" is parsed to the digits read together, at the scale of the fraction. */
  lemma ParsePointed(a: string, b: string)
    requires AllDigits(a) && AllDigits(b) && |a| + |b| >= 1
    ensures AllDigits(a + b)
    ensures ParseDecimal(a + ['.'] + b) == Some(Decimal(DigitsValue(a + b), |b|))
  {
    AllDigitsAppend(a, b);
    var s := a + ['.'] + b;
    DigitsHaveNoSeparator(a);
    assert s[..|a|] == a;
    FirstIndexUnique(s, '.', |a|);
    assert s[|a| + 1..] == b;
  }

  /** `r` is the value `m / p` times one hundred, rounded to an integer with halves going up. */
  ghost predicate IsHalfUpHundredths(m: nat, p: nat, r: nat) {
    200 * m < 2 * (r * p) + p && 2 * (r * p) <= 200 * m + p
  }

  /**
   * `decimalPlaces(2, ROUND_HALF_UP)`: keep two fraction digits and add one
   * hundredth when the third fraction digit is five or more. The result is
   * given at scale two.
   */
  function RoundHalfUp2(d: Decimal): (r: Decimal)
    ensures r.scale == 2
  {
    if d.scale <= 2 then
      Decimal(d.mantissa * Pow10(2 - d.scale), 2)
    else
      var kept := Shift(d.mantissa, d.scale - 2);
      var third := Shift(d.mantissa, d.scale - 3) % 10;
      Decimal(if third >= 5 then kept + 1 else kept, 2)
  }

  /** Adding one to the quotient exactly when the remainder is at least half the divisor rounds half up. */
  lemma HalfUpFromRemainder(m: nat, k: nat, r: nat)
    requires r == Shift(m, k) + (if 2 * Low(m, k) >= Pow10(k) then 1 else 0)
    ensures IsHalfUpHundredths(m, 100 * Pow10(k), r)
  {
    ShiftLow(m, k);
    var q, rem, dd := Shift(m, k), Low(m, k), Pow10(k);
    var up := 2 * rem >= dd;
    var y := r * dd;
    if up {
      MulSucc(q, dd);
      assert y == q * dd + dd;
    } else {
      assert y == q * dd;
    }
    HalfUpScaled(m, q * dd, rem, dd, y, up);
    MulAssoc100(r, dd);
  }

  lemma MulAssoc100(r: nat, dd: nat)
    ensures r * (100 * dd) == 100 * (r * dd)
  {
  }

  lemma HalfUpScaled(m: nat, x: nat, rem: nat, dd: nat, y: nat, up: bool)
    requires m == x + rem && rem < dd
    requires up ==> 2 * rem >= dd && y == x + dd
    requires !up ==> 2 * rem < dd && y == x
    ensures 200 * m < 2 * (100 * y) + 100 * dd && 2 * (100 * y) <= 200 * m + 100 * dd
  {
  }

  /** Rounding a decimal to two places picks the nearest hundredth, halves going up. */
  lemma RoundHalfUp2Nearest(d: Decimal)
    ensures IsHalfUpHundredths(d.mantissa, Pow10(d.scale), RoundHalfUp2(d).mantissa)
  {
    var m, s := d.mantissa, d.scale;
    if s == 0 {
      assert Pow10(2) == 100;
      assert RoundHalfUp2(d).mantissa == m * 100;
    } else if s == 1 {
      assert Pow10(1) == 10;
      assert RoundHalfUp2(d).mantissa == m * 10;
      MulAssoc(m, 10, 10);
    } else if s == 2 {
      assert Pow10(0) == 1 && Pow10(2) == 100;
    } else {
      RoundLongFraction(m, s - 3);
    }
  }

  lemma RoundLongFraction(m: nat, k: nat)
    ensures IsHalfUpHundredths(m, Pow10(k + 3), RoundHalfUp2(Decimal(m, k + 3)).mantissa)
  {
    DigitHalf(m, k);
    Pow10Add(k + 1, 2);
    assert Pow10(2) == 100;
    assert k + 3 - 2 == k + 1 && k + 3 - 3 == k;
    HalfUpFromRemainder(m, k + 1, RoundHalfUp2(Decimal(m, k + 3)).mantissa);
  }

  /** Half-up rounding to hundredths has one answer. */
  lemma HalfUpHundredthsUnique(m: nat, p: nat, r1: nat, r2: nat)
    requires p > 0
    requires IsHalfUpHundredths(m, p, r1) && IsHalfUpHundredths(m, p, r2)
    ensures r1 == r2
  {
    if r1 < r2 {
      MulLe(r1 + 1, r2, p);
      MulSucc(r1, p);
    } else if r2 < r1 {
      MulLe(r2 + 1, r1, p);
      MulSucc(r2, p);
    }
  }

  /** A value with at most two fraction digits keeps its value through the rounding. */
  lemma RoundHalfUp2Exact(d: Decimal)
    requires d.scale <= 2
    ensures RoundHalfUp2(d).mantissa * Pow10(d.scale) == d.mantissa * 100
  {
    assert d.scale == 0 || d.scale == 1 || d.scale == 2;
    assert Pow10(1) == 10 && Pow10(2) == 100;
  }

  /** `integerValue(ROUND_FLOOR)`: the largest integer not above the value. */
  function FloorInt(d: Decimal): (i: nat)
  {
    Shift(d.mantissa, d.scale)
  }

  /** `value.minus(integer).times(100).integerValue(ROUND_FLOOR)`: whole hundredths of the fraction. */
  function FloorCents(d: Decimal): (c: nat)
  {
    Shift(Low(d.mantissa, d.scale) * 100, d.scale)
  }

  /** The two floors are the largest whole units and whole hundredths that fit in the value. */
  lemma FloorSpec(d: Decimal)
    ensures FloorInt(d) * Pow10(d.scale) <= d.mantissa < (FloorInt(d) + 1) * Pow10(d.scale)
    ensures FloorCents(d) < 100
    ensures FloorCents(d) * Pow10(d.scale) <= 100 * (d.mantissa - FloorInt(d) * Pow10(d.scale)) < (FloorCents(d) + 1) * Pow10(d.scale)
  {
    var m, p := d.mantissa, Pow10(d.scale);
    ShiftLow(m, d.scale);
    var i, frac := FloorInt(d), Low(m, d.scale);
    MulSucc(i, p);
    ShiftLow(frac * 100, d.scale);
    var c := FloorCents(d);
    MulSucc(c, p);
    if c >= 100 {
      MulLe(100, c, p);
      assert false;
    }
  }

  /** At scale two the floors are the hundreds quotient and remainder of the mantissa. */
  lemma FloorAtScale2(m: nat)
    ensures FloorInt(Decimal(m, 2)) == m / 100
    ensures FloorCents(Decimal(m, 2)) == m % 100
  {
    assert Pow10(2) == 100;
    ShiftUnique(m, 2, m / 100, m % 100);
    ShiftUnique((m % 100) * 100, 2, m % 100, 0);
  }
}
