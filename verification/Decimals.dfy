/** Arbitrary-precision decimals as (coefficient, exponent) pairs, so that two spellings of one
    value stay distinct, and the ledger's bounds on the amounts it computes with and stores. */
module Decimals {

  datatype Decimal = Decimal(coeff: int, exp: int)

  const ZERO := Decimal(0, 0)

  /** n units of size u. */
  function Times(n: int, u: real): real {
    n as real * u
  }

  /** The value a decimal denotes. */
  function Value(d: Decimal): real {
    Times(d.coeff, Unit(d.exp))
  }

  function Pow10(n: nat): (p: nat)
    ensures p > 0
  {
    if n == 0 then 1 else 10 * Pow10(n - 1)
  }

  /** 10^e as a rational. */
  function Unit(e: int): (u: real)
    ensures u > 0.0
    decreases Abs(e)
  {
    if e == 0 then 1.0 else if e > 0 then 10.0 * Unit(e - 1) else Unit(e + 1) / 10.0
  }

  lemma {:induction false} Pow10Adds(a: nat, b: nat)
    ensures Pow10(a + b) == Pow10(a) * Pow10(b)
  {
    if a > 0 {
      Pow10Adds(a - 1, b);
      assert Pow10(a + b) == 10 * Pow10(a - 1 + b);
    }
  }

  lemma Pow10Monotone(a: nat, b: nat)
    requires a <= b
    ensures Pow10(a) <= Pow10(b)
  {
    Pow10Adds(a, b - a);
    assert Pow10(a) * Pow10(b - a) >= Pow10(a) * 1;
  }

  lemma {:induction false} UnitShift(e: int, k: nat)
    ensures Unit(e + k) == Unit(e) * Pow10(k) as real
  {
    if k > 0 {
      UnitShift(e, k - 1);
      var u, p := Unit(e), Pow10(k - 1) as real;
      assert Unit(e + k) == 10.0 * Unit(e + (k - 1));
      assert 10.0 * (u * p) == u * (10.0 * p);
    }
  }

  // ---------------------------------------------------------------- arithmetic

  /** The coefficient of `d` respelled at a smaller exponent. */
  function Respelled(d: Decimal, e: int): (c: int)
    requires e <= d.exp
    ensures Times(c, Unit(e)) == Value(d)
  {
    UnitShift(e, d.exp - e);
    Regroup(d.coeff, Pow10(d.exp - e), Unit(e));
    d.coeff * Pow10(d.exp - e)
  }

  lemma TimesAdds(m: int, n: int, u: real)
    ensures Times(m + n, u) == Times(m, u) + Times(n, u)
  {
  }

  lemma TimesNegates(n: int, u: real)
    ensures Times(-n, u) == -Times(n, u)
  {
  }

  lemma Regroup(c: int, p: int, u: real)
    ensures Times(c * p, u) == Times(c, u * p as real)
  {
    var x, y: real := c as real, p as real;
    assert (c * p) as real == x * y;
    assert (x * y) * u == x * (u * y);
  }

  function MinExp(a: Decimal, b: Decimal): (e: int) {
    if a.exp <= b.exp then a.exp else b.exp
  }

  function Add(a: Decimal, b: Decimal): (r: Decimal)
    ensures Value(r) == Value(a) + Value(b)
  {
    var e := MinExp(a, b);
    var x, y := Respelled(a, e), Respelled(b, e);
    TimesAdds(x, y, Unit(e));
    Decimal(x + y, e)
  }

  function Neg(d: Decimal): (r: Decimal)
    ensures Value(r) == -Value(d)
  {
    TimesNegates(d.coeff, Unit(d.exp));
    Decimal(-d.coeff, d.exp)
  }

  predicate Less(a: Decimal, b: Decimal)
    ensures Less(a, b) <==> Value(a) < Value(b)
  {
    CompareAligned(a, b);
    Respelled(a, MinExp(a, b)) < Respelled(b, MinExp(a, b))
  }

  predicate Equal(a: Decimal, b: Decimal)
    ensures Equal(a, b) <==> Value(a) == Value(b)
  {
    CompareAligned(a, b);
    Respelled(a, MinExp(a, b)) == Respelled(b, MinExp(a, b))
  }

  predicate IsZero(d: Decimal)
    ensures IsZero(d) <==> Value(d) == 0.0
  {
    CoefficientsOrder(d.coeff, 0, Unit(d.exp), Value(d), 0.0);
    d.coeff == 0
  }

  predicate IsNegative(d: Decimal)
    ensures IsNegative(d) <==> Value(d) < 0.0
  {
    CoefficientsOrder(d.coeff, 0, Unit(d.exp), Value(d), 0.0);
    d.coeff < 0
  }

  predicate IsPositive(d: Decimal)
    ensures IsPositive(d) <==> Value(d) > 0.0
  {
    CoefficientsOrder(0, d.coeff, Unit(d.exp), 0.0, Value(d));
    d.coeff > 0
  }

  lemma CompareAligned(a: Decimal, b: Decimal)
    ensures Respelled(a, MinExp(a, b)) < Respelled(b, MinExp(a, b)) <==> Value(a) < Value(b)
    ensures Respelled(a, MinExp(a, b)) == Respelled(b, MinExp(a, b)) <==> Value(a) == Value(b)
  {
    var e := MinExp(a, b);
    CoefficientsOrder(Respelled(a, e), Respelled(b, e), Unit(e), Value(a), Value(b));
  }

  lemma CoefficientsOrder(x: int, y: int, u: real, v: real, w: real)
    requires u > 0.0 && Times(x, u) == v && Times(y, u) == w
    ensures x < y <==> v < w
    ensures x == y <==> v == w
  {
    assert (y - x) as real * u == w - v;
    if x < y {
      assert (y - x) as real * u > 0.0;
    } else if y < x {
      assert (y - x) as real * u < 0.0;
    }
  }

  /** n units of a coarser exponent make up d exactly when the coefficients say so. */
  lemma CoarserUnits(d: Decimal, e: int, n: int)
    requires e > d.exp
    ensures Times(n, Unit(e)) == Value(d) <==> d.coeff == n * Pow10(e - d.exp)
  {
    var c := Respelled(Decimal(n, e), d.exp);
    CoefficientsOrder(d.coeff, c, Unit(d.exp), Value(d), Value(Decimal(n, e)));
  }

  // ---------------------------------------------------------------- amount limits

  const MAX_INTEGER_DIGITS: int := 30 - 18
  const MAX_FRACTIONAL_DIGITS: int := 18
  const MAX_WORKING_DIGITS: int := 2 * MAX_FRACTIONAL_DIGITS

  function Abs(n: int): (a: nat) {
    if n < 0 then -n else n
  }

  /** The length of the decimal rendering of a coefficient without its sign. */
  function Digits(n: nat): (k: nat)
    ensures k > 0
    ensures n < Pow10(k)
    ensures n > 0 ==> Pow10(k - 1) <= n
  {
    if n < 10 then 1 else 1 + Digits(n / 10)
  }

  /** validateAmountIsRescalable accepts. */
  predicate Rescalable(d: Decimal) {
    && -MAX_WORKING_DIGITS <= d.exp <= MAX_INTEGER_DIGITS
    && Digits(Abs(d.coeff)) + d.exp <= MAX_INTEGER_DIGITS
  }

  /** ValidateAmountMagnitude accepts. */
  predicate Storable(d: Decimal) {
    && -MAX_FRACTIONAL_DIGITS <= d.exp <= MAX_INTEGER_DIGITS
    && Digits(Abs(d.coeff)) + d.exp <= MAX_INTEGER_DIGITS
  }

  lemma ShiftedUnits(e: int, k: nat)
    ensures Unit(e + k) == Times(Pow10(k), Unit(e))
  {
    UnitShift(e, k);
  }

  lemma UnitOrder(a: int, b: int)
    requires a <= b
    ensures Unit(a) <= Unit(b)
  {
    ShiftedUnits(a, b - a);
    CoefficientsOrder(Pow10(b - a), 1, Unit(a), Unit(b), Unit(a));
  }

  lemma {:induction false} UnitAt12()
    ensures Unit(12) == 1_000_000_000_000.0
  {
    assert Unit(4) == 10_000.0;
    UnitShift(4, 4);
    UnitShift(8, 4);
    assert Pow10(4) == 10_000;
  }

  lemma FewDigits(c: nat, k: nat, e: int)
    requires c < Pow10(k) && k + e <= 12
    ensures Times(c, Unit(e)) < Unit(12)
  {
    ShiftedUnits(e, k);
    CoefficientsOrder(c, Pow10(k), Unit(e), Times(c, Unit(e)), Unit(e + k));
    UnitOrder(e + k, 12);
  }

  lemma ManyDigits(c: nat, k: nat, e: int)
    requires Pow10(k) <= c && k + e >= 12
    ensures Unit(12) <= Times(c, Unit(e))
  {
    ShiftedUnits(e, k);
    CoefficientsOrder(c, Pow10(k), Unit(e), Times(c, Unit(e)), Unit(e + k));
    UnitOrder(12, e + k);
  }

  /** A non-zero number has few enough integer digits exactly when it is below 10^12. */
  lemma {:induction false} IntegerDigits(c: nat, e: int)
    requires c > 0
    ensures Digits(c) + e <= 12 <==> Times(c, Unit(e)) < 1_000_000_000_000.0
  {
    var k := Digits(c);
    UnitAt12();
    if k + e <= 12 { FewDigits(c, k, e); } else { ManyDigits(c, k - 1, e); }
  }

  lemma MagnitudeOf(d: Decimal)
    ensures Times(Abs(d.coeff), Unit(d.exp)) == if Value(d) < 0.0 then -Value(d) else Value(d)
  {
    TimesNegates(d.coeff, Unit(d.exp));
    CoefficientsOrder(d.coeff, 0, Unit(d.exp), Value(d), 0.0);
  }

  /** What the two checks accept, by value: a non-zero amount below 10^12 either way, spelled with at most
      18 fractional digits to be stored and 36 to be computed with; a zero, with an exponent below 12. */
  lemma MagnitudeExact(d: Decimal)
    ensures d.coeff != 0 ==>
              (Storable(d) <==> -18 <= d.exp <= 12 && -1_000_000_000_000.0 < Value(d) < 1_000_000_000_000.0)
    ensures d.coeff != 0 ==>
              (Rescalable(d) <==> -36 <= d.exp <= 12 && -1_000_000_000_000.0 < Value(d) < 1_000_000_000_000.0)
    ensures d.coeff == 0 ==> (Storable(d) <==> -18 <= d.exp < 12) && (Rescalable(d) <==> -36 <= d.exp < 12)
  {
    if d.coeff != 0 {
      IntegerDigits(Abs(d.coeff), d.exp);
      MagnitudeOf(d);
    }
  }
}
