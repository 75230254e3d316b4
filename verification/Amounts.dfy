/** EncodeAmount: the fixed-width two's complement code of an amount at 18 decimal places. */
module Amounts {
  import opened Options
  import opened ByteCodes
  import opened Decimals

  const AMOUNT_SCALE: int := 18
  const AMOUNT_WIDTH: int := 16

  // ---------------------------------------------------------------- scaling

  /** big.Int.QuoRem: division truncated toward zero. */
  function Quo(a: int, b: int): (q: int)
    requires b > 0
  {
    if a >= 0 then a / b else -((-a) / b)
  }

  /** decimal.Truncate. */
  function Truncate(d: Decimal, places: int): (t: Decimal) {
    if places >= 0 && 0 - places > d.exp then Decimal(Quo(d.coeff, Pow10(0 - places - d.exp)), 0 - places) else d
  }

  /** `n` counts `d` in units of 10^-places. */
  ghost predicate InPlaces(d: Decimal, places: int, n: int) {
    Times(n, Unit(0 - places)) == Value(d)
  }

  lemma TruncateLoses(d: Decimal, places: int, n: int)
    requires places >= 0 && 0 - places > d.exp && InPlaces(d, places, n)
    ensures n == Truncate(d, places).coeff
  {
    CoarserUnits(d, 0 - places, n);
    QuoExact(d.coeff, Pow10(0 - places - d.exp), n);
  }

  /** Truncation leaves exactly the amounts alone that are whole at that many places. */
  lemma PrecisionExact(d: Decimal, places: int)
    requires places >= 0
    ensures Equal(d, Truncate(d, places)) <==> exists n :: InPlaces(d, places, n)
  {
    if 0 - places > d.exp {
      var t := Truncate(d, places);
      assert InPlaces(d, places, t.coeff) <==> Value(t) == Value(d);
      if n :| InPlaces(d, places, n) { TruncateLoses(d, places, n); }
    } else {
      assert InPlaces(d, places, Respelled(d, 0 - places));
    }
  }

  /** The amount in units of 10^-18, when rescaling loses nothing. */
  function Scaled(d: Decimal): (r: Result<int>) {
    var shift := AMOUNT_SCALE + d.exp;
    if shift >= 0 then Ok(d.coeff * Pow10(shift))
    else
      var q := Quo(d.coeff, Pow10(-shift));
      if d.coeff - q * Pow10(-shift) != 0 then Err else Ok(q)
  }

  /** `n` counts `d` in units of 10^-18. */
  ghost predicate InUnits(d: Decimal, n: int) {
    Times(n, Unit(-18)) == Value(d)
  }

  lemma UnitsUnique(d: Decimal, m: int, e: Decimal, n: int)
    requires InUnits(d, m) && InUnits(e, n)
    ensures m < n <==> Value(d) < Value(e)
    ensures m == n <==> Value(d) == Value(e)
  {
    CoefficientsOrder(m, n, Unit(-AMOUNT_SCALE), Value(d), Value(e));
  }

  lemma ScaledUp(d: Decimal)
    requires AMOUNT_SCALE + d.exp >= 0
    ensures InUnits(d, d.coeff * Pow10(AMOUNT_SCALE + d.exp))
  {
    var c := Respelled(d, -AMOUNT_SCALE);
    assert d.exp - -AMOUNT_SCALE == AMOUNT_SCALE + d.exp;
  }

  lemma ScaledDown(d: Decimal, n: int)
    requires AMOUNT_SCALE + d.exp < 0
    ensures InUnits(d, n) <==> d.coeff == n * Pow10(-AMOUNT_SCALE - d.exp)
  {
    CoarserUnits(d, -AMOUNT_SCALE, n);
  }

  lemma QuoExact(a: int, b: int, n: int)
    requires b > 0 && a == n * b
    ensures Quo(a, b) == n
  {
    QuotientUnique(Abs(a), b, Abs(n)) by {
      assert (-n) * b == -(n * b);
      assert n >= 0 ==> n * b >= 0;
      assert n <= 0 ==> n * b <= 0;
    }
    if a < 0 {
      assert n < 0;
    }
  }

  lemma QuotientUnique(a: nat, b: int, n: nat)
    requires b > 0 && a == n * b
    ensures a / b == n
  {
    DivisionUnique(a, b, n, 0);
  }

  /** Rescaling succeeds exactly on the values that are whole at 18 places, and then counts them. */
  lemma ScaledSpec(d: Decimal, n: int)
    ensures Scaled(d) == Ok(n) <==> InUnits(d, n)
  {
    if AMOUNT_SCALE + d.exp >= 0 {
      ScaledUp(d);
      if InUnits(d, n) { UnitsUnique(d, n, d, d.coeff * Pow10(AMOUNT_SCALE + d.exp)); }
    } else {
      var p := Pow10(-AMOUNT_SCALE - d.exp);
      ScaledDown(d, n);
      if InUnits(d, n) { QuoExact(d.coeff, p, n); }
    }
  }

  // ---------------------------------------------------------------- two's complement

  /** bigIntToFixedTwosComplement. */
  function TwosComplement(v: int, size: nat): (r: Result<Bytes>)
    ensures r.Ok? ==> |r.value| == size
  {
    var half := Pow256(size) / 2;
    if v >= half || v < -half then Err
    else Ok(BigEndian(if v >= 0 then v else Pow256(size) + v, size))
  }

  function FromTwosComplement(b: Bytes): (v: int) {
    var n := FromBigEndian(b);
    if n >= Pow256(|b|) / 2 then n - Pow256(|b|) else n
  }

  lemma FromTwosComplementInverts(v: int, size: nat)
    requires size > 0 && TwosComplement(v, size).Ok?
    ensures FromTwosComplement(TwosComplement(v, size).value) == v
  {
    assert Pow256(size) == 256 * Pow256(size - 1);
    FromBigEndianInverts(if v >= 0 then v else Pow256(size) + v, size);
  }

  /** Byte for byte: the digits base 256 of the value modulo 2^(8 size), the most significant first. */
  lemma TwosComplementDigits(v: int, size: nat, i: nat)
    requires i < size && TwosComplement(v, size).Ok?
    ensures TwosComplement(v, size).value[i] == v % Pow256(size) / Pow256(size - 1 - i) % 256
  {
    assert Pow256(size) == 256 * Pow256(size - 1);
    var n := if v >= 0 then v else Pow256(size) + v;
    BigEndianDigit(n, size, i);
    SameResidue(v, n, Pow256(size));
  }

  lemma SameResidue(v: int, n: nat, m: nat)
    requires n < m && (n == v || n == m + v)
    ensures v % m == n
  {
    if n == m + v { DivisionUnique(v, m, 0 - 1, n); }
  }

  /** big.Int.Bytes: the shortest big-endian spelling of a magnitude. */
  function MinimalBytes(n: nat): (b: Bytes) {
    if n == 0 then [] else MinimalBytes(n / 256) + [n % 256]
  }

  lemma {:induction false} PaddingMinimalBytes(n: nat, size: nat)
    requires n < Pow256(size)
    ensures |MinimalBytes(n)| <= size
    ensures Zeros(size - |MinimalBytes(n)|) + MinimalBytes(n) == BigEndian(n, size)
  {
    if n != 0 {
      PaddingMinimalBytes(n / 256, size - 1);
      var m := MinimalBytes(n / 256);
      assert Zeros(size - |m| - 1) + (m + [n % 256]) == (Zeros(size - 1 - |m|) + m) + [n % 256];
    } else if size > 0 {
      PaddingMinimalBytes(0, size - 1);
      assert Zeros(size) == Zeros(size - 1) + [0];
    }
  }

  /** bigIntToFixedTwosComplement as written: a zeroed array, filled from the right. */
  method FillTwosComplement(v: int, size: nat) returns (r: Result<Bytes>)
    requires size > 0
    ensures r == TwosComplement(v, size)
  {
    var half := Pow256(size) / 2;
    if v >= half || v < -half {
      return Err;
    }
    assert Pow256(size) == 256 * Pow256(size - 1);
    var magnitude := if v >= 0 then v else Pow256(size) + v;
    var b := MinimalBytes(magnitude);
    PaddingMinimalBytes(magnitude, size);
    var out := new Byte[size](_ => 0);
    var i := 0;
    while i < |b|
      invariant 0 <= i <= |b|
      invariant forall j :: 0 <= j < size - |b| ==> out[j] == 0
      invariant forall j :: 0 <= j < i ==> out[size - |b| + j] == b[j]
    {
      out[size - |b| + i] := b[i];
      i := i + 1;
    }
    assert out[..][..size - |b|] == Zeros(size - |b|);
    assert out[..][size - |b|..] == b;
    assert out[..] == Zeros(size - |b|) + b;
    r := Ok(out[..]);
  }

  // ---------------------------------------------------------------- EncodeAmount

  function EncodeAmount(d: Decimal): (r: Result<Bytes>)
    ensures r.Ok? ==> |r.value| == AMOUNT_WIDTH
  {
    if !Rescalable(d) then Err
    else match Scaled(d)
      case Err => Err
      case Ok(n) => TwosComplement(n, AMOUNT_WIDTH)
  }

  /** A rescalable amount that is whole at 18 places stays under 10^30 units. */
  lemma ScaledBound(d: Decimal)
    requires Rescalable(d) && Scaled(d).Ok?
    ensures Abs(Scaled(d).value) < Pow10(30)
  {
    var k := Digits(Abs(d.coeff));
    var shift := AMOUNT_SCALE + d.exp;
    if shift >= 0 {
      Pow10Adds(k, shift);
      Pow10Monotone(k + shift, 30);
      ScaleStrict(d.coeff, Pow10(k), Pow10(shift));
    } else {
      var n := Scaled(d).value;
      Pow10Monotone(k, 30 - shift);
      Pow10Adds(30, -shift);
      if Abs(n) >= Pow10(30) {
        ScaleBack(n, Pow10(30), Pow10(-shift));
        assert false;
      }
    }
  }

  lemma ScaleStrict(c: int, b: nat, p: nat)
    requires Abs(c) < b && p > 0
    ensures Abs(c * p) < b * p
  {
    if c >= 0 { assert c * p < b * p; } else { assert (-c) * p < b * p; assert c * p == -((-c) * p); }
  }

  lemma ScaleBack(n: int, b: nat, p: nat)
    requires Abs(n) >= b && p > 0
    ensures Abs(n * p) >= b * p
  {
    if n >= 0 { assert n * p >= b * p; } else { assert (-n) * p >= b * p; assert n * p == -((-n) * p); }
  }

  lemma TenTo30FitsIn127Bits()
    ensures Pow10(30) < Pow256(16) / 2
  {
    Pow256Values();
    assert Pow10(6) == 1_000_000;
    Pow10Adds(6, 6);
    Pow10Adds(12, 12);
    Pow10Adds(24, 6);
  }

  /** EncodeAmount succeeds exactly on rescalable amounts that are whole at 18 places (the range
      check behind it never fires), and the bytes decode to the value in units of 10^-18. */
  lemma EncodeAmountSpec(d: Decimal)
    ensures EncodeAmount(d).Ok? <==> Rescalable(d) && exists n :: InUnits(d, n)
    ensures EncodeAmount(d).Ok? ==> InUnits(d, FromTwosComplement(EncodeAmount(d).value))
  {
    if Rescalable(d) && Scaled(d).Ok? {
      ScaledSpec(d, Scaled(d).value);
      ScaledBound(d);
      TenTo30FitsIn127Bits();
      FromTwosComplementInverts(Scaled(d).value, AMOUNT_WIDTH);
    }
    forall n | InUnits(d, n) ensures Scaled(d).Ok? {
      ScaledSpec(d, n);
    }
  }

  /** On amounts that encode, equal bytes and equal values are the same thing. */
  lemma EncodeAmountFaithful(d: Decimal, e: Decimal)
    requires EncodeAmount(d).Ok? && EncodeAmount(e).Ok?
    ensures EncodeAmount(d) == EncodeAmount(e) <==> Value(d) == Value(e)
  {
    EncodeAmountSpec(d);
    EncodeAmountSpec(e);
    UnitsUnique(d, Scaled(d).value, e, Scaled(e).value) by {
      ScaledSpec(d, Scaled(d).value);
      ScaledSpec(e, Scaled(e).value);
    }
    FromTwosComplementInverts(Scaled(d).value, AMOUNT_WIDTH);
    FromTwosComplementInverts(Scaled(e).value, AMOUNT_WIDTH);
  }

  /** Every amount ValidateAmountMagnitude lets through encodes. */
  lemma StorableEncodes(d: Decimal)
    requires Storable(d)
    ensures EncodeAmount(d).Ok?
  {
    ScaledUp(d);
    EncodeAmountSpec(d);
  }
}
