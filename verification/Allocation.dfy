/** Allocate: largest-remainder splitting of an amount in exact rational arithmetic. */
module Allocation {
  import opened Options
  import opened Decimals
  import opened Amounts
  import opened Sequences

  // ---------------------------------------------------------------- inputs

  /** Abs().Shift(places).BigInt(): the magnitude in units of 10^-places. */
  function AbsUnits(d: Decimal, places: int): (u: nat) {
    if d.exp + places >= 0 then Product(Abs(d.coeff), Pow10(d.exp + places))
    else Over(Abs(d.coeff), Pow10(0 - d.exp - places))
  }

  function Product(a: nat, b: nat): (p: nat)
    ensures p == a * b
  {
    assert a * b >= 0;
    a * b
  }

  function Over(a: nat, b: nat): (q: nat)
    requires b > 0
    ensures q == Quo(a, b)
  {
    a / b
  }

  function SignedUnits(d: Decimal, places: int): int {
    if d.coeff < 0 then 0 - AbsUnits(d, places) else AbsUnits(d, places)
  }

  lemma TruncateCounts(d: Decimal, places: int, n: int)
    requires places >= 0 && 0 - places > d.exp && InPlaces(d, places, n)
    ensures n == SignedUnits(d, places)
  {
    TruncateLoses(d, places, n);
  }

  /** The check on total accepts exactly the values that are whole at `places` places, and the unit
      count is then exact. */
  lemma TotalInUnits(d: Decimal, places: int)
    requires places >= 0
    ensures Equal(d, Truncate(d, places)) <==> exists n :: InPlaces(d, places, n)
    ensures Equal(d, Truncate(d, places)) ==> InPlaces(d, places, SignedUnits(d, places))
  {
    PrecisionExact(d, places);
    if 0 - places <= d.exp {
      WholeAlready(d, places);
    } else if n :| InPlaces(d, places, n) {
      TruncateCounts(d, places, n);
    }
  }

  lemma WholeAlready(d: Decimal, places: int)
    requires 0 - places <= d.exp
    ensures InPlaces(d, places, SignedUnits(d, places))
  {
    var c := Respelled(d, 0 - places);
    var p := Pow10(d.exp + places);
    assert c == d.coeff * p;
    if d.coeff < 0 {
      assert c == 0 - Abs(d.coeff) * p;
    }
  }

  // ---------------------------------------------------------------- exact shares

  function SumInt(s: seq<int>): int {
    if |s| == 0 then 0 else SumInt(s[..|s| - 1]) + s[|s| - 1]
  }

  ghost predicate Weights(ws: seq<real>) {
    (forall i :: 0 <= i < |ws| ==> ws[i] >= 0.0) && Sum(ws) > 0.0
  }

  /** x is u * w / total. */
  ghost predicate Proportional(x: real, u: nat, w: real, total: real) {
    x >= 0.0 && x * total == Times(u, w)
  }

  /** xs are the exact shares of u units. */
  ghost predicate Exact(u: nat, ws: seq<real>, xs: seq<real>) {
    |xs| == |ws| && forall i :: 0 <= i < |xs| ==> Proportional(xs[i], u, ws[i], Sum(ws))
  }

  function Floors(xs: seq<real>): (fs: seq<int>)
    ensures |fs| == |xs| && forall i :: 0 <= i < |xs| ==> fs[i] == xs[i].Floor
  {
    seq(|xs|, i requires 0 <= i < |xs| => xs[i].Floor)
  }

  function Remainder(x: real): (r: real)
    ensures 0.0 <= r < 1.0
  {
    x - x.Floor as real
  }

  lemma DistinctProducts(a: real, b: real, c: real)
    requires a != b && c > 0.0
    ensures a * c != b * c
  {
    assert a * c - b * c == (a - b) * c;
  }

  lemma RealCancel(a: real, b: real, c: real)
    requires c > 0.0 && a * c == b * c
    ensures a == b
  {
    if a != b { DistinctProducts(a, b, c); }
  }

  lemma {:induction false} SumScales(xs: seq<real>, ws: seq<real>, n: real, total: real)
    requires |xs| == |ws| && forall i :: 0 <= i < |xs| ==> xs[i] * total == n * ws[i]
    ensures Sum(xs) * total == n * Sum(ws)
  {
    if |xs| > 0 {
      var m := |xs| - 1;
      SumScales(xs[..m], ws[..m], n, total);
      var a, b, c, d := Sum(xs[..m]), xs[m], Sum(ws[..m]), ws[m];
      assert (a + b) * total == a * total + b * total;
      assert n * (c + d) == n * c + n * d;
    }
  }

  lemma {:induction false} ExactScales(u: nat, ws: seq<real>, xs: seq<real>)
    requires Exact(u, ws, xs)
    ensures Sum(xs) * Sum(ws) == u as real * Sum(ws)
  {
    forall i | 0 <= i < |xs| ensures xs[i] * Sum(ws) == u as real * ws[i] {
      assert Proportional(xs[i], u, ws[i], Sum(ws));
    }
    SumScales(xs, ws, u as real, Sum(ws));
  }

  /** Exact shares add up to the whole. */
  lemma {:induction false} ExactConserves(u: nat, ws: seq<real>, xs: seq<real>)
    requires Weights(ws) && Exact(u, ws, xs)
    ensures Sum(xs) == u as real
  {
    ExactScales(u, ws, xs);
    RealCancel(Sum(xs), u as real, Sum(ws));
  }

  function PositiveRemainders(xs: seq<real>): (k: nat)
    ensures k <= |xs|
  {
    if |xs| == 0 then 0
    else PositiveRemainders(xs[..|xs| - 1]) + if Remainder(xs[|xs| - 1]) > 0.0 then 1 else 0
  }

  lemma {:induction false} FractionBounds(xs: seq<real>)
    ensures 0.0 <= Sum(xs) - SumInt(Floors(xs)) as real <= PositiveRemainders(xs) as real
    ensures PositiveRemainders(xs) > 0 ==> Sum(xs) - SumInt(Floors(xs)) as real < PositiveRemainders(xs) as real
  {
    if |xs| > 0 {
      var n := |xs| - 1;
      FractionBounds(xs[..n]);
      assert Floors(xs)[..n] == Floors(xs[..n]);
    }
  }

  /** What the floors leave over. */
  ghost function Leftover(u: nat, xs: seq<real>): int {
    u - SumInt(Floors(xs))
  }

  /** The leftover is smaller than the number of weights and at most the number of positive
      remainders, so one unit per position always suffices. */
  lemma LeftoverSmall(u: nat, ws: seq<real>, xs: seq<real>)
    requires |ws| > 0 && Weights(ws) && Exact(u, ws, xs)
    ensures 0 <= Leftover(u, xs) < |ws|
    ensures Leftover(u, xs) <= PositiveRemainders(xs)
  {
    ExactConserves(u, ws, xs);
    FractionBounds(xs);
  }

  // ---------------------------------------------------------------- who gets the leftover

  /** i is served before j: a larger remainder first, then the earlier position. */
  ghost predicate Before(xs: seq<real>, i: nat, j: nat)
    requires i < |xs| && j < |xs|
  {
    Remainder(xs[i]) > Remainder(xs[j]) || (Remainder(xs[i]) == Remainder(xs[j]) && i < j)
  }

  /** A set of positions served in that order. */
  ghost predicate Served(xs: seq<real>, winners: set<nat>) {
    && (forall i :: i in winners ==> i < |xs|)
    && (forall i: nat, j: nat :: j in winners && i < |xs| && Before(xs, i, j) ==> i in winners)
  }

  /** As many as a given number can be served in one way only. */
  lemma ServedOnce(xs: seq<real>, a: set<nat>, b: set<nat>)
    requires Served(xs, a) && Served(xs, b) && |a| == |b|
    ensures a == b
  {
    if i :| i in a && i !in b {
      ServedNested(xs, a, b, i);
      assert b < a;
      ProperSubsetSmaller(b, a);
    } else if i :| i in b && i !in a {
      ServedNested(xs, b, a, i);
      assert a < b;
      ProperSubsetSmaller(a, b);
    }
  }

  lemma ServedNested(xs: seq<real>, a: set<nat>, b: set<nat>, i: nat)
    requires Served(xs, a) && Served(xs, b) && i in a && i !in b
    ensures b <= a
  {
    forall j | j in b ensures j in a {
      assert !Before(xs, i, j);
      assert Before(xs, j, i);
    }
  }

  lemma ProperSubsetSmaller(a: set<nat>, b: set<nat>)
    requires a < b
    ensures |a| < |b|
  {
    assert b == a + (b - a);
    assert |b - a| > 0;
  }

  function Share(xs: seq<real>, winners: set<nat>, i: nat): int
    requires i < |xs|
  {
    xs[i].Floor + if i in winners then 1 else 0
  }

  ghost function Shares(xs: seq<real>, winners: set<nat>): (s: seq<int>)
    ensures |s| == |xs| && forall i :: 0 <= i < |xs| ==> s[i] == Share(xs, winners, i)
  {
    seq(|xs|, i requires 0 <= i < |xs| => Share(xs, winners, i))
  }

  lemma {:induction false} SharesSum(xs: seq<real>, winners: set<nat>)
    requires forall i :: i in winners ==> i < |xs|
    ensures SumInt(Shares(xs, winners)) == SumInt(Floors(xs)) + |winners|
  {
    if |xs| == 0 {
      assert winners == {};
    } else {
      var n := |xs| - 1;
      var rest := winners - {n};
      SharesSum(xs[..n], rest);
      assert Floors(xs)[..n] == Floors(xs[..n]);
      assert Shares(xs, winners)[..n] == Shares(xs[..n], rest);
      assert winners == if n in winners then rest + {n} else rest;
    }
  }

  // ---------------------------------------------------------------- the split in units

  /** The largest-remainder split of u units: floors of the exact shares, plus one unit for each of
      the first `Leftover` positions by remainder and then by position. */
  ghost predicate UnitSplit(u: nat, ws: seq<real>, xs: seq<real>, winners: set<nat>, units: seq<int>) {
    && Weights(ws) && Exact(u, ws, xs)
    && Served(xs, winners) && |winners| == Leftover(u, xs)
    && units == Shares(xs, winners)
  }

  /** No unit is lost or made. */
  lemma SplitConserves(u: nat, ws: seq<real>, xs: seq<real>, winners: set<nat>, units: seq<int>)
    requires UnitSplit(u, ws, xs, winners, units)
    ensures SumInt(units) == u
  {
    SharesSum(xs, winners);
  }

  lemma {:induction false} PositiveCount(xs: seq<real>, positive: set<nat>)
    requires positive == set i | 0 <= i < |xs| && Remainder(xs[i]) > 0.0
    ensures |positive| == PositiveRemainders(xs)
  {
    if |xs| > 0 {
      var n := |xs| - 1;
      var rest := set i | 0 <= i < n && Remainder(xs[..n][i]) > 0.0;
      PositiveCount(xs[..n], rest);
      assert positive == if Remainder(xs[n]) > 0.0 then rest + {n} else rest;
    }
  }

  /** Only positions with a positive remainder are ever served. */
  lemma ServedHavePositiveRemainder(xs: seq<real>, winners: set<nat>, i: nat)
    requires Served(xs, winners) && |winners| <= PositiveRemainders(xs) && i in winners
    ensures Remainder(xs[i]) > 0.0
  {
    if Remainder(xs[i]) == 0.0 {
      var positive := set j: nat | j < |xs| && Remainder(xs[j]) > 0.0;
      PositiveCount(xs, positive);
      assert positive < winners by {
        forall j | j in positive ensures j in winners { assert Before(xs, j, i); }
      }
      ProperSubsetSmaller(positive, winners);
    }
  }

  /** Each share is the floor of the exact share or one unit more, the exact share itself when that
      is whole, and zero for a zero weight. */
  lemma SplitProportional(u: nat, ws: seq<real>, xs: seq<real>, winners: set<nat>, units: seq<int>, i: nat)
    requires UnitSplit(u, ws, xs, winners, units) && i < |ws|
    ensures 0 <= xs[i].Floor <= units[i] <= xs[i].Floor + 1
    ensures Remainder(xs[i]) == 0.0 ==> units[i] as real == xs[i]
    ensures ws[i] == 0.0 ==> units[i] == 0
  {
    LeftoverSmall(u, ws, xs);
    if i in winners { ServedHavePositiveRemainder(xs, winners, i); }
    if ws[i] == 0.0 { RealCancel(xs[i], 0.0, Sum(ws)); }
  }

  lemma {:induction false} ExactMonotone(u: nat, ws: seq<real>, xs: seq<real>, i: nat, j: nat)
    requires Weights(ws) && Exact(u, ws, xs) && i < |ws| && j < |ws| && ws[i] >= ws[j]
    ensures xs[i] >= xs[j]
    ensures u > 0 && ws[i] > ws[j] ==> xs[i] > xs[j]
  {
    assert Proportional(xs[i], u, ws[i], Sum(ws)) && Proportional(xs[j], u, ws[j], Sum(ws));
    ShareOrder(u, ws[i], ws[j], xs[i], xs[j], Sum(ws));
  }

  lemma ShareOrder(u: nat, a: real, b: real, x: real, y: real, total: real)
    requires total > 0.0 && a >= b && Proportional(x, u, a, total) && Proportional(y, u, b, total)
    ensures x >= y
    ensures u > 0 && a > b ==> x > y
  {
    TimesOrder(u, a, b);
    QuotientOrder(x, y, total);
  }

  lemma TimesOrder(u: nat, a: real, b: real)
    requires a >= b
    ensures Times(u, a) >= Times(u, b)
    ensures u > 0 && a > b ==> Times(u, a) > Times(u, b)
  {
    ProductOrder(u as real, a, b);
  }

  lemma ProductOrder(n: real, a: real, b: real)
    requires n >= 0.0 && a >= b
    ensures n * a >= n * b
    ensures n > 0.0 && a > b ==> n * a > n * b
  {
    assert n * a - n * b == n * (a - b);
  }

  lemma QuotientOrder(x: real, y: real, t: real)
    requires t > 0.0
    ensures x * t >= y * t ==> x >= y
    ensures x * t > y * t ==> x > y
  {
    if x <= y {
      ProductOrder(t, y, x);
      assert t * y == y * t && t * x == x * t;
    }
  }

  /** A larger weight never gets the smaller share, and of equal weights the earlier position never
      does. */
  lemma SplitMonotone(u: nat, ws: seq<real>, xs: seq<real>, winners: set<nat>, units: seq<int>, i: nat, j: nat)
    requires UnitSplit(u, ws, xs, winners, units) && i < |ws| && j < |ws|
    requires ws[i] > ws[j] || (ws[i] == ws[j] && i < j)
    ensures units[i] >= units[j]
  {
    ExactMonotone(u, ws, xs, i, j);
    if ws[i] == ws[j] { ExactMonotone(u, ws, xs, j, i); }
    if u == 0 {
      SplitOfZero(ws, xs, winners, units);
    } else if xs[i].Floor == xs[j].Floor && j in winners {
      assert Before(xs, i, j);
    }
  }

  lemma SplitOfZero(ws: seq<real>, xs: seq<real>, winners: set<nat>, units: seq<int>)
    requires UnitSplit(0, ws, xs, winners, units)
    ensures forall k :: 0 <= k < |units| ==> units[k] == 0
  {
    forall k | 0 <= k < |xs| ensures xs[k] == 0.0 { RealCancel(xs[k], 0.0, Sum(ws)); }
    AllZero(xs);
  }

  lemma {:induction false} AllZero(xs: seq<real>)
    requires forall k :: 0 <= k < |xs| ==> xs[k] == 0.0
    ensures SumInt(Floors(xs)) == 0
  {
    if |xs| > 0 {
      AllZero(xs[..|xs| - 1]);
      assert Floors(xs)[..|xs| - 1] == Floors(xs[..|xs| - 1]);
    }
  }

  /** Inputs determine the split. */
  lemma SplitUnique(u: nat, ws: seq<real>, xs: seq<real>, winners: set<nat>, units: seq<int>,
                    xs': seq<real>, winners': set<nat>, units': seq<int>)
    requires UnitSplit(u, ws, xs, winners, units) && UnitSplit(u, ws, xs', winners', units')
    ensures units == units'
  {
    forall i | 0 <= i < |xs| ensures xs[i] == xs'[i] { RealCancel(xs[i], xs'[i], Sum(ws)); }
    assert xs == xs';
    ServedOnce(xs, winners, winners');
  }

  // ---------------------------------------------------------------- the split of an amount

  function Values(ds: seq<Decimal>): (vs: seq<real>)
    ensures |vs| == |ds| && forall i :: 0 <= i < |ds| ==> vs[i] == Value(ds[i])
  {
    Map(Value, ds)
  }

  /** What Allocate accepts. */
  ghost predicate Allocatable(total: Decimal, weights: seq<Decimal>, places: int) {
    && |weights| > 0
    && 0 <= places <= 36
    && Rescalable(total)
    && (exists n :: InPlaces(total, places, n))
    && (forall i :: 0 <= i < |weights| ==> Rescalable(weights[i]))
    && Weights(Values(weights))
  }

  function SignedShare(negative: bool, units: int, places: int): (d: Decimal)
    ensures d.exp == 0 - places && d.coeff == if negative then 0 - units else units
  {
    if negative then Neg(Decimal(units, 0 - places)) else Decimal(units, 0 - places)
  }

  /** Shares spelled at `places` places with the sign of the total, from a split of its magnitude. */
  ghost predicate IsSplit(total: Decimal, weights: seq<Decimal>, places: int, shares: seq<Decimal>) {
    exists xs, winners, units ::
      && UnitSplit(AbsUnits(total, places), Values(weights), xs, winners, units)
      && Spelled(total, units, places, shares)
  }

  ghost predicate Spelled(total: Decimal, units: seq<int>, places: int, shares: seq<Decimal>) {
    |shares| == |units| && forall i :: 0 <= i < |units| ==> shares[i] == SignedShare(total.coeff < 0, units[i], places)
  }

  function Signed(negative: bool, x: real): real {
    if negative then -x else x
  }

  lemma ShareValue(negative: bool, units: int, places: int)
    ensures Value(SignedShare(negative, units, places)) == Signed(negative, Times(units, Unit(0 - places)))
  {
    TimesNegates(units, Unit(0 - places));
  }

  lemma {:induction false} SignedSum(negative: bool, units: seq<int>, u: real, vs: seq<real>)
    requires |vs| == |units| && forall i :: 0 <= i < |units| ==> vs[i] == Signed(negative, Times(units[i], u))
    ensures Sum(vs) == Signed(negative, Times(SumInt(units), u))
  {
    if |units| > 0 {
      var m := |units| - 1;
      SignedSum(negative, units[..m], u, vs[..m]);
      TimesAdds(SumInt(units[..m]), units[m], u);
    }
  }

  lemma SplitOf(total: Decimal, weights: seq<Decimal>, places: int, shares: seq<Decimal>)
    returns (xs: seq<real>, winners: set<nat>, units: seq<int>)
    requires IsSplit(total, weights, places, shares)
    ensures UnitSplit(AbsUnits(total, places), Values(weights), xs, winners, units)
    ensures Spelled(total, units, places, shares) && |units| == |weights|
  {
    xs, winners, units :|
      && UnitSplit(AbsUnits(total, places), Values(weights), xs, winners, units)
      && Spelled(total, units, places, shares);
  }

  lemma SpelledSum(total: Decimal, units: seq<int>, places: int, shares: seq<Decimal>)
    requires Spelled(total, units, places, shares)
    ensures Sum(Values(shares)) == Signed(total.coeff < 0, Times(SumInt(units), Unit(0 - places)))
  {
    var vs := Values(shares);
    forall i | 0 <= i < |units| ensures vs[i] == Signed(total.coeff < 0, Times(units[i], Unit(0 - places))) {
      ShareValue(total.coeff < 0, units[i], places);
    }
    SignedSum(total.coeff < 0, units, Unit(0 - places), vs);
  }

  lemma UnitsOfTotal(total: Decimal, places: int)
    requires places >= 0 && exists n :: InPlaces(total, places, n)
    ensures Signed(total.coeff < 0, Times(AbsUnits(total, places), Unit(0 - places))) == Value(total)
  {
    TotalInUnits(total, places);
    TimesNegates(AbsUnits(total, places), Unit(0 - places));
  }

  /** The shares add up to exactly the total. */
  lemma AllocationConserves(total: Decimal, weights: seq<Decimal>, places: int, shares: seq<Decimal>)
    requires Allocatable(total, weights, places) && IsSplit(total, weights, places, shares)
    ensures Sum(Values(shares)) == Value(total)
  {
    var xs, winners, units := SplitOf(total, weights, places, shares);
    SplitConserves(AbsUnits(total, places), Values(weights), xs, winners, units);
    SpelledSum(total, units, places, shares);
    UnitsOfTotal(total, places);
  }

  /** Negating the total negates every share. */
  lemma AllocationOfNegation(total: Decimal, weights: seq<Decimal>, places: int, shares: seq<Decimal>, shares': seq<Decimal>)
    requires IsSplit(total, weights, places, shares) && IsSplit(Neg(total), weights, places, shares')
    ensures |shares| == |shares'| && forall i :: 0 <= i < |shares| ==> shares'[i] == Neg(shares[i])
  {
    var u, vs := AbsUnits(total, places), Values(weights);
    assert AbsUnits(Neg(total), places) == u;
    var xs, winners, units := SplitOf(total, weights, places, shares);
    var xs', winners', units' := SplitOf(Neg(total), weights, places, shares');
    SplitUnique(u, vs, xs, winners, units, xs', winners', units');
    if total.coeff == 0 { SplitOfZero(vs, xs, winners, units); }
  }

  /** Every share is its exact proportion x of the total, rounded down or up to a whole number n of
      units and on the total's side of zero; a whole proportion is met exactly, a zero weight gets
      zero. */
  lemma AllocationProportional(total: Decimal, weights: seq<Decimal>, places: int, shares: seq<Decimal>, i: nat)
    returns (x: real, n: int)
    requires IsSplit(total, weights, places, shares) && i < |weights|
    ensures Proportional(x, AbsUnits(total, places), Value(weights[i]), Sum(Values(weights)))
    ensures |shares| == |weights| && shares[i] == SignedShare(total.coeff < 0, n, places)
    ensures 0 <= x.Floor <= n <= x.Floor + 1
    ensures Remainder(x) == 0.0 ==> n as real == x
    ensures Value(weights[i]) == 0.0 ==> n == 0
  {
    var xs, winners, units := SplitOf(total, weights, places, shares);
    SplitProportional(AbsUnits(total, places), Values(weights), xs, winners, units, i);
    x, n := xs[i], units[i];
  }

  /** Larger weights never get the smaller share, nor do earlier positions among equal weights. */
  lemma AllocationOrdered(total: Decimal, weights: seq<Decimal>, places: int, shares: seq<Decimal>, i: nat, j: nat)
    requires IsSplit(total, weights, places, shares) && i < |weights| && j < |weights|
    requires Value(weights[i]) > Value(weights[j]) || (Value(weights[i]) == Value(weights[j]) && i < j)
    ensures |shares| == |weights|
    ensures Abs(shares[i].coeff) >= Abs(shares[j].coeff)
  {
    var u, vs := AbsUnits(total, places), Values(weights);
    var xs, winners, units := SplitOf(total, weights, places, shares);
    SplitMonotone(u, vs, xs, winners, units, i, j);
    SplitProportional(u, vs, xs, winners, units, j);
  }

  /** Rounded up while another share that is not whole is rounded down: the larger fraction, or the same
      fraction and the earlier position. */
  ghost predicate RoundedUpFirst(xs: seq<real>, counts: seq<int>, i: nat, j: nat)
    requires i < |xs| == |counts| && j < |xs|
  {
    var f, g := xs[i] - xs[i].Floor as real, xs[j] - xs[j].Floor as real;
    counts[i] == xs[i].Floor + 1 && counts[j] == xs[j].Floor && g > 0.0 ==> f > g || (f == g && i < j)
  }

  lemma UnitsRoundedUpFirst(xs: seq<real>, winners: set<nat>, units: seq<int>, i: nat, j: nat)
    requires Served(xs, winners) && units == Shares(xs, winners) && i < |xs| && j < |xs|
    ensures RoundedUpFirst(xs, units, i, j)
  {
    assert Before(xs, i, j) || Before(xs, j, i) || i == j;
  }

  /** Who is rounded up. The total is u units either way, each share is its exact proportion x of them
      rounded down or up, and the fractions decide, largest first and then the earliest. */
  lemma {:induction false} AllocationByRemainder(total: Decimal, weights: seq<Decimal>, places: int, shares: seq<Decimal>)
    returns (u: nat, xs: seq<real>, counts: seq<int>)
    requires Allocatable(total, weights, places) && IsSplit(total, weights, places, shares)
    ensures Times(u, Unit(0 - places)) == if Value(total) < 0.0 then -Value(total) else Value(total)
    ensures |xs| == |weights| == |shares| == |counts|
    ensures forall i :: 0 <= i < |xs| ==> Proportional(xs[i], u, Value(weights[i]), Sum(Values(weights)))
    ensures forall i :: 0 <= i < |xs| ==>
              shares[i] == Decimal(if Value(total) < 0.0 then 0 - counts[i] else counts[i], 0 - places)
    ensures forall i :: 0 <= i < |xs| ==> counts[i] in {xs[i].Floor, xs[i].Floor + 1}
    ensures forall i, j :: 0 <= i < |xs| && 0 <= j < |xs| ==> RoundedUpFirst(xs, counts, i, j)
  {
    var winners;
    u := AbsUnits(total, places);
    xs, winners, counts := SplitOf(total, weights, places, shares);
    TotalMagnitude(total, places);
    SharesOfUnits(total, weights, places, shares, xs, winners, counts);
    forall i, j | 0 <= i < |xs| && 0 <= j < |xs| ensures RoundedUpFirst(xs, counts, i, j) {
      UnitsRoundedUpFirst(xs, winners, counts, i, j);
    }
  }

  lemma TotalMagnitude(total: Decimal, places: int)
    requires places >= 0 && exists n :: InPlaces(total, places, n)
    ensures Times(AbsUnits(total, places), Unit(0 - places)) == if Value(total) < 0.0 then -Value(total) else Value(total)
  {
    UnitsOfTotal(total, places);
    CoefficientsOrder(total.coeff, 0, Unit(total.exp), Value(total), 0.0);
  }

  lemma {:induction false} SharesOfUnits(total: Decimal, weights: seq<Decimal>, places: int, shares: seq<Decimal>, xs: seq<real>,
                      winners: set<nat>, units: seq<int>)
    requires UnitSplit(AbsUnits(total, places), Values(weights), xs, winners, units) && Spelled(total, units, places, shares)
    ensures |xs| == |weights| == |shares| == |units|
    ensures forall i :: 0 <= i < |xs| ==>
              shares[i] == Decimal(if Value(total) < 0.0 then 0 - units[i] else units[i], 0 - places)
    ensures forall i :: 0 <= i < |xs| ==> units[i] in {xs[i].Floor, xs[i].Floor + 1}
    ensures forall i :: 0 <= i < |xs| ==> Proportional(xs[i], AbsUnits(total, places), Value(weights[i]), Sum(Values(weights)))
  {
    CoefficientsOrder(total.coeff, 0, Unit(total.exp), Value(total), 0.0);
    forall i | 0 <= i < |xs| ensures units[i] in {xs[i].Floor, xs[i].Floor + 1} {
      SplitProportional(AbsUnits(total, places), Values(weights), xs, winners, units, i);
    }
  }

  // ---------------------------------------------------------------- as computed

  datatype Alloc = Alloc(idx: nat, floor: int, remainder: real)

  predicate ServedFirst(a: Alloc, b: Alloc) {
    a.remainder > b.remainder || (a.remainder == b.remainder && a.idx < b.idx)
  }

  lemma ServingIsWeakOrder()
    ensures WeakOrder(ServedFirst)
  {
    forall a, b, c | !ServedFirst(b, a) && !ServedFirst(c, b) ensures !ServedFirst(c, a) {
    }
  }

  /** The allocations in input order. */
  ghost function Listing(xs: seq<real>): (s: seq<Alloc>)
    ensures |s| == |xs| && forall i :: 0 <= i < |xs| ==> s[i] == Alloc(i, xs[i].Floor, Remainder(xs[i]))
  {
    seq(|xs|, i requires 0 <= i < |xs| => Alloc(i, xs[i].Floor, Remainder(xs[i])))
  }

  /** The allocations in serving order. */
  ghost predicate Ranked(s: seq<Alloc>, xs: seq<real>) {
    Sorted(ServedFirst, s) && multiset(s) == multiset(Listing(xs))
  }

  lemma RankedItems(s: seq<Alloc>, xs: seq<real>)
    requires Ranked(s, xs)
    ensures |s| == |xs|
    ensures forall p :: 0 <= p < |s| ==> s[p].idx < |xs| && s[p] == Listing(xs)[s[p].idx]
    ensures forall p, q :: 0 <= p < q < |s| ==> s[p].idx != s[q].idx
  {
    var listing := Listing(xs);
    assert |multiset(s)| == |multiset(listing)|;
    forall p | 0 <= p < |s| ensures s[p].idx < |xs| && s[p] == listing[s[p].idx] {
      assert s[p] in multiset(s);
      var i := Occurs(listing, s[p]);
    }
    DistinctPermutation(s, listing);
  }

  lemma RankOf(s: seq<Alloc>, xs: seq<real>, i: nat) returns (p: nat)
    requires Ranked(s, xs) && i < |xs|
    ensures p < |s| && s[p].idx == i
  {
    assert Listing(xs)[i] in multiset(Listing(xs));
    p := Occurs(s, Listing(xs)[i]);
  }

  ghost function FirstRanks(s: seq<Alloc>, k: nat): set<nat>
    requires k <= |s|
  {
    set p | 0 <= p < k :: s[p].idx
  }

  lemma {:induction false} FirstRanksCount(s: seq<Alloc>, k: nat)
    requires k <= |s| && forall p, q :: 0 <= p < q < |s| ==> s[p].idx != s[q].idx
    ensures |FirstRanks(s, k)| == k
  {
    if k > 0 {
      FirstRanksCount(s, k - 1);
      assert FirstRanks(s, k) == FirstRanks(s, k - 1) + {s[k - 1].idx};
      assert s[k - 1].idx !in FirstRanks(s, k - 1);
    }
  }

  /** The first k of the ranking are a set served in order. */
  lemma FirstRanksServed(s: seq<Alloc>, xs: seq<real>, k: nat)
    requires Ranked(s, xs) && k <= |s|
    ensures Served(xs, FirstRanks(s, k)) && |FirstRanks(s, k)| == k
  {
    RankedItems(s, xs);
    FirstRanksCount(s, k);
    var winners := FirstRanks(s, k);
    forall i: nat, j: nat | j in winners && i < |xs| && Before(xs, i, j) ensures i in winners {
      var p := RankOf(s, xs, i);
      var q :| 0 <= q < k && s[q].idx == j;
      assert ServedFirst(s[p], s[q]);
    }
  }

  function Ideal(u: nat, w: real, total: real): (x: real)
    requires w >= 0.0 && total > 0.0
    ensures Proportional(x, u, w, total)
  {
    NonNegativeTimes(u, w);
    QuotientProportional(Times(u, w), total);
    Times(u, w) / total
  }

  lemma NonNegativeTimes(u: nat, w: real)
    requires w >= 0.0
    ensures Times(u, w) >= 0.0
  {
  }

  lemma QuotientProportional(a: real, total: real)
    requires a >= 0.0 && total > 0.0
    ensures a / total >= 0.0 && (a / total) * total == a
  {
  }

  /** The checked sum of the weights. */
  method SumWeights(weights: seq<Decimal>) returns (r: Result<Decimal>)
    ensures r.Ok? <==> forall i :: 0 <= i < |weights| ==> Rescalable(weights[i]) && Value(weights[i]) >= 0.0
    ensures r.Ok? ==> Value(r.value) == Sum(Values(weights))
  {
    var totalWeight := ZERO;
    assert Value(ZERO) == 0.0;
    for i := 0 to |weights|
      invariant Value(totalWeight) == Sum(Values(weights[..i]))
      invariant forall j :: 0 <= j < i ==> Rescalable(weights[j]) && Value(weights[j]) >= 0.0
    {
      if !Rescalable(weights[i]) {
        return Err;
      }
      if IsNegative(weights[i]) {
        return Err;
      }
      totalWeight := Add(totalWeight, weights[i]);
      assert Values(weights[..i + 1])[..i] == Values(weights[..i]);
    }
    assert weights[..|weights|] == weights;
    r := Ok(totalWeight);
  }

  /** Floors and remainders of the exact shares, in input order. */
  method FloorAll(u: nat, ws: seq<real>, total: real)
    returns (allocations: array<Alloc>, floorSum: int, ghost xs: seq<real>)
    requires Weights(ws) && total == Sum(ws)
    ensures fresh(allocations) && Exact(u, ws, xs)
    ensures allocations[..] == Listing(xs) && floorSum == SumInt(Floors(xs))
  {
    allocations := new Alloc[|ws|](_ => Alloc(0, 0, 0.0));
    floorSum := 0;
    xs := [];
    for i := 0 to |ws|
      invariant |xs| == i && forall j :: 0 <= j < i ==> Proportional(xs[j], u, ws[j], total)
      invariant forall j :: 0 <= j < i ==> allocations[j] == Alloc(j, xs[j].Floor, Remainder(xs[j]))
      invariant floorSum == SumInt(Floors(xs))
    {
      var ideal := Ideal(u, ws[i], total);
      var floor := ideal.Floor;
      allocations[i] := Alloc(i, floor, Remainder(ideal));
      floorSum := floorSum + floor;
      FloorsAppend(xs, ideal);
      xs := xs + [ideal];
    }
  }

  lemma FloorsAppend(xs: seq<real>, x: real)
    ensures SumInt(Floors(xs + [x])) == SumInt(Floors(xs)) + x.Floor
  {
    assert Floors(xs + [x])[..|xs|] == Floors(xs);
  }

  /** One extra unit for each of the first k of the ranking, spread back to input order. */
  method SpreadShares(allocations: array<Alloc>, ghost xs: seq<real>, k: int, negative: bool, places: int)
    returns (shares: seq<Decimal>)
    requires Ranked(allocations[..], xs) && 0 <= k <= |xs|
    modifies allocations
    ensures |xs| == old(|allocations[..]|) == |shares|
    ensures forall i :: 0 <= i < |xs| ==>
              shares[i] == SignedShare(negative, Share(xs, FirstRanks(old(allocations[..]), k), i), places)
  {
    ghost var ranking := allocations[..];
    RankedItems(ranking, xs);
    ghost var winners := FirstRanks(ranking, k);
    var i := 0;
    while i < k
      invariant 0 <= i <= k
      invariant forall p :: 0 <= p < i ==> allocations[p] == ranking[p].(floor := ranking[p].floor + 1)
      invariant forall p :: i <= p < |ranking| ==> allocations[p] == ranking[p]
    {
      allocations[i] := allocations[i].(floor := allocations[i].floor + 1);
      i := i + 1;
    }
    forall p | 0 <= p < |ranking|
      ensures allocations[p].idx == ranking[p].idx < |xs|
      ensures allocations[p].floor == Share(xs, winners, ranking[p].idx)
    {
      assert ranking[p].idx in winners <==> p < k;
    }
    var result := new Decimal[allocations.Length](_ => ZERO);
    i := 0;
    while i < allocations.Length
      invariant 0 <= i <= allocations.Length
      invariant forall p :: 0 <= p < |ranking| ==>
                  allocations[p].idx == ranking[p].idx && allocations[p].floor == Share(xs, winners, ranking[p].idx)
      invariant forall p :: 0 <= p < i ==>
                  result[ranking[p].idx] == SignedShare(negative, Share(xs, winners, ranking[p].idx), places)
    {
      var a := allocations[i];
      result[a.idx] := SignedShare(negative, a.floor, places);
      i := i + 1;
    }
    shares := result[..];
    forall j | 0 <= j < |xs| ensures shares[j] == SignedShare(negative, Share(xs, winners, j), places) {
      var p := RankOf(ranking, xs, j);
    }
  }

  method Allocate(total: Decimal, weights: seq<Decimal>, places: int) returns (r: Result<seq<Decimal>>)
    ensures r.Ok? <==> Allocatable(total, weights, places)
    ensures r.Ok? ==> IsSplit(total, weights, places, r.value)
  {
    if |weights| == 0 {
      return Err;
    }
    if places < 0 || places > MAX_WORKING_DIGITS {
      return Err;
    }
    if !Rescalable(total) {
      return Err;
    }
    TotalInUnits(total, places);
    if !Equal(total, Truncate(total, places)) {
      return Err;
    }
    var totalWeight := SumWeights(weights);
    if totalWeight.Err? {
      return Err;
    }
    if !IsPositive(totalWeight.value) {
      return Err;
    }
    var negative := IsNegative(total);
    var absUnits := AbsUnits(total, places);
    ghost var vs := Values(weights);
    var allocations, floorSum, xs := FloorAll(absUnits, Values(weights), Value(totalWeight.value));
    LeftoverSmall(absUnits, vs, xs);
    var leftover := absUnits - floorSum;
    ServingIsWeakOrder();
    Sort(allocations, ServedFirst);
    ghost var winners := FirstRanks(allocations[..], leftover);
    RankedItems(allocations[..], xs);
    FirstRanksServed(allocations[..], xs, leftover);
    var shares := SpreadShares(allocations, xs, leftover, negative, places);
    assert UnitSplit(absUnits, vs, xs, winners, Shares(xs, winners));
    assert Spelled(total, Shares(xs, winners), places, shares);
    r := Ok(shares);
  }
}
