/**
 The amounts of an Epay order when quota is displayed in tokens: the smallest request accepted, the
 currency units stored with the order and the quota credited when it is paid. Amounts are 64-bit
 integers; quota per unit is a float64 taken as an exact decimal, so it may be fractional.
 */
module TopUpAmounts {
  import opened MachineTypes

  /** decimal.Div keeps 16 digits after the point. */
  const SCALE := 1_0000_0000_0000_0000

  /** getMinTopup. */
  function MinTopUp(minUnits: nat, q: real): int {
    (minUnits as real * q).Floor
  }

  /** The quotient with 16 digits, rounded half up, as a multiple of 10^-16. */
  function Scaled(a: nat, q: real): int
    requires q > 0.0
  {
    (a as real / q * SCALE as real + 0.5).Floor
  }

  /** The units of an order: the integer part of that quotient. */
  function Units(requested: nat, q: real): int
    requires q > 0.0
  {
    Scaled(requested, q) / SCALE
  }

  function Credited(requested: nat, q: real): int
    requires q > 0.0
  {
    (Units(requested, q) as real * q).Floor
  }

  // Inequalities of reals

  lemma TimesAtMost(x: real, y: real, q: real)
    requires x <= y && q > 0.0
    ensures x * q <= y * q
  {
  }

  lemma TimesBelow(x: real, y: real, q: real)
    requires x < y && q > 0.0
    ensures x * q < y * q
  {
  }

  lemma Difference(d: real, x: real, y: real, q: real)
    requires d == x - y
    ensures d * q == x * q - y * q
  {
  }

  lemma OneMore(k: real, q: real)
    ensures (k + 1.0) * q == k * q + q
  {
  }

  lemma TwoTimes(s: real, d: real)
    ensures 2.0 * s * d == 2.0 * (d * s)
  {
  }

  lemma FloorAtMost(x: real, n: int)
    requires x < n as real + 1.0
    ensures x.Floor <= n
  {
  }

  lemma FloorMonotone(x: real, y: real)
    requires x <= y
    ensures x.Floor <= y.Floor
  {
  }

  /** The stored units lie within half a digit above and less than one unit below the true quotient. */
  lemma UnitsNear(a: nat, q: real)
    requires q > 0.0
    ensures var x, k, s := a as real / q, Units(a, q) as real, SCALE as real;
            k * s <= x * s + 0.5 && x * s < (k + 1.0) * s - 0.5
    ensures Units(a, q) >= 0
  {
    var y := a as real / q * SCALE as real + 0.5;
    var n := Scaled(a, q);
    var k := Units(a, q);
    assert n as real <= y < n as real + 1.0;
    assert k * SCALE <= n <= k * SCALE + SCALE - 1;
  }

  /** The stored units are the true quotient, or one more when its fraction is within half a digit of one. */
  lemma UnitsOf(a: nat, q: real)
    requires q > 0.0
    ensures var x := a as real / q;
            Units(a, q) == x.Floor +
            if (x.Floor as real + 1.0 - x) * 2.0 * SCALE as real <= 1.0 then 1 else 0
  {
    UnitsNear(a, q);
  }

  /** A larger request never stores fewer units, and is never credited less. */
  lemma CreditedMonotone(a: nat, b: nat, q: real)
    requires a <= b && q > 0.0
    ensures Units(a, q) <= Units(b, q) && Credited(a, q) <= Credited(b, q)
  {
    var x, y := a as real / q, b as real / q;
    assert x <= y;
    TimesAtMost(x, y, SCALE as real);
    FloorMonotone(x * SCALE as real + 0.5, y * SCALE as real + 0.5);
    assert Units(a, q) <= Units(b, q);
    TimesAtMost(Units(a, q) as real, Units(b, q) as real, q);
    FloorMonotone(Units(a, q) as real * q, Units(b, q) as real * q);
  }

  // The products are passed as values, so that these are linear

  lemma Halve(dq: real, ds: real)
    requires dq < 2.0 * ds && ds <= 0.5
    ensures dq < 1.0
  {
  }

  lemma Shift(dq: real, kq: real, xq: real, a: real)
    requires dq == kq - xq && xq == a && dq < 1.0
    ensures kq < a + 1.0
  {
  }

  lemma ShiftBack(dq: real, kq': real, kq: real, q: real, xq: real, a: real)
    requires dq == kq' - xq && kq' == kq + q && xq == a && dq > 0.0
    ensures a < kq + q
  {
  }

  lemma Room(ds: real, ks: real, xs: real)
    requires ds == ks - xs
    ensures ks <= xs + 0.5 ==> ds <= 0.5
    ensures xs < ks - 0.5 ==> ds > 0.0
  {
  }

  lemma BelowBy(d: real, q: real, s: real)
    requires d * s <= 0.5 && 0.0 < q < 2.0 * s
    ensures d * q < 1.0
  {
    if d > 0.0 {
      TimesBelow(q, 2.0 * s, d);
      TwoTimes(s, d);
      assert q * d == d * q;
      Halve(d * q, d * s);
    } else {
      NotPositive(d, q);
    }
  }

  lemma NotPositive(d: real, q: real)
    requires d <= 0.0 && q > 0.0
    ensures d * q <= 0.0
  {
  }

  lemma PositiveProduct(e: real, q: real)
    requires e > 0.0 && q > 0.0
    ensures e * q > 0.0
  {
  }

  lemma PositiveFactor(e: real, s: real)
    requires e * s > 0.0 && s > 0.0
    ensures e > 0.0
  {
  }

  /** From the distance of the units to the quotient, to that of their quota to the amount. */
  lemma QuotaNotAbove(a: real, x: real, k: real, d: real, q: real, s: real)
    requires d == k - x && x * q == a && 0.0 < q < 2.0 * s && k * s <= x * s + 0.5
    ensures k * q < a + 1.0
  {
    Difference(d, k, x, s);
    Room(d * s, k * s, x * s);
    BelowBy(d, q, s);
    Difference(d, k, x, q);
    Shift(d * q, k * q, x * q, a);
  }

  lemma QuotaNotBelow(a: real, x: real, k: real, k': real, d: real, q: real, s: real)
    requires k' == k + 1.0 && d == k' - x && x * q == a && q > 0.0 && s > 0.0 && x * s < k' * s - 0.5
    ensures a < k * q + q
  {
    Difference(d, k', x, s);
    Room(d * s, k' * s, x * s);
    PositiveFactor(d, s);
    PositiveProduct(d, q);
    Difference(d, k', x, q);
    OneMore(k, q);
    ShiftBack(d * q, k' * q, k * q, q, x * q, a);
  }

  lemma UnitsNotAbove(a: nat, q: real)
    requires 0.0 < q < 2.0 * SCALE as real
    ensures Units(a, q) as real * q < a as real + 1.0
  {
    var x := a as real / q;
    UnitsNear(a, q);
    var k := Units(a, q) as real;
    QuotaNotAbove(a as real, x, k, k - x, q, SCALE as real);
  }

  lemma UnitsNotBelow(a: nat, q: real)
    requires q > 0.0
    ensures a as real < Units(a, q) as real * q + q
  {
    var x := a as real / q;
    UnitsNear(a, q);
    var k := Units(a, q) as real;
    QuotaNotBelow(a as real, x, k, k + 1.0, k + 1.0 - x, q, SCALE as real);
  }

  /** Below 2 * 10^16 quota per unit, whole or fractional, no request is credited more than it asked for,
      and none is short by more than a unit and the fraction lost. */
  lemma CreditBounds(requested: nat, q: real)
    requires 0.0 < q < 2.0 * SCALE as real
    ensures Credited(requested, q) <= requested
    ensures requested as real < Credited(requested, q) as real + q + 1.0
  {
    UnitsNotAbove(requested, q);
    UnitsNotBelow(requested, q);
    FloorAtMost(Units(requested, q) as real * q, requested);
  }

  predicate Whole(q: real) {
    q.Floor as real == q
  }

  lemma {:induction false} RealProduct(k: nat, n: int)
    ensures (k * n) as real == k as real * n as real
    decreases k
  {
    if k > 0 {
      RealProduct(k - 1, n);
      assert k * n == (k - 1) * n + n;
      assert k as real * n as real == (k - 1) as real * n as real + n as real;
    }
  }

  lemma WholeFloor(y: real, m: int)
    requires y == m as real
    ensures y.Floor == m
  {
  }

  lemma WholeProduct(k: nat, n: int, q: real)
    requires q == n as real
    ensures (k as real * q).Floor == k * n && (k * n) as real == k as real * q
  {
    RealProduct(k, n);
    WholeFloor(k as real * q, k * n);
  }

  lemma WholeCredit(requested: nat, q: real)
    requires q > 0.0 && Whole(q)
    ensures Credited(requested, q) as real == Units(requested, q) as real * q
  {
    UnitsNear(requested, q);
    var k := Units(requested, q);
    WholeProduct(k, q.Floor, q);
    assert Credited(requested, q) == k * q.Floor;
  }

  /** For a whole number of quota per unit the shortfall is less than one unit. */
  lemma WholeShortfall(requested: nat, q: real)
    requires q > 0.0 && Whole(q)
    ensures requested as real < Credited(requested, q) as real + q
  {
    UnitsNotBelow(requested, q);
    WholeCredit(requested, q);
  }

  lemma NotNegative(x: real, q: real)
    requires x >= 0.0 && q > 0.0
    ensures x * q >= 0.0
  {
  }

  lemma Quotient(y: real, x: real, q: real)
    requires y == x * q && q > 0.0
    ensures y / q == x
  {
  }

  lemma WholeQuotient(m: nat, y: real, q: real)
    requires y == m as real * q && Whole(y) && q > 0.0
    ensures y.Floor as real / q == m as real && Whole(y.Floor as real / q)
  {
    Quotient(y, m as real, q);
  }

  /** The quotient is whole, or so close below a whole number that sixteen digits round it up. */
  predicate RoundsToUnits(x: real) {
    Whole(x) || (x.Floor as real + 1.0 - x) * 2.0 * SCALE as real <= 1.0
  }

  lemma FloorBelow(y: real, a: int)
    ensures y.Floor >= a <==> y >= a as real
  {
  }

  lemma TimesAtLeastIff(k: real, x: real, q: real)
    requires q > 0.0
    ensures k * q >= x * q <==> k >= x
  {
    if k >= x {
      TimesAtMost(x, k, q);
    } else {
      TimesBelow(k, x, q);
    }
  }

  /** A request is credited in full exactly when it rounds to whole units. */
  lemma CreditedInFullIff(a: nat, q: real)
    requires q > 0.0
    ensures Credited(a, q) >= a <==> RoundsToUnits(a as real / q)
  {
    var x, k := a as real / q, Units(a, q) as real;
    assert x * q == a as real;
    UnitsOf(a, q);
    assert k >= x <==> RoundsToUnits(x);
    TimesAtLeastIff(k, x, q);
    FloorBelow(k * q, a);
  }

  /** Every accepted request is credited at least the minimum, exactly when the minimum rounds to whole
      units. */
  lemma MinimumCreditedIff(m: nat, q: real)
    requires q > 0.0
    ensures (forall a: nat :: a >= MinTopUp(m, q) ==> Credited(a, q) >= MinTopUp(m, q)) <==>
            RoundsToUnits(MinTopUp(m, q) as real / q)
  {
    var least := MinTopUp(m, q);
    NotNegative(m as real, q);
    CreditedInFullIff(least, q);
    if Credited(least, q) >= least {
      forall a: nat | a >= least ensures Credited(a, q) >= least {
        CreditedMonotone(least, a, q);
      }
    }
  }

  /** So it is whenever the minimum is a whole number of tokens, as for whole quota per unit. */
  lemma WholeMinimumCredited(m: nat, requested: nat, q: real)
    requires q > 0.0 && Whole(m as real * q) && requested >= MinTopUp(m, q)
    ensures Credited(requested, q) >= MinTopUp(m, q)
  {
    WholeQuotient(m, m as real * q, q);
    MinimumCreditedIff(m, q);
  }

  /** A minimum of one unit of 1.5 tokens accepts a request of one token and credits nothing. */
  lemma FractionalMinimumLost()
    ensures MinTopUp(1, 1.5) == 1 && Credited(1, 1.5) == 0
  {
    UnitsNear(1, 1.5);
    assert Units(1, 1.5) == 0;
  }

  /** No 64-bit request is credited more than it asked for, exactly when quota per unit is below
      2 * 10^16; a float64 at or above that is a whole number. */
  lemma NeverExceedsIff(q: real)
    requires 0.0 < q <= MAX_INT as real && (q >= 2.0 * SCALE as real ==> Whole(q))
    ensures (forall a: nat :: a <= MAX_INT ==> Credited(a, q) <= a) <==> q < 2.0 * SCALE as real
  {
    if q < 2.0 * SCALE as real {
      forall a: nat | a <= MAX_INT ensures Credited(a, q) <= a {
        CreditBounds(a, q);
      }
    } else {
      CreditExceeds(q);
      assert Credited(q.Floor - 1, q) > q.Floor - 1;
    }
  }

  /** At or above it, a request of one token less than a unit is credited the whole unit. */
  lemma CreditExceeds(q: real)
    requires 2.0 * SCALE as real <= q <= MAX_INT as real && Whole(q)
    ensures 0 <= q.Floor - 1 <= MAX_INT && Credited(q.Floor - 1, q) >= q.Floor
  {
    var a := q.Floor - 1;
    var x, s := a as real / q, SCALE as real;
    assert x == 1.0 - 1.0 / q;
    assert s / q <= 0.5;
    assert x * s == s - s / q;
    assert Scaled(a, q) >= SCALE;
    var k := Units(a, q);
    assert k >= 1;
    TimesAtMost(1.0, k as real, q);
    FloorMonotone(q, k as real * q);
  }
}
