/** Quota conversions: floats and decimals become 32-bit quota values with saturation. */
module QuotaMath {
  import opened MachineTypes

  const MAX_QUOTA := 0x7FFF_FFFF
  const MIN_QUOTA := -0x8000_0000

  datatype Clamp = InRange | Overflow | Underflow | NotANumber

  datatype Rounding = Truncate | HalfAway

  function Truncated(x: real): int {
    if x >= 0.0 then x.Floor else -(-x).Floor
  }

  /** math.Round and decimal's Round(0). */
  function RoundedHalfAway(x: real): int {
    if x >= 0.0 then (x + 0.5).Floor else -(-x + 0.5).Floor
  }

  /** saturateQuota. */
  function Saturate(v: Float): (int, Clamp) {
    match v
    case NaN => (0, NotANumber)
    case PosInf => (MAX_QUOTA, Overflow)
    case NegInf => (MIN_QUOTA, Underflow)
    case Fin(r) =>
      if r >= MAX_QUOTA as real then (MAX_QUOTA, Overflow)
      else if r <= MIN_QUOTA as real then (MIN_QUOTA, Underflow)
      else (Truncated(r), InRange)
  }

  /** QuotaFromFloatChecked, and QuotaRoundChecked or QuotaFromDecimalChecked. */
  function Checked(how: Rounding, v: Float): (int, Clamp) {
    if how == HalfAway && v.Fin? then Saturate(Fin(RoundedHalfAway(v.r) as real)) else Saturate(v)
  }

  datatype Result = Ok(quota: int) | Err(clamp: Clamp)

  /** The strict forms. */
  function Strict(how: Rounding, v: Float): Result {
    var (quota, clamp) := Checked(how, v);
    if clamp != InRange then Err(clamp) else Ok(quota)
  }

  predicate AtMost(a: Float, b: Float) {
    match (a, b)
    case (Fin(x), Fin(y)) => x <= y
    case (NegInf, Fin(_)) => true
    case (Fin(_), PosInf) => true
    case (NegInf, PosInf) => true
    case _ => a == b && a != NaN
  }

  lemma FloorMonotone(x: real, y: real)
    requires x <= y
    ensures x.Floor <= y.Floor
  {
  }

  lemma RoundMonotone(x: real, y: real)
    requires x <= y
    ensures Truncated(x) <= Truncated(y) && RoundedHalfAway(x) <= RoundedHalfAway(y)
  {
    if x >= 0.0 {
      FloorMonotone(x, y);
      FloorMonotone(x + 0.5, y + 0.5);
    } else if y < 0.0 {
      FloorMonotone(-y, -x);
      FloorMonotone(-y + 0.5, -x + 0.5);
    }
  }

  lemma SaturateMonotone(a: Float, b: Float)
    requires AtMost(a, b)
    ensures MIN_QUOTA <= Saturate(a).0 <= Saturate(b).0 <= MAX_QUOTA
  {
    if a.Fin? && b.Fin? {
      RoundMonotone(a.r, b.r);
    }
  }

  /** A larger value never converts to a smaller quota, and every result fits 32 bits. */
  lemma Monotone(how: Rounding, a: Float, b: Float)
    requires AtMost(a, b)
    ensures MIN_QUOTA <= Checked(how, a).0 <= Checked(how, b).0 <= MAX_QUOTA
  {
    if how == HalfAway && a.Fin? {
      var x := Fin(RoundedHalfAway(a.r) as real);
      if b.Fin? {
        RoundMonotone(a.r, b.r);
        SaturateMonotone(x, Fin(RoundedHalfAway(b.r) as real));
      } else {
        SaturateMonotone(x, b);
      }
    } else if how == HalfAway && b.Fin? {
      SaturateMonotone(a, Fin(RoundedHalfAway(b.r) as real));
    } else {
      SaturateMonotone(a, b);
    }
  }

  /** A charge never becomes a credit: zero converts to zero, so monotonicity keeps the sign. */
  lemma SignKept(how: Rounding, v: Float)
    ensures AtMost(Fin(0.0), v) ==> Checked(how, v).0 >= 0
    ensures AtMost(v, Fin(0.0)) ==> Checked(how, v).0 <= 0
  {
    assert Checked(how, Fin(0.0)).0 == 0;
    if AtMost(Fin(0.0), v) {
      Monotone(how, Fin(0.0), v);
    }
    if AtMost(v, Fin(0.0)) {
      Monotone(how, v, Fin(0.0));
    }
  }

  /** The bounds outside which a conversion is clamped; rounding moves them half a unit inwards. */
  function UpperBound(how: Rounding): real {
    if how == HalfAway then MAX_QUOTA as real - 0.5 else MAX_QUOTA as real
  }

  function LowerBound(how: Rounding): real {
    if how == HalfAway then MIN_QUOTA as real + 0.5 else MIN_QUOTA as real
  }

  /** The distance a conversion may move a value. */
  predicate Near(how: Rounding, quota: int, r: real) {
    match how
    case Truncate => if r >= 0.0 then quota as real <= r < quota as real + 1.0 else quota as real - 1.0 < r <= quota as real
    case HalfAway => -0.5 <= quota as real - r <= 0.5
  }

  /** A strict conversion succeeds exactly on finite values strictly between the bounds, and is then
      the nearest quota in its direction. */
  lemma StrictIff(how: Rounding, v: Float)
    ensures Strict(how, v).Ok? <==> v.Fin? && LowerBound(how) < v.r < UpperBound(how)
    ensures Strict(how, v).Ok? ==> Near(how, Strict(how, v).quota, v.r)
  {
    if v.Fin? && how == HalfAway {
      var q := RoundedHalfAway(v.r);
      assert -0.5 <= q as real - v.r <= 0.5;
      assert Truncated(q as real) == q;
      if v.r >= 0.0 {
        HalfAwayAtLeast(v.r, MAX_QUOTA);
      } else {
        HalfAwayAtLeast(-v.r, -MIN_QUOTA);
      }
    }
  }

  lemma HalfAwayAtLeast(x: real, n: nat)
    requires x >= 0.0
    ensures RoundedHalfAway(x) >= n <==> x >= n as real - 0.5
  {
    var f := (x + 0.5).Floor;
    if x >= n as real - 0.5 {
      FloorMonotone(n as real, x + 0.5);
    }
  }
}
