/** Binary64 bit patterns, their exact values, and round-to-nearest-even
    (section 4.3.1 of IEEE 754-2019). */
module Binary64 {
  import opened MachineWords

  /** A positive finite double; its neighbours away from and towards zero are the next
      and the previous bit pattern. */
  predicate PositiveFinite(bits: u64) {
    0 < bits < 0x7FF0_0000_0000_0000
  }

  /** A finite double with a clear sign bit. */
  predicate FiniteMagnitude(bits: int) {
    0 <= bits < 0x7FF0_0000_0000_0000
  }

  function ExponentField(bits: nat): nat {
    bits / 0x10_0000_0000_0000
  }

  function Significand(bits: nat): nat {
    if ExponentField(bits) == 0 then bits else 0x10_0000_0000_0000 + bits % 0x10_0000_0000_0000
  }

  /** Power of two that scales the significand. */
  function Exponent(bits: nat): int {
    if ExponentField(bits) == 0 then -1074 else ExponentField(bits) - 1075
  }

  predicate EvenSignificand(bits: nat) {
    Significand(bits) % 2 == 0
  }

  /** Exact value of mantissa * 2^exponent. */
  ghost function RationalValue(mantissa: nat, exponent: int): real {
    if exponent >= 0 then mantissa as real * Pow2(exponent) as real
    else mantissa as real / Pow2(-exponent) as real
  }

  ghost function DoubleValue(bits: nat): real {
    RationalValue(Significand(bits), Exponent(bits))
  }

  ghost function Distance(a: real, b: real): real {
    if a < b then b - a else a - b
  }

  /** roundTiesToEven delivers `bits` for the exact value x: no finite double is nearer,
      and a double as near as this one loses the tie because this significand is even.
      Only the largest finite double is also subject to the overflow rule. */
  ghost predicate RoundsTo(x: real, bits: nat) {
    FiniteMagnitude(bits) &&
    forall other: nat | FiniteMagnitude(other) && other != bits ::
      && Distance(x, DoubleValue(bits)) <= Distance(x, DoubleValue(other))
      && (Distance(x, DoubleValue(bits)) == Distance(x, DoubleValue(other)) ==> EvenSignificand(bits))
  }

  /** mantissa * 2^exponent in units of 2^-k. */
  function Scaled(mantissa: nat, exponent: int, k: nat): nat
    requires 0 <= exponent + k
  {
    mantissa * Pow2(exponent + k)
  }

  function ScaledDouble(bits: nat, k: nat): nat
    requires k >= 1075
  {
    Scaled(Significand(bits), Exponent(bits), k)
  }

  lemma ProductOverQuotient(a: real, p: real, q: real)
    requires q > 0.0
    ensures (a / q) * (p * q) == a * p
  {
    assert (a / q) * q == a;
    assert (a / q) * (p * q) == ((a / q) * q) * p;
  }

  lemma RealProduct(a: nat, b: nat)
    ensures (a * b) as real == a as real * b as real
  {
  }

  /** A scaled integer is the exact value times 2^k. */
  lemma ScaledValue(mantissa: nat, exponent: int, k: nat)
    requires 0 <= exponent + k
    ensures RationalValue(mantissa, exponent) * Pow2(k) as real == Scaled(mantissa, exponent, k) as real
  {
    hide Pow2;
    if exponent >= 0 {
      Pow2Add(exponent, k);
      ScaleUp(mantissa, Pow2(exponent), Pow2(k));
    } else {
      Pow2Add(exponent + k, -exponent);
      ScaleDown(mantissa, Pow2(exponent + k), Pow2(-exponent));
    }
  }

  lemma ScaleUp(m: nat, p: nat, q: nat)
    ensures (m as real * p as real) * q as real == (m * (p * q)) as real
  {
    RealProduct(p, q);
    RealProduct(m, p * q);
    RealAssociate(m as real, p as real, q as real);
  }

  lemma ScaleDown(m: nat, p: nat, q: nat)
    requires q > 0
    ensures (m as real / q as real) * (p * q) as real == (m * p) as real
  {
    RealProduct(p, q);
    RealProduct(m, p);
    ProductOverQuotient(m as real, p as real, q as real);
  }

  lemma RealAssociate(a: real, b: real, c: real)
    ensures (a * b) * c == a * (b * c)
  {
  }

  lemma RealScaleOrder(a: real, b: real, p: real)
    requires p > 0.0
    ensures a < b <==> a * p < b * p
    ensures a == b <==> a * p == b * p
  {
    if a < b { assert (b - a) * p > 0.0; }
    if b < a { assert (a - b) * p > 0.0; }
  }

  lemma ScaledSuccessor(mantissa: nat, exponent: int, k: nat)
    requires 0 <= exponent + k
    ensures Scaled(mantissa + 1, exponent, k) == Scaled(mantissa, exponent, k) + Pow2(exponent + k)
  {
    MulDistribute(mantissa, 1, Pow2(exponent + k));
  }

  lemma ScaledDoubling(mantissa: nat, exponent: int, k: nat)
    requires 0 <= exponent + k
    ensures Scaled(mantissa, exponent + 1, k) == Scaled(2 * mantissa, exponent, k)
  {
    Pow2Next(exponent + k);
    MulAssociate(mantissa, 2, Pow2(exponent + k));
  }

  /** Consecutive bit patterns differ by one unit in the last place, through the subnormal
      range and across binade boundaries alike. */
  lemma NextDouble(bits: nat, k: nat)
    requires k >= 1075
    ensures ScaledDouble(bits + 1, k) == ScaledDouble(bits, k) + Pow2(Exponent(bits) + k)
    ensures EvenSignificand(bits + 1) != EvenSignificand(bits)
  {
    hide Pow2;
    hide Scaled;
    var f, e := bits % 0x10_0000_0000_0000, ExponentField(bits);
    assert bits == e * 0x10_0000_0000_0000 + f;
    ScaledSuccessor(Significand(bits), Exponent(bits), k);
    if f + 1 < 0x10_0000_0000_0000 {
      DivModUnique(bits + 1, 0x10_0000_0000_0000, e, f + 1);
    } else {
      DivModUnique(bits + 1, 0x10_0000_0000_0000, e + 1, 0);
      if e != 0 { ScaledDoubling(0x10_0000_0000_0000, Exponent(bits), k); }
    }
  }

  lemma {:induction false} DoublesIncrease(a: nat, b: nat, k: nat)
    requires k >= 1075 && a < b
    ensures ScaledDouble(a, k) < ScaledDouble(b, k)
    decreases b
  {
    NextDouble(b - 1, k);
    if a < b - 1 { DoublesIncrease(a, b - 1, k); }
  }

  /** Scaling x and both candidates by p > 0 keeps which candidate is nearer. */
  lemma ScaledComparison(x: real, v: real, w: real, p: real, y: real, m: real, n: real)
    requires p > 0.0 && x * p == y && v * p == m && w * p == n
    ensures Distance(x, v) <= Distance(x, w) <==> Distance(y, m) <= Distance(y, n)
    ensures Distance(x, v) == Distance(x, w) <==> Distance(y, m) == Distance(y, n)
  {
    hide Distance;
    ScaledDistance(x, v, p);
    ScaledDistance(x, w, p);
    RealScaleOrder(Distance(x, v), Distance(x, w), p);
    RealScaleOrder(Distance(x, w), Distance(x, v), p);
  }

  lemma ScaledDistance(x: real, v: real, p: real)
    requires p > 0.0
    ensures Distance(x, v) * p == Distance(x * p, v * p)
  {
    RealScaleOrder(x, v, p);
    RealDistribute(v, x, p);
    RealDistribute(x, v, p);
  }

  lemma RealDistribute(a: real, b: real, c: real)
    ensures (a - b) * c == a * c - b * c
  {
  }

  /** x in units of 2^-k. */
  ghost function ScaledReal(x: real, k: nat): real {
    x * Pow2(k) as real
  }

  /** Which of two doubles is nearer to x, decided on scaled integers. */
  lemma ScaledNearer(x: real, bits: nat, other: nat, k: nat)
    requires k >= 1075
    ensures Distance(x, DoubleValue(bits)) <= Distance(x, DoubleValue(other))
       <==> Distance(ScaledReal(x, k), ScaledDouble(bits, k) as real)
            <= Distance(ScaledReal(x, k), ScaledDouble(other, k) as real)
    ensures Distance(x, DoubleValue(bits)) == Distance(x, DoubleValue(other))
       <==> Distance(ScaledReal(x, k), ScaledDouble(bits, k) as real)
            == Distance(ScaledReal(x, k), ScaledDouble(other, k) as real)
  {
    hide RationalValue;
    hide Scaled;
    hide Distance;
    ScaledValue(Significand(bits), Exponent(bits), k);
    ScaledValue(Significand(other), Exponent(other), k);
    ScaledComparison(x, DoubleValue(bits), DoubleValue(other), Pow2(k) as real, ScaledReal(x, k),
                     ScaledDouble(bits, k) as real, ScaledDouble(other, k) as real);
  }

  /** Twice the scaled x against the sum of two neighbours: the midpoint test. */
  ghost predicate AboveMidpoint(y: real, low: nat, inclusive: bool, k: nat)
    requires k >= 1075
  {
    var sum := (ScaledDouble(low, k) + ScaledDouble(low + 1, k)) as real;
    sum < 2.0 * y || (inclusive && sum == 2.0 * y)
  }

  ghost predicate BelowMidpoint(y: real, low: nat, inclusive: bool, k: nat)
    requires k >= 1075
  {
    var sum := (ScaledDouble(low, k) + ScaledDouble(low + 1, k)) as real;
    2.0 * y < sum || (inclusive && sum == 2.0 * y)
  }

  /** The two half-gap tests against the neighbours are exactly round-to-nearest-even. */
  lemma MidpointsDecideRounding(x: real, bits: nat, k: nat)
    requires k >= 1075 && 0 < bits && FiniteMagnitude(bits + 1)
    ensures RoundsTo(x, bits)
       <==> && AboveMidpoint(ScaledReal(x, k), bits - 1, EvenSignificand(bits), k)
            && BelowMidpoint(ScaledReal(x, k), bits, EvenSignificand(bits), k)
  {
    hide DoubleValue;
    hide ScaledDouble;
    hide Significand;
    hide ScaledReal;
    var y, even := ScaledReal(x, k), EvenSignificand(bits);
    DoublesIncrease(bits - 1, bits, k);
    DoublesIncrease(bits, bits + 1, k);
    if RoundsTo(x, bits) {
      assert FiniteMagnitude(bits - 1) && FiniteMagnitude(bits + 1);
      ScaledNearer(x, bits, bits - 1, k);
      ScaledNearer(x, bits, bits + 1, k);
    }
    if AboveMidpoint(y, bits - 1, even, k) && BelowMidpoint(y, bits, even, k) {
      forall other: nat | FiniteMagnitude(other) && other != bits
        ensures Distance(x, DoubleValue(bits)) <= Distance(x, DoubleValue(other))
        ensures Distance(x, DoubleValue(bits)) == Distance(x, DoubleValue(other)) ==> even
      {
        ScaledNearer(x, bits, other, k);
        if other < bits - 1 { DoublesIncrease(other, bits - 1, k); }
        if bits + 1 < other { DoublesIncrease(bits + 1, other, k); }
      }
    }
  }

  /** No exact value rounds to two doubles. */
  lemma RoundingIsFunctional(x: real, a: nat, b: nat)
    requires RoundsTo(x, a) && RoundsTo(x, b)
    ensures a == b
  {
    hide DoubleValue;
    hide ScaledDouble;
    hide Significand;
    hide ScaledReal;
    if a != b {
      var low, high, k := Min(a, b), Max(a, b), 1075 + a;
      DoublesIncrease(low, high, k);
      ScaledNearer(x, low, high, k);
      ScaledNearer(x, low, low + 1, k);
      ScaledNearer(x, high, low + 1, k);
      NextDouble(low, k);
      DoublesIncrease(low, low + 1, k);
      if low + 1 < high { DoublesIncrease(low + 1, high, k); }
    }
  }

  /** A double whose predecessor already reaches x is not the one x rounds to. */
  lemma TooLargeToRound(x: real, bits: nat, k: nat)
    requires k >= 1075 && 0 < bits && FiniteMagnitude(bits)
    requires ScaledReal(x, k) <= ScaledDouble(bits - 1, k) as real
    ensures !RoundsTo(x, bits)
  {
    hide DoubleValue;
    hide ScaledDouble;
    hide ScaledReal;
    DoublesIncrease(bits - 1, bits, k);
    ScaledNearer(x, bits, bits - 1, k);
    assert FiniteMagnitude(bits - 1);
  }
}
