/** Exact quantity derivation from raw binary64 broker volumes
    (src/dispatch/managed_opening_quantity_contract.hpp:128-487). */
module OpeningQuantity {
  import opened MachineWords
  import opened BigUnsigned
  import opened Binary64
  import opened Options

  datatype BinaryRational = BinaryRational(mantissa: Limbs, exponent: int) {
    ghost function Value(): real {
      RationalValue(ValueOf(mantissa), exponent)
    }
  }

  /** A tie-aware interval between two exact midpoints. */
  datatype RoundingInterval = RoundingInterval(
    lower: BinaryRational, upper: BinaryRational, lowerInclusive: bool, upperInclusive: bool)
  {
    ghost predicate AboveLower(x: real) {
      lower.Value() < x || (lowerInclusive && x == lower.Value())
    }

    ghost predicate BelowUpper(x: real) {
      x < upper.Value() || (upperInclusive && x == upper.Value())
    }

    ghost predicate Contains(x: real) {
      AboveLower(x) && BelowUpper(x)
    }
  }

  /** The decimal units / 10^scale. */
  ghost function DecimalValue(units: nat, scale: nat): real {
    units as real / Pow10(scale) as real
  }

  ghost function Sign(a: real, b: real): int {
    if a < b then -1 else if a == b then 0 else 1
  }

  function LimbsOfU64(value: u64): (r: Limbs)
    ensures ValueOf(r) == value
  {
    var low: seq<u32> := [value % 0x1_0000_0000, value / 0x1_0000_0000];
    var zeros: seq<u32> := seq(38, _ => 0);
    ValueOfZero(zeros);
    ValueOfConcat(low, zeros);
    assert low[1..][1..] == [];
    assert ValueOf(low[1..]) == low[1];
    low + zeros
  }

  function DecodeDouble(bits: u64): (r: BinaryRational)
    requires FiniteMagnitude(bits)
    ensures r.Value() == DoubleValue(bits)
    ensures ValueOf(r.mantissa) == Significand(bits) && r.exponent == Exponent(bits)
  {
    BinaryRational(LimbsOfU64(Significand(bits)), Exponent(bits))
  }

  /** The numerator of two rationals' sum over the smaller exponent. */
  ghost function AlignedSum(left: BinaryRational, right: BinaryRational): nat {
    var e := Min(left.exponent, right.exponent);
    ValueOf(left.mantissa) * Pow2(left.exponent - e) + ValueOf(right.mantissa) * Pow2(right.exponent - e)
  }

  /** Exact midpoint; none exactly when the aligned sum leaves the limbs. */
  method Midpoint(left: BinaryRational, right: BinaryRational) returns (mid: Option<BinaryRational>)
    ensures mid.Some? <==> AlignedSum(left, right) < Weight(|left.mantissa|)
    ensures mid.Some? ==> ValueOf(mid.value.mantissa) == AlignedSum(left, right)
    ensures mid.Some? ==> mid.value.exponent == Min(left.exponent, right.exponent) - 1
  {
    hide Weight;
    hide Pow2;
    hide ValueOf;
    var exponent := if left.exponent < right.exponent then left.exponent else right.exponent;
    var leftMantissa := new OpeningQuantityBigUnsigned.FromLimbs(left.mantissa);
    var rightMantissa := new OpeningQuantityBigUnsigned.FromLimbs(right.mantissa);
    var leftFits := leftMantissa.ShiftLeft(left.exponent - exponent);
    var rightFits := rightMantissa.ShiftLeft(right.exponent - exponent);
    if !leftFits || !rightFits {
      return None;
    }
    var sumFits := leftMantissa.Add(rightMantissa);
    if !sumFits {
      return None;
    }
    return Some(BinaryRational(leftMantissa.limbs[..], exponent - 1));
  }

  lemma LargeCapacity(n: nat)
    requires n >= 2
    ensures Weight(n) >= 0x1_0000_0000_0000_0000
  {
    if n > 2 { LargeCapacity(n - 1); } else { assert Weight(n - 1) == 0x1_0000_0000 * Weight(n - 2); }
  }

  /** Two neighbours' midpoint, as twice a scaled integer. */
  lemma MidpointScaled(low: nat, mantissa: nat, k: nat)
    requires k >= 1075
    requires var e := Exponent(low);
             mantissa == Significand(low) + Significand(low + 1) * Pow2(Exponent(low + 1) - e)
    ensures 2 * Scaled(mantissa, Exponent(low) - 1, k) == ScaledDouble(low, k) + ScaledDouble(low + 1, k)
  {
    hide Significand;
    var e, d := Exponent(low), Exponent(low + 1) - Exponent(low);
    var p := Pow2(e + k);
    assert p == 2 * Pow2(e - 1 + k);
    DoubleProduct(mantissa, Pow2(e - 1 + k));
    Pow2Add(d, e + k);
    MulAssociate(Significand(low + 1), Pow2(d), p);
    MulDistribute(Significand(low), Significand(low + 1) * Pow2(d), p);
  }

  lemma DoubleProduct(a: nat, p: nat)
    ensures 2 * (a * p) == a * (2 * p)
  {
  }

  /** The exact midpoint of a double and its successor, over the smaller exponent. */
  ghost predicate IsMidpoint(mid: BinaryRational, low: nat) {
    && mid.exponent == Exponent(low) - 1
    && ValueOf(mid.mantissa) == MidpointMantissa(low)
  }

  function MidpointMantissa(low: nat): nat {
    var gap := Exponent(low + 1) - Exponent(low);
    Significand(low) + Significand(low + 1) * Pow2(if gap < 0 then 0 else gap)
  }

  lemma MidpointTests(x: real, low: nat, mid: BinaryRational, k: nat)
    requires k >= 1075 && IsMidpoint(mid, low)
    ensures mid.Value() < x <==> AboveMidpoint(ScaledReal(x, k), low, false, k)
    ensures x < mid.Value() <==> BelowMidpoint(ScaledReal(x, k), low, false, k)
    ensures x == mid.Value() <==> !AboveMidpoint(ScaledReal(x, k), low, false, k) && !BelowMidpoint(ScaledReal(x, k), low, false, k)
  {
    hide Significand;
    hide RationalValue;
    hide ValueOf;
    hide Pow2;
    MidpointScaled(low, ValueOf(mid.mantissa), k);
    ScaledValue(ValueOf(mid.mantissa), mid.exponent, k);
    RealScaleOrder(mid.Value(), x, Pow2(k) as real);
    RealScaleOrder(x, mid.Value(), Pow2(k) as real);
  }

  /** Two midpoints with the tie rule of the double between them admit exactly the reals
      that round to it. */
  lemma IntervalIsRounding(raw: nat, interval: RoundingInterval, x: real)
    requires 0 < raw && FiniteMagnitude(raw + 1)
    requires IsMidpoint(interval.lower, raw - 1) && IsMidpoint(interval.upper, raw)
    requires interval.lowerInclusive == interval.upperInclusive == EvenSignificand(raw)
    ensures interval.Contains(x) <==> RoundsTo(x, raw)
  {
    hide RoundsTo;
    hide IsMidpoint;
    hide ScaledDouble;
    hide ScaledReal;
    hide EvenSignificand;
    hide RationalValue;
    MidpointTests(x, raw - 1, interval.lower, 1075 + raw);
    MidpointTests(x, raw, interval.upper, 1075 + raw);
    MidpointsDecideRounding(x, raw, 1075 + raw);
  }

  /** The mantissa of two neighbours' midpoint stays far below the limb capacity. */
  lemma MidpointFits(low: u64, left: BinaryRational, right: BinaryRational)
    requires FiniteMagnitude(low + 1)
    requires ValueOf(left.mantissa) == Significand(low) && left.exponent == Exponent(low)
    requires ValueOf(right.mantissa) == Significand(low + 1) && right.exponent == Exponent(low + 1)
    ensures left.exponent <= right.exponent
    ensures AlignedSum(left, right) == MidpointMantissa(low) < Weight(|left.mantissa|)
  {
    hide ValueOf;
    hide Weight;
    var sum, n := AlignedSum(left, right), |left.mantissa|;
    LargeCapacity(n);
    assert Pow2(0) == 1 && Pow2(1) == 2;
    assert Exponent(low) <= Exponent(low + 1) <= Exponent(low) + 1;
    assert sum < 0x1_0000_0000_0000_0000;
  }

  /** The interval holds exactly the reals that round to raw. */
  ghost predicate IntervalOf(interval: RoundingInterval, raw: nat) {
    forall x: real :: interval.Contains(x) <==> RoundsTo(x, raw)
  }

  /** Exact interval of a positive finite double; none for zero, for non-finite and negative
      patterns, and for the largest finite double. */
  method RoundingIntervalOf(raw: u64) returns (interval: Option<RoundingInterval>)
    ensures interval.Some? <==> PositiveFinite(raw) && FiniteMagnitude(raw + 1)
    ensures interval.Some? ==> IntervalOf(interval.value, raw)
    ensures interval.Some? ==> interval.value.lower.exponent >= -1075 && interval.value.upper.exponent >= -1075
  {
    hide RoundsTo;
    hide Weight;
    hide ValueOf;
    hide Significand;
    hide MidpointMantissa;
    hide AlignedSum;
    hide EvenSignificand;
    hide DoubleValue;
    hide RationalValue;
    if !PositiveFinite(raw) || !FiniteMagnitude(raw + 1) {
      return None;
    }
    var value, lower, upper := DecodeDouble(raw), DecodeDouble(raw - 1), DecodeDouble(raw + 1);
    MidpointFits(raw - 1, lower, value);
    MidpointFits(raw, value, upper);
    var lowerMidpoint := Midpoint(lower, value);
    var upperMidpoint := Midpoint(value, upper);
    if lowerMidpoint.None? || upperMidpoint.None? {
      return None;
    }
    var even := EvenSignificand(raw);
    var result := RoundingInterval(lowerMidpoint.value, upperMidpoint.value, even, even);
    forall x: real ensures result.Contains(x) <==> RoundsTo(x, raw) {
      IntervalIsRounding(raw, result, x);
    }
    return Some(result);
  }

  function IntegerSign(a: int, b: int): int {
    if a < b then -1 else if a == b then 0 else 1
  }

  /** Clearing the decimal denominator t and a binary numerator power p. */
  lemma SignOverNumerator(u: nat, t: nat, m: nat, p: nat)
    requires t >= 1
    ensures Sign(u as real / t as real, m as real * p as real) == IntegerSign(u, m * t * p)
  {
    var x, y, r := u as real / t as real, m as real * p as real, t as real;
    assert x * r == u as real;
    RealProduct(m, t);
    RealProduct(m * t, p);
    RealExchange(m as real, p as real, r);
    RealScaleOrder(x, y, r);
  }

  lemma RealExchange(a: real, b: real, c: real)
    ensures (a * b) * c == (a * c) * b
  {
  }

  /** Clearing the decimal denominator t and a binary denominator q. */
  lemma SignOverDenominators(u: nat, t: nat, m: nat, q: nat)
    requires t >= 1 && q >= 1
    ensures Sign(u as real / t as real, m as real / q as real) == IntegerSign(u * q, m * t)
  {
    ProductOverQuotient(u as real, q as real, t as real);
    ProductOverQuotient(m as real, t as real, q as real);
    RealProduct(u, q);
    RealProduct(m, t);
    assert (t as real * q as real) > 0.0;
    RealScaleOrder(u as real / t as real, m as real / q as real, t as real * q as real);
  }

  /** A shifted 64-bit numerator fits 40 limbs for every exponent the comparison meets. */
  lemma ShiftedUnitsFit(units: u64, bits: nat, n: nat)
    requires bits <= 1216 && n >= 40
    ensures units * Pow2(bits) < Weight(n)
  {
    hide Weight;
    hide Pow2;
    WeightIsPow2(n);
    Pow2Of64();
    var p, q, w := Pow2(64), Pow2(bits), Pow2(64 + bits);
    Pow2Add(64, bits);
    MulStrict(units, p, q);
    Pow2Monotone(64 + bits, 32 * n);
  }

  /** Scales the mantissa by 10^scale; false once the limbs overflow. */
  method ScaleByTen(big: OpeningQuantityBigUnsigned, scale: u32) returns (fits: bool)
    modifies big.limbs
    ensures big.limbs == old(big.limbs)
    ensures fits <==> old(big.Value()) * Pow10(scale) < big.Capacity()
    ensures fits ==> big.Value() == old(big.Value()) * Pow10(scale)
  {
    hide Weight;
    hide ValueOf;
    ghost var start := big.Value();
    ValueOfBound(big.limbs[..]);
    var index := 0;
    while index != scale
      invariant 0 <= index <= scale
      invariant big.limbs == old(big.limbs)
      invariant big.Value() == start * Pow10(index) < big.Capacity()
    {
      TenTimes(start, index);
      var ok := big.MultiplySmall(10);
      if !ok {
        Pow10Grows(start, index + 1, scale);
        return false;
      }
      index := index + 1;
    }
    return true;
  }

  lemma TenTimes(v: nat, n: nat)
    ensures v * Pow10(n) * 10 == v * Pow10(n + 1)
  {
    assert Pow10(n + 1) == 10 * Pow10(n);
    MulAssociate(v, Pow10(n), 10);
  }

  lemma {:induction false} Pow10Grows(v: nat, a: nat, b: nat)
    requires a <= b
    ensures v * Pow10(a) <= v * Pow10(b)
    decreases b
  {
    if a < b {
      Pow10Grows(v, a, b - 1);
      TenTimes(v, b - 1);
    }
  }

  lemma ShiftGrows(v: nat, bits: nat)
    ensures v <= v * Pow2(bits)
  {
    MulMonotone(1, Pow2(bits), v);
  }

  /** Sign of units / 10^scale - value. An overflowing binary side really is the larger one;
      the exponent bound, which every decoded and midpoint value satisfies, keeps the decimal
      side from overflowing. */
  method CompareDecimalToBinary(units: u64, scale: u32, value: BinaryRational) returns (c: int)
    ensures value.exponent >= -1216 ==> c == Sign(DecimalValue(units, scale), value.Value())
  {
    hide Weight;
    hide ValueOf;
    hide Pow2;
    hide Pow10;
    hide RationalValue;
    var decimal := new OpeningQuantityBigUnsigned.FromU64(units);
    var binary := new OpeningQuantityBigUnsigned.FromLimbs(value.mantissa);
    ghost var m, t, n := ValueOf(value.mantissa), Pow10(scale), decimal.limbs.Length;
    ValueOfBound(decimal.limbs[..]);
    BinarySign(units, scale, value);
    if value.exponent >= 0 {
      ShiftGrows(m * t, value.exponent);
      var scaled := ScaleByTen(binary, scale);
      if !scaled { return -1; }
      var shifted := binary.ShiftLeft(value.exponent);
      if !shifted { return -1; }
    } else {
      if value.exponent >= -1216 { ShiftedUnitsFit(units, -value.exponent, n); }
      var shifted := decimal.ShiftLeft(-value.exponent);
      if !shifted { return 1; }
      ValueOfBound(decimal.limbs[..]);
      var scaled := ScaleByTen(binary, scale);
      if !scaled { return -1; }
    }
    c := decimal.Compare(binary);
  }

  lemma BinarySign(units: nat, scale: nat, value: BinaryRational)
    ensures Sign(DecimalValue(units, scale), value.Value())
         == if value.exponent >= 0
            then IntegerSign(units, ValueOf(value.mantissa) * Pow10(scale) * Pow2(value.exponent))
            else IntegerSign(units * Pow2(-value.exponent), ValueOf(value.mantissa) * Pow10(scale))
  {
    hide ValueOf;
    hide Pow2;
    hide Pow10;
    hide Sign;
    hide IntegerSign;
    var m := ValueOf(value.mantissa);
    if value.exponent >= 0 {
      assert value.Value() == m as real * Pow2(value.exponent) as real;
      SignOverNumerator(units, Pow10(scale), m, Pow2(value.exponent));
    } else {
      SignOverDenominators(units, Pow10(scale), m, Pow2(-value.exponent));
    }
  }
}
