/** Unique decimals, the broker-step search, and the sealed managed quantity
    (src/dispatch/managed_opening_quantity_contract.hpp:252-487). */
module ManagedQuantity {
  import opened MachineWords
  import opened BigUnsigned
  import opened Binary64
  import opened Options
  import opened OpeningQuantity

  /** units / 10^scale rounds to the double with these bits. */
  ghost predicate Rounds(raw: nat, units: nat, scale: nat) {
    RoundsTo(DecimalValue(units, scale), raw)
  }

  /** Of all positive 64-bit numerators, only `units` rounds to raw. */
  ghost predicate SoleNumerator(raw: nat, units: nat, scale: nat) {
    && Rounds(raw, units, scale)
    && forall other: nat | 0 < other <= U64_MAX && other != units :: !Rounds(raw, other, scale)
  }

  lemma DecimalOrder(a: nat, b: nat, scale: nat)
    requires a < b
    ensures DecimalValue(a, scale) < DecimalValue(b, scale)
  {
    var t := Pow10(scale) as real;
    assert DecimalValue(a, scale) * t == a as real && DecimalValue(b, scale) * t == b as real;
    RealScaleOrder(DecimalValue(b, scale), DecimalValue(a, scale), t);
    RealScaleOrder(DecimalValue(a, scale), DecimalValue(b, scale), t);
  }

  /** The numerators inside an interval are consecutive. */
  lemma InsideIsConvex(interval: RoundingInterval, a: nat, b: nat, c: nat, scale: nat)
    requires a <= b <= c
    requires interval.Contains(DecimalValue(a, scale)) && interval.Contains(DecimalValue(c, scale))
    ensures interval.Contains(DecimalValue(b, scale))
  {
    hide DecimalValue;
    if a < b { DecimalOrder(a, b, scale); }
    if b < c { DecimalOrder(b, c, scale); }
  }

  /** Two outside neighbours exclude every other numerator. */
  lemma NeighboursDecide(interval: RoundingInterval, raw: nat, units: u64, scale: nat)
    requires units > 0 && IntervalOf(interval, raw)
    requires Rounds(raw, units, scale)
    requires units > 1 ==> !Rounds(raw, units - 1, scale)
    requires units < U64_MAX ==> !Rounds(raw, units + 1, scale)
    ensures SoleNumerator(raw, units, scale)
  {
    hide DecimalValue;
    hide RoundsTo;
    forall other: nat | 0 < other <= U64_MAX && other != units
      ensures !Rounds(raw, other, scale)
    {
      if Rounds(raw, other, scale) {
        if other < units {
          InsideIsConvex(interval, other, units - 1, units, scale);
        } else {
          InsideIsConvex(interval, units, units + 1, other, scale);
        }
      }
    }
  }

  lemma Pow10Bounds(scale: nat)
    requires scale <= 9
    ensures 1 <= Pow10(scale) <= 0x4000_0000
  {
    assert Pow10(9) == 1_000_000_000;
    Pow10Grows(1, scale, 9);
  }

  /** No positive decimal of at most nine places is so small that it rounds to zero. */
  lemma DecimalsExceedZero(units: nat, scale: nat, k: nat)
    requires 0 < units && scale <= 9 && k >= 1075
    ensures !Rounds(0, units, scale)
  {
    hide DoubleValue;
    hide RoundsTo;
    hide Pow10;
    hide Pow2;
    var x, t := DecimalValue(units, scale), Pow10(scale);
    Pow10Bounds(scale);
    NextDouble(0, k);
    assert ScaledDouble(0, k) == 0 by { assert Significand(0) == 0; }
    var p := Pow2(k - 1074);
    assert ScaledDouble(1, k) == p;
    TinyDoubles(units, t, k);
    assert x * t as real == units as real;
    if Rounds(0, units, scale) {
      ScaledNearer(x, 0, 1, k);
      assert Distance(x, DoubleValue(0)) <= Distance(x, DoubleValue(1)) by {
        assert FiniteMagnitude(1);
        ZeroNearest(x);
      }
      RealScaleOrder(ScaledReal(x, k), p as real, t as real);
      RealExchange(x, Pow2(k) as real, t as real);
      RealProduct(p, t);
      RealProduct(units, Pow2(k));
    }
  }

  lemma ZeroNearest(x: real)
    requires RoundsTo(x, 0)
    ensures Distance(x, DoubleValue(0)) <= Distance(x, DoubleValue(1))
  {
    assert FiniteMagnitude(1);
  }

  lemma TinyDoubles(units: nat, t: nat, k: nat)
    requires 0 < units && t <= 0x4000_0000 && k >= 1075
    ensures Pow2(k - 1074) * t < units * Pow2(k)
  {
    Pow2Of32();
    hide Pow2;
    Pow2Add(32, k - 32);
    Pow2Monotone(k - 1074, k - 32);
    var p, q := Pow2(k - 1074), Pow2(k - 32);
    MulMonotone(p, q, t);
    MulStrict(t, 0x1_0000_0000, q);
    MulMonotone(1, units, Pow2(k));
  }

  /** No 64-bit decimal is so large that it rounds to the largest finite double. */
  lemma DecimalsBelowLargest(units: u64, scale: nat, raw: u64, k: nat)
    requires FiniteMagnitude(raw) && !FiniteMagnitude(raw + 1) && k >= 1075
    ensures !Rounds(raw, units, scale)
  {
    hide DoubleValue;
    hide RoundsTo;
    hide Pow10;
    hide Pow2;
    var x, t := DecimalValue(units, scale), Pow10(scale);
    assert ExponentField(raw - 1) == 0x7FE && Exponent(raw - 1) == 971;
    var s := Significand(raw - 1);
    HugeDoubles(units, s, k);
    assert x * t as real == units as real;
    var y, w := ScaledReal(x, k), ScaledDouble(raw - 1, k);
    RealExchange(x, Pow2(k) as real, t as real);
    RealProduct(units, Pow2(k));
    MulMonotone(1, t, w);
    RealProduct(w, t);
    RealScaleOrder(w as real, y, t as real);
    TooLargeToRound(x, raw, k);
  }

  lemma HugeDoubles(units: u64, s: nat, k: nat)
    requires s >= 0x10_0000_0000_0000
    ensures units * Pow2(k) <= s * Pow2(971 + k)
  {
    hide Pow2;
    Pow2Of64();
    Pow2Monotone(64 + k, 971 + k);
    Pow2Add(64, k);
    MulMonotone(units, 0x1_0000_0000_0000_0000, Pow2(k));
    MulMonotone(1, s, Pow2(971 + k));
  }

  /** Where no interval exists, no admissible numerator rounds to the pattern. */
  lemma NoIntervalNoDecimal(raw: u64, units: u64, scale: nat)
    requires !(PositiveFinite(raw) && FiniteMagnitude(raw + 1)) && 0 < units && scale <= 9
    ensures !Rounds(raw, units, scale)
  {
    hide RoundsTo;
    if raw == 0 {
      DecimalsExceedZero(units, scale, 1075 + raw);
    } else if FiniteMagnitude(raw) {
      DecimalsBelowLargest(units, scale, raw, 1075 + raw);
    } else {
      NonFiniteNeverRounds(DecimalValue(units, scale), raw);
    }
  }

  lemma NonFiniteNeverRounds(x: real, raw: nat)
    requires !FiniteMagnitude(raw)
    ensures !RoundsTo(x, raw)
  {
  }

  method Inside(interval: RoundingInterval, candidate: u64, scale: u32) returns (inside: bool)
    requires interval.lower.exponent >= -1216 && interval.upper.exponent >= -1216
    ensures inside <==> interval.Contains(DecimalValue(candidate, scale))
  {
    var lower := CompareDecimalToBinary(candidate, scale, interval.lower);
    var upper := CompareDecimalToBinary(candidate, scale, interval.upper);
    return (lower > 0 || (lower == 0 && interval.lowerInclusive)) && (upper < 0 || (upper == 0 && interval.upperInclusive));
  }

  /** Two neighbour checks decide uniqueness among all 64-bit numerators. */
  method DecimalIsUnique(raw: u64, units: u64, scale: u32) returns (unique: bool)
    ensures unique <==> units != 0 && scale <= 9 && SoleNumerator(raw, units, scale)
  {
    hide RoundsTo;
    hide DecimalValue;
    if units == 0 || scale > 9 {
      return false;
    }
    var interval := RoundingIntervalOf(raw);
    if interval.None? {
      NoIntervalNoDecimal(raw, units, scale);
      return false;
    }
    var inside := Inside(interval.value, units, scale);
    if !inside {
      return false;
    }
    if units > 1 {
      inside := Inside(interval.value, units - 1, scale);
      if inside {
        assert Rounds(raw, units - 1, scale);
        return false;
      }
    }
    if units == U64_MAX {
      NeighboursDecide(interval.value, raw, units, scale);
      return true;
    }
    inside := Inside(interval.value, units + 1, scale);
    if inside {
      assert Rounds(raw, units + 1, scale);
      return false;
    }
    NeighboursDecide(interval.value, raw, units, scale);
    return true;
  }

  /** A step count whose product overflows counts as above every boundary. */
  ghost predicate StepAbove(boundary: BinaryRational, inclusive: bool, steps: nat, stepUnits: nat, scale: nat) {
    || steps * stepUnits > U64_MAX
    || boundary.Value() < DecimalValue(steps * stepUnits, scale)
    || (inclusive && boundary.Value() == DecimalValue(steps * stepUnits, scale))
  }

  lemma OverflowTest(steps: u64, stepUnits: u64)
    ensures steps != 0 && stepUnits > U64_MAX / steps <==> steps * stepUnits > U64_MAX
  {
    if steps != 0 { QuotientCap(stepUnits, steps, U64_MAX); }
  }

  lemma QuotientCap(k: nat, d: nat, m: nat)
    requires d > 0
    ensures k <= m / d <==> k * d <= m
  {
    var q := m / d;
    assert q * d <= m < (q + 1) * d;
    if k <= q { MulMonotone(k, q, d); } else { MulMonotone(q + 1, k, d); }
  }

  method CompareStepToBoundary(steps: u64, stepUnits: u64, scale: u32, boundary: BinaryRational) returns (c: int)
    requires boundary.exponent >= -1216
    ensures steps * stepUnits > U64_MAX ==> c == 1
    ensures steps * stepUnits <= U64_MAX ==> c == Sign(DecimalValue(steps * stepUnits, scale), boundary.Value())
  {
    OverflowTest(steps, stepUnits);
    if steps != 0 && stepUnits > U64_MAX / steps {
      return 1;
    }
    c := CompareDecimalToBinary(steps * stepUnits, scale, boundary);
  }

  lemma StepAboveGrows(boundary: BinaryRational, inclusive: bool, a: nat, b: nat, stepUnits: nat, scale: nat)
    requires a <= b && StepAbove(boundary, inclusive, a, stepUnits, scale)
    ensures StepAbove(boundary, inclusive, b, stepUnits, scale)
  {
    hide DecimalValue;
    MulMonotone(a, b, stepUnits);
    if a * stepUnits < b * stepUnits { DecimalOrder(a * stepUnits, b * stepUnits, scale); }
  }

  /** The binary search finds the least step count in [1, maxSteps] above the boundary. */
  method FirstStepAbove(boundary: BinaryRational, stepUnits: u64, scale: u32, inclusive: bool, maxSteps: u64)
    returns (first: Option<u64>)
    requires boundary.exponent >= -1216
    ensures first.Some? ==> 1 <= first.value <= maxSteps && StepAbove(boundary, inclusive, first.value, stepUnits, scale)
    ensures forall j :: 1 <= j <= maxSteps && (first.Some? ==> j < first.value)
                        ==> !StepAbove(boundary, inclusive, j, stepUnits, scale)
  {
    hide DecimalValue;
    var low: u64, high: u64 := 1, maxSteps;
    first := None;
    while low <= high
      invariant 1 <= low
      invariant first.None? ==> high == maxSteps
      invariant first.Some? ==> high + 1 == first.value <= maxSteps && low <= first.value
      invariant first.Some? ==> StepAbove(boundary, inclusive, first.value, stepUnits, scale)
      invariant forall j :: 1 <= j < low ==> !StepAbove(boundary, inclusive, j, stepUnits, scale)
      decreases high - low
    {
      var middle := low + (high - low) / 2;
      var c := CompareStepToBoundary(middle, stepUnits, scale, boundary);
      if c > 0 || (c == 0 && inclusive) {
        assert StepAbove(boundary, inclusive, middle, stepUnits, scale);
        first := Some(middle);
        if middle == 0 { break; }
        high := middle - 1;
      } else {
        forall j | 1 <= j <= middle ensures !StepAbove(boundary, inclusive, j, stepUnits, scale) {
          if StepAbove(boundary, inclusive, j, stepUnits, scale) {
            StepAboveGrows(boundary, inclusive, j, middle, stepUnits, scale);
          }
        }
        if middle == U64_MAX { break; }
        low := middle + 1;
      }
    }
  }

  datatype ManagedOpeningQuantityDomain = ManagedOpeningQuantityDomain(
    canonicalScale: u32, brokerStepUnits: u64, managedUnitsPerStep: u64, maxStepCount: u64, maxManagedUnits: u64)
  {
    predicate Valid() {
      canonicalScale <= 9 && brokerStepUnits != 0 && managedUnitsPerStep != 0 && maxStepCount != 0 && maxManagedUnits != 0
    }

    /** Step counts up to the reviewed capacity whose broker numerator is a 64-bit number. */
    predicate StepInRange(k: nat) {
      1 <= k <= maxStepCount && k * brokerStepUnits <= U64_MAX
    }
  }

  datatype ManagedOpeningQuantity = ManagedOpeningQuantity(
    canonicalScale: u32, brokerStepUnits: u64, brokerUnits: u64, integerStepCount: u64, managedLogicalUnits: u64)
  {
    predicate Valid() {
      && canonicalScale <= 9 && brokerStepUnits != 0 && brokerUnits != 0 && integerStepCount != 0
      && managedLogicalUnits != 0 && brokerUnits % brokerStepUnits == 0
      && brokerUnits / brokerStepUnits == integerStepCount
    }
  }

  ghost predicate StepRounds(raw: nat, domain: ManagedOpeningQuantityDomain, k: nat) {
    domain.StepInRange(k) && Rounds(raw, k * domain.brokerStepUnits, domain.canonicalScale)
  }

  /** Exactly one step count within the domain's capacity rounds to raw. */
  ghost predicate SoleStepCount(raw: nat, domain: ManagedOpeningQuantityDomain, k: nat) {
    StepRounds(raw, domain, k) && forall j: nat | j != k :: !StepRounds(raw, domain, j)
  }

  /** The quantity an observation determines, stated without interval, search or neighbour. */
  ghost predicate Determines(rawQuantity: nat, rawStep: nat, domain: ManagedOpeningQuantityDomain, k: nat) {
    && domain.Valid() && SoleNumerator(rawStep, domain.brokerStepUnits, domain.canonicalScale)
    && SoleStepCount(rawQuantity, domain, k) && k * domain.managedUnitsPerStep <= domain.maxManagedUnits
  }

  /** A step count in range lies below the upper boundary. */
  ghost predicate StepBelow(interval: RoundingInterval, domain: ManagedOpeningQuantityDomain, k: nat) {
    interval.BelowUpper(DecimalValue(k * domain.brokerStepUnits, domain.canonicalScale))
  }

  ghost predicate StepAboveLower(interval: RoundingInterval, domain: ManagedOpeningQuantityDomain, k: nat) {
    StepAbove(interval.lower, interval.lowerInclusive, k, domain.brokerStepUnits, domain.canonicalScale)
  }

  lemma StepInside(interval: RoundingInterval, raw: nat, domain: ManagedOpeningQuantityDomain, k: nat)
    requires IntervalOf(interval, raw)
    ensures StepRounds(raw, domain, k)
       <==> domain.StepInRange(k) && StepAboveLower(interval, domain, k) && StepBelow(interval, domain, k)
  {
    hide DecimalValue;
    hide RoundsTo;
    assert interval.Contains(DecimalValue(k * domain.brokerStepUnits, domain.canonicalScale))
      <==> RoundsTo(DecimalValue(k * domain.brokerStepUnits, domain.canonicalScale), raw);
  }

  lemma StepBelowShrinks(interval: RoundingInterval, domain: ManagedOpeningQuantityDomain, a: nat, b: nat)
    requires a <= b && StepBelow(interval, domain, b)
    ensures StepBelow(interval, domain, a)
  {
    hide DecimalValue;
    var u := domain.brokerStepUnits;
    MulMonotone(a, b, u);
    if a * u < b * u { DecimalOrder(a * u, b * u, domain.canonicalScale); }
  }

  /** Every step count that rounds is at or after the first one above the lower boundary,
      so it and its successor decide. */
  lemma FirstStepDecides(interval: RoundingInterval, raw: nat, domain: ManagedOpeningQuantityDomain, first: nat, k: nat)
    requires IntervalOf(interval, raw) && domain.StepInRange(first) && StepAboveLower(interval, domain, first)
    requires forall j :: 1 <= j < first ==> !StepAboveLower(interval, domain, j)
    ensures !StepBelow(interval, domain, first) ==> !StepRounds(raw, domain, k)
    ensures domain.StepInRange(first + 1) && StepBelow(interval, domain, first + 1)
            ==> StepRounds(raw, domain, first) && StepRounds(raw, domain, first + 1)
    ensures StepBelow(interval, domain, first) && !(domain.StepInRange(first + 1) && StepBelow(interval, domain, first + 1))
            ==> (StepRounds(raw, domain, k) <==> k == first)
  {
    hide DecimalValue;
    hide RoundsTo;
    hide StepRounds;
    hide StepBelow;
    hide StepAbove;
    StepInside(interval, raw, domain, k);
    StepInside(interval, raw, domain, first);
    StepInside(interval, raw, domain, first + 1);
    var u := domain.brokerStepUnits;
    StepAboveGrows(interval.lower, interval.lowerInclusive, first, first + 1, u, domain.canonicalScale);
    if StepBelow(interval, domain, first + 1) { StepBelowShrinks(interval, domain, first, first + 1); }
    if StepRounds(raw, domain, k) {
      if first < k {
        MulMonotone(first + 1, k, u);
        StepBelowShrinks(interval, domain, first + 1, k);
      }
      if first <= k { StepBelowShrinks(interval, domain, first, k); }
    }
  }

  /** The search verdict: the first count above the lower boundary is the only one that
      rounds, exactly when it is below the upper boundary and its successor is not. */
  lemma SearchDecides(interval: RoundingInterval, raw: nat, domain: ManagedOpeningQuantityDomain, first: nat)
    requires IntervalOf(interval, raw) && domain.StepInRange(first) && StepAboveLower(interval, domain, first)
    requires forall j :: 1 <= j < first ==> !StepAboveLower(interval, domain, j)
    ensures var sole := StepBelow(interval, domain, first) && !(domain.StepInRange(first + 1) && StepBelow(interval, domain, first + 1));
            && (sole ==> forall k: nat :: SoleStepCount(raw, domain, k) <==> k == first)
            && (!sole ==> forall k: nat :: !SoleStepCount(raw, domain, k))
  {
    hide StepRounds;
    hide StepBelow;
    hide StepAbove;
    forall k: nat { FirstStepDecides(interval, raw, domain, first, k); }
    if StepBelow(interval, domain, first) && !(domain.StepInRange(first + 1) && StepBelow(interval, domain, first + 1)) {
      assert SoleStepCount(raw, domain, first);
    }
  }

  method BelowUpper(interval: RoundingInterval, domain: ManagedOpeningQuantityDomain, k: u64) returns (below: bool)
    requires interval.upper.exponent >= -1216 && domain.StepInRange(k)
    ensures below <==> StepBelow(interval, domain, k)
  {
    var c := CompareStepToBoundary(k, domain.brokerStepUnits, domain.canonicalScale, interval.upper);
    return c < 0 || (c == 0 && interval.upperInclusive);
  }

  lemma NoStepRounds(rawQuantity: u64, rawStep: nat, domain: ManagedOpeningQuantityDomain, k: nat)
    requires !(PositiveFinite(rawQuantity) && FiniteMagnitude(rawQuantity + 1))
    ensures !Determines(rawQuantity, rawStep, domain, k)
  {
    hide DecimalValue;
    hide RoundsTo;
    if domain.Valid() && domain.StepInRange(k) {
      MulMonotone(1, k, domain.brokerStepUnits);
      NoIntervalNoDecimal(rawQuantity, k * domain.brokerStepUnits, domain.canonicalScale);
    }
  }

  lemma NothingAbove(interval: RoundingInterval, raw: nat, domain: ManagedOpeningQuantityDomain, k: nat)
    requires IntervalOf(interval, raw)
    requires domain.StepInRange(k) ==> !StepAboveLower(interval, domain, k)
    ensures !SoleStepCount(raw, domain, k)
  {
    hide DecimalValue;
    hide RoundsTo;
    hide StepAbove;
    StepInside(interval, raw, domain, k);
  }

  function SealedQuantity(domain: ManagedOpeningQuantityDomain, k: u64): (q: ManagedOpeningQuantity)
    requires domain.Valid() && domain.StepInRange(k) && k * domain.managedUnitsPerStep <= domain.maxManagedUnits
    ensures q.Valid()
  {
    MulMonotone(1, k, domain.brokerStepUnits);
    MulMonotone(1, k, domain.managedUnitsPerStep);
    DivModUnique(k * domain.brokerStepUnits, domain.brokerStepUnits, k, 0);
    ManagedOpeningQuantity(domain.canonicalScale, domain.brokerStepUnits, k * domain.brokerStepUnits, k,
                           k * domain.managedUnitsPerStep)
  }

  /** Largest step count within the reviewed capacity and the 64-bit numerator. */
  function MaxSteps(domain: ManagedOpeningQuantityDomain): u64
    requires domain.Valid()
  {
    var capacity := U64_MAX / domain.brokerStepUnits;
    if domain.maxStepCount < capacity then domain.maxStepCount else capacity
  }

  lemma StepRange(domain: ManagedOpeningQuantityDomain)
    requires domain.Valid()
    ensures forall k: nat :: domain.StepInRange(k) <==> 1 <= k <= MaxSteps(domain)
  {
    forall k: nat ensures domain.StepInRange(k) <==> 1 <= k <= MaxSteps(domain) {
      QuotientCap(k, domain.brokerStepUnits, U64_MAX);
    }
  }

  /** The search and its two boundary checks find the only step count that rounds to raw. */
  method FindSoleStep(interval: RoundingInterval, domain: ManagedOpeningQuantityDomain, ghost raw: nat)
    returns (sole: Option<u64>)
    requires domain.Valid() && IntervalOf(interval, raw)
    requires interval.lower.exponent >= -1216 && interval.upper.exponent >= -1216
    ensures sole.None? ==> forall k: nat :: !SoleStepCount(raw, domain, k)
    ensures sole.Some? ==> SoleStepCount(raw, domain, sole.value)
  {
    hide DecimalValue;
    hide StepAbove;
    hide StepBelow;
    hide SoleStepCount;
    hide IntervalOf;
    hide ManagedOpeningQuantityDomain.StepInRange;
    hide MaxSteps;
    hide RoundingInterval.Contains;
    hide Rounds;
    var maxStepCount := MaxSteps(domain);
    StepRange(domain);
    var first := FirstStepAbove(interval.lower, domain.brokerStepUnits, domain.canonicalScale, interval.lowerInclusive, maxStepCount);
    if first.None? {
      forall k: nat { NothingAbove(interval, raw, domain, k); }
      return None;
    }
    SearchDecides(interval, raw, domain, first.value);
    var below := BelowUpper(interval, domain, first.value);
    if !below {
      return None;
    }
    if first.value < maxStepCount {
      below := BelowUpper(interval, domain, first.value + 1);
      if below { return None; }
    }
    return first;
  }

  /** Derivation succeeds exactly when the observation determines one step count, and
      delivers that count. */
  method Derive(rawQuantity: u64, rawStep: u64, domain: ManagedOpeningQuantityDomain)
    returns (quantity: Option<ManagedOpeningQuantity>)
    ensures quantity.None? ==> forall k: nat :: !Determines(rawQuantity, rawStep, domain, k)
    ensures quantity.Some? ==> Determines(rawQuantity, rawStep, domain, quantity.value.integerStepCount)
    ensures quantity.Some? ==> (var q := quantity.value;
            && q.Valid() && q.canonicalScale == domain.canonicalScale && q.brokerStepUnits == domain.brokerStepUnits
            && q.brokerUnits == q.integerStepCount * domain.brokerStepUnits
            && q.managedLogicalUnits == q.integerStepCount * domain.managedUnitsPerStep)
  {
    hide SoleNumerator;
    hide StepRounds;
    hide IntervalOf;
    if !domain.Valid() {
      return None;
    }
    var unique := DecimalIsUnique(rawStep, domain.brokerStepUnits, domain.canonicalScale);
    if !unique {
      return None;
    }
    var interval := RoundingIntervalOf(rawQuantity);
    if interval.None? {
      forall k: nat { NoStepRounds(rawQuantity, rawStep, domain, k); }
      return None;
    }
    var sole := FindSoleStep(interval.value, domain, rawQuantity);
    if sole.None? {
      return None;
    }
    QuotientCap(sole.value, domain.managedUnitsPerStep, domain.maxManagedUnits);
    if sole.value > domain.maxManagedUnits / domain.managedUnitsPerStep {
      return None;
    }
    SoleStepInRange(rawQuantity, domain, sole.value);
    quantity := Some(SealedQuantity(domain, sole.value));
  }

  lemma SoleStepInRange(raw: nat, domain: ManagedOpeningQuantityDomain, k: nat)
    requires SoleStepCount(raw, domain, k)
    ensures domain.StepInRange(k)
  {
  }

  /** A fresh raw volume matches when no other numerator could have produced it. */
  method Matches(rawQuantity: u64, quantity: ManagedOpeningQuantity) returns (matches: bool)
    ensures matches <==> quantity.Valid() && SoleNumerator(rawQuantity, quantity.brokerUnits, quantity.canonicalScale)
  {
    if !quantity.Valid() {
      return false;
    }
    matches := DecimalIsUnique(rawQuantity, quantity.brokerUnits, quantity.canonicalScale);
  }

  ghost predicate NeighboursMiss(raw: nat, units: nat, scale: nat) {
    && (units > 1 ==> !Rounds(raw, units - 1, scale))
    && (units < U64_MAX ==> !Rounds(raw, units + 1, scale))
  }

  /** A derived quantity matches its own observation exactly when neither neighbouring
      numerator, which the step search skips, rounds to the same double. */
  lemma DerivedMatchesIff(rawQuantity: u64, rawStep: u64, domain: ManagedOpeningQuantityDomain, k: nat)
    requires Determines(rawQuantity, rawStep, domain, k)
    ensures SoleNumerator(rawQuantity, k * domain.brokerStepUnits, domain.canonicalScale)
       <==> NeighboursMiss(rawQuantity, k * domain.brokerStepUnits, domain.canonicalScale)
  {
    hide DecimalValue;
    hide RoundsTo;
    var units, scale := k * domain.brokerStepUnits, domain.canonicalScale;
    MulMonotone(1, k, domain.brokerStepUnits);
    if PositiveFinite(rawQuantity) && FiniteMagnitude(rawQuantity + 1) {
      if NeighboursMiss(rawQuantity, units, scale) { NeighboursSuffice(rawQuantity, units, scale); }
    } else {
      NoIntervalNoDecimal(rawQuantity, units, scale);
    }
  }

  /** The neighbour test without an interval at hand: rounding itself is convex. */
  lemma NeighboursSuffice(raw: u64, units: u64, scale: nat)
    requires PositiveFinite(raw) && FiniteMagnitude(raw + 1) && units > 0 && Rounds(raw, units, scale)
    requires NeighboursMiss(raw, units, scale)
    ensures SoleNumerator(raw, units, scale)
  {
    hide DecimalValue;
    hide RoundsTo;
    forall other: nat | 0 < other <= U64_MAX && other != units ensures !Rounds(raw, other, scale) {
      if Rounds(raw, other, scale) {
        if other < units {
          RoundsIsConvex(raw, other, units - 1, units, scale);
        } else {
          RoundsIsConvex(raw, units, units + 1, other, scale);
        }
      }
    }
  }

  lemma RoundsIsConvex(raw: u64, a: nat, b: nat, c: nat, scale: nat)
    requires PositiveFinite(raw) && FiniteMagnitude(raw + 1) && a <= b <= c
    requires Rounds(raw, a, scale) && Rounds(raw, c, scale)
    ensures Rounds(raw, b, scale)
  {
    hide DecimalValue;
    hide RoundsTo;
    hide ScaledDouble;
    hide EvenSignificand;
    hide Pow2;
    var k := 1075 + raw;
    MidpointsDecideRounding(DecimalValue(a, scale), raw, k);
    MidpointsDecideRounding(DecimalValue(b, scale), raw, k);
    MidpointsDecideRounding(DecimalValue(c, scale), raw, k);
    if a < b { DecimalOrder(a, b, scale); }
    if b < c { DecimalOrder(b, c, scale); }
    RealScaleOrder(DecimalValue(a, scale), DecimalValue(b, scale), Pow2(k) as real);
    RealScaleOrder(DecimalValue(b, scale), DecimalValue(c, scale), Pow2(k) as real);
  }

  lemma ScaledTwoTo54(k: nat, p: nat)
    requires k >= 1075 && p == Pow2(k)
    ensures ScaledDouble(0x434F_FFFF_FFFF_FFFF, k) == 0x3F_FFFF_FFFF_FFFE * p
    ensures ScaledDouble(0x4350_0000_0000_0000, k) == 0x40_0000_0000_0000 * p
    ensures ScaledDouble(0x4350_0000_0000_0001, k) == 0x40_0000_0000_0004 * p
  {
    hide Pow2;
    Pow2Doubles(k);
    assert Exponent(0x434F_FFFF_FFFF_FFFF) == 1 && Significand(0x434F_FFFF_FFFF_FFFF) == 0x1F_FFFF_FFFF_FFFF;
    assert Exponent(0x4350_0000_0000_0000) == 2 && Significand(0x4350_0000_0000_0000) == 0x10_0000_0000_0000;
    assert Exponent(0x4350_0000_0000_0001) == 2 && Significand(0x4350_0000_0000_0001) == 0x10_0000_0000_0001;
  }

  /** The double 2^54 is what the integers 2^54 - 1 up to 2^54 + 2 round to. */
  lemma IntegersAroundTwoTo54(units: nat, k: nat)
    requires k >= 1075
    ensures Rounds(0x4350_0000_0000_0000, units, 0) <==> 0x3F_FFFF_FFFF_FFFF <= units <= 0x40_0000_0000_0002
  {
    hide RoundsTo;
    hide Pow2;
    hide ScaledDouble;
    var x, p := DecimalValue(units, 0), Pow2(k);
    MidpointsDecideRounding(x, 0x4350_0000_0000_0000, k);
    assert EvenSignificand(0x4350_0000_0000_0000);
    assert x == units as real;
    RealProduct(units, p);
    ScaledTwoTo54(k, p);
    if units <= 0x3F_FFFF_FFFF_FFFE { MulMonotone(units, 0x3F_FFFF_FFFF_FFFE, p); } else { MulMonotone(0x3F_FFFF_FFFF_FFFF, units, p); }
    if units <= 0x40_0000_0000_0002 { MulMonotone(units, 0x40_0000_0000_0002, p); } else { MulMonotone(0x40_0000_0000_0003, units, p); }
  }

  lemma Pow2Doubles(k: nat)
    ensures Pow2(k + 1) == 2 * Pow2(k) && Pow2(k + 2) == 4 * Pow2(k)
  {
    assert Pow2(k + 2) == 2 * Pow2(k + 1);
  }

  lemma ScaledFour(k: nat, p: nat)
    requires k >= 1075 && p == Pow2(k - 51)
    ensures ScaledDouble(0x400F_FFFF_FFFF_FFFF, k) == 0x1F_FFFF_FFFF_FFFF * p
    ensures ScaledDouble(0x4010_0000_0000_0000, k) == 0x20_0000_0000_0000 * p
    ensures ScaledDouble(0x4010_0000_0000_0001, k) == 0x20_0000_0000_0002 * p
    ensures Pow2(k) == 0x8_0000_0000_0000 * p
  {
    Pow2Of52();
    Pow2Add(52, k - 51);
    Pow2Doubles(k - 51);
    hide Pow2;
    Pow2Doubles(k);
  }

  /** 4.0 is what the integer 4 alone rounds to. */
  lemma IntegersAroundFour(units: nat, k: nat)
    requires k >= 1075
    ensures Rounds(0x4010_0000_0000_0000, units, 0) <==> units == 4
  {
    hide RoundsTo;
    hide Pow2;
    hide ScaledDouble;
    var x, p := DecimalValue(units, 0), Pow2(k - 51);
    MidpointsDecideRounding(x, 0x4010_0000_0000_0000, k);
    assert EvenSignificand(0x4010_0000_0000_0000);
    assert x == units as real;
    RealProduct(units, Pow2(k));
    ScaledFour(k, p);
    if units <= 3 { MulMonotone(units, 3, Pow2(k)); }
    if units >= 5 { MulMonotone(5, units, Pow2(k)); }
  }

  /** The search and the match disagree: with whole units in steps of four, the volume 2^54
      is derived, yet does not match the quantity derived from it. */
  lemma DerivedNeedNotMatch()
    ensures var domain := ManagedOpeningQuantityDomain(0, 4, 1, U64_MAX, U64_MAX);
            && Determines(0x4350_0000_0000_0000, 0x4010_0000_0000_0000, domain, 0x10_0000_0000_0000)
            && !SoleNumerator(0x4350_0000_0000_0000, 0x40_0000_0000_0000, 0)
  {
    hide Rounds;
    var k: nat :| k >= 1075;
    var domain := ManagedOpeningQuantityDomain(0, 4, 1, U64_MAX, U64_MAX);
    forall units: nat ensures Rounds(0x4010_0000_0000_0000, units, 0) <==> units == 4 {
      IntegersAroundFour(units, k);
    }
    forall j: nat ensures StepRounds(0x4350_0000_0000_0000, domain, j) <==> j == 0x10_0000_0000_0000 {
      IntegersAroundTwoTo54(j * 4, k);
    }
    IntegersAroundTwoTo54(0x40_0000_0000_0001, k);
  }
}
