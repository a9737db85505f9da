/** The 40-limb checked integer behind every exact volume comparison
    (src/dispatch/managed_opening_quantity_contract.hpp:26-126). */
module BigUnsigned {
  import opened MachineWords

  const LIMB_COUNT: nat := 40
  const LIMB_BITS: nat := 32

  type Limbs = s: seq<u32> | |s| == 40 witness seq(40, _ => 0)

  /** The integer that little-endian columns stand for; a column may exceed one limb. */
  function ValueOf(s: seq<nat>): (v: nat) {
    if s == [] then 0 else s[0] + 0x1_0000_0000 * ValueOf(s[1..])
  }

  /** Weight of limb n. */
  function Weight(n: nat): (w: nat)
    ensures w >= 1
  {
    if n == 0 then 1 else 0x1_0000_0000 * Weight(n - 1)
  }

  lemma {:induction false} WeightIsPow2(n: nat)
    ensures Weight(n) == Pow2(32 * n)
  {
    if n > 0 {
      WeightIsPow2(n - 1);
      Pow2Of32();
      Pow2Add(32, 32 * (n - 1));
    }
  }

  lemma {:induction false} WeightAdd(i: nat, j: nat)
    ensures Weight(i + j) == Weight(i) * Weight(j)
  {
    if i > 0 {
      WeightAdd(i - 1, j);
      MulAssociate(0x1_0000_0000, Weight(i - 1), Weight(j));
    }
  }

  lemma {:induction false} ValueOfBound(s: seq<u32>)
    ensures ValueOf(s) < Weight(|s|)
  {
    if s != [] { ValueOfBound(s[1..]); }
  }

  /** Splitting a limb sequence splits its value at the weight of the cut. */
  lemma {:induction false} ValueOfConcat(a: seq<nat>, b: seq<nat>)
    ensures ValueOf(a + b) == ValueOf(a) + ValueOf(b) * Weight(|a|)
  {
    if a == [] {
      assert a + b == b;
    } else {
      assert (a + b)[1..] == a[1..] + b;
      ValueOfConcat(a[1..], b);
      var v, w := ValueOf(b), Weight(|a| - 1);
      assert v * (0x1_0000_0000 * w) == 0x1_0000_0000 * (v * w);
    }
  }

  lemma {:induction false} ValueOfZero(s: seq<nat>)
    ensures ValueOf(s) == 0 <==> forall i :: 0 <= i < |s| ==> s[i] == 0
  {
    if s != [] {
      ValueOfZero(s[1..]);
      assert forall i :: 1 <= i < |s| ==> s[i] == s[1..][i - 1];
    }
  }

  /** Limb sequences of one length are ordered by their highest differing limb. */
  lemma {:induction false} ValueOfOrder(a: seq<u32>, b: seq<u32>, k: nat)
    requires |a| == |b| && k < |a| && a[k] < b[k] && a[k + 1..] == b[k + 1..]
    ensures ValueOf(a) < ValueOf(b)
  {
    if k > 0 {
      assert a[1..][k..] == a[k + 1..] && b[1..][k..] == b[k + 1..];
      ValueOfOrder(a[1..], b[1..], k - 1);
    }
  }

  /** The columns of a sum. */
  function SumColumns(x: seq<u32>, y: seq<u32>): (c: seq<nat>)
    requires |x| == |y|
  {
    seq<nat>(|x|, i requires 0 <= i < |x| => x[i] as int + y[i] as int)
  }

  /** The columns of a product with one word. */
  function ScaledColumns(x: seq<u32>, factor: nat): (c: seq<nat>) {
    seq<nat>(|x|, i requires 0 <= i < |x| => x[i] * factor)
  }

  lemma {:induction false} SumColumnsValue(x: seq<u32>, y: seq<u32>)
    requires |x| == |y|
    ensures ValueOf(SumColumns(x, y)) == ValueOf(x) + ValueOf(y)
  {
    if x != [] {
      assert SumColumns(x, y)[1..] == SumColumns(x[1..], y[1..]);
      SumColumnsValue(x[1..], y[1..]);
    }
  }

  lemma {:induction false} ScaledColumnsValue(x: seq<u32>, factor: nat)
    ensures ValueOf(ScaledColumns(x, factor)) == ValueOf(x) * factor
  {
    if x != [] {
      assert ScaledColumns(x, factor)[1..] == ScaledColumns(x[1..], factor);
      ScaledColumnsValue(x[1..], factor);
      var v := ValueOf(x[1..]);
      assert (x[0] + 0x1_0000_0000 * v) * factor == x[0] * factor + 0x1_0000_0000 * (v * factor);
    }
  }

  /** Digits and final carry of a carry chain over columns. */
  function Normalize(columns: seq<nat>, carry: nat): (r: (seq<u32>, nat))
    ensures |r.0| == |columns|
  {
    if columns == [] then ([], carry)
    else
      var total := columns[0] + carry;
      var rest := Normalize(columns[1..], total / 0x1_0000_0000);
      ([total % 0x1_0000_0000] + rest.0, rest.1)
  }

  lemma CarryWeight(carry: nat, w: nat)
    ensures carry * (0x1_0000_0000 * w) == 0x1_0000_0000 * (carry * w)
  {
  }

  /** A carry chain loses nothing: the digits and the carry hold the columns' value. */
  lemma {:induction false} NormalizeValue(columns: seq<nat>, carry: nat)
    ensures var r := Normalize(columns, carry);
            ValueOf(r.0) + r.1 * Weight(|columns|) == ValueOf(columns) + carry
  {
    if columns != [] {
      var total := columns[0] + carry;
      NormalizeValue(columns[1..], total / 0x1_0000_0000);
      var rest := Normalize(columns[1..], total / 0x1_0000_0000);
      assert Normalize(columns, carry).0[1..] == rest.0;
      CarryWeight(rest.1, Weight(|columns| - 1));
    }
  }

  /** An exact result splits into what the limbs keep and what falls off the top. */
  lemma CapacitySplit(kept: nat, carry: nat, capacity: nat, exact: nat)
    requires kept < capacity && exact == kept + carry * capacity
    ensures carry == 0 <==> exact < capacity
    ensures carry == 0 ==> kept == exact
  {
    if carry > 0 { MulMonotone(1, carry, capacity); }
  }

  /** A full-width carry chain reports overflow exactly and keeps the value otherwise. */
  lemma NormalizeFits(columns: seq<nat>)
    ensures var r := Normalize(columns, 0);
            && (r.1 == 0 <==> ValueOf(columns) < Weight(|columns|))
            && (r.1 == 0 ==> ValueOf(r.0) == ValueOf(columns))
  {
    NormalizeValue(columns, 0);
    var r := Normalize(columns, 0);
    ValueOfBound(r.0);
    CapacitySplit(ValueOf(r.0), r.1, Weight(|columns|), ValueOf(columns));
  }

  /** The carry that enters column i. */
  function CarryAt(columns: seq<nat>, carry: nat, i: nat): (c: nat)
    requires i <= |columns|
  {
    if i == 0 then carry else CarryAt(columns[1..], (columns[0] + carry) / 0x1_0000_0000, i - 1)
  }

  /** One turn of a carry loop: digit i, and the carry into the next column. */
  lemma {:induction false} CarryTurn(columns: seq<nat>, carry: nat, i: nat)
    requires i < |columns|
    ensures var total := columns[i] + CarryAt(columns, carry, i);
            && Normalize(columns, carry).0[i] == total % 0x1_0000_0000
            && CarryAt(columns, carry, i + 1) == total / 0x1_0000_0000
  {
    if i > 0 {
      CarryTurn(columns[1..], (columns[0] + carry) / 0x1_0000_0000, i - 1);
    }
  }

  lemma {:induction false} CarryEnd(columns: seq<nat>, carry: nat)
    ensures CarryAt(columns, carry, |columns|) == Normalize(columns, carry).1
  {
    if columns != [] {
      CarryEnd(columns[1..], (columns[0] + carry) / 0x1_0000_0000);
    }
  }

  /** Scaled limbs carry less than the factor. */
  lemma CarryBelow(limb: u32, factor: nat, carry: nat)
    requires carry < factor
    ensures (limb * factor + carry) / 0x1_0000_0000 < factor
  {
    MulMonotone(limb + 1, 0x1_0000_0000, factor);
    MulDistribute(limb, 1, factor);
  }

  /** Shifting by the whole capacity or more leaves only zero. */
  lemma ShiftOut(v: nat, n: nat, bits: nat)
    requires bits >= 32 * n
    ensures v == 0 <==> v * Pow2(bits) < Weight(n)
  {
    var extra := bits - 32 * n;
    WeightIsPow2(n);
    Pow2Add(extra, 32 * n);
    MulAssociate(v, Pow2(extra), Weight(n));
    if v > 0 {
      MulMonotone(1, v, Pow2(extra));
      MulMonotone(1, v * Pow2(extra), Weight(n));
    }
  }

  /** `whole` zero limbs below a carry chain over the scaled low limbs hold the shifted
      value exactly when neither the chain nor the dropped high limbs lose anything. */
  lemma ShiftedValue(low: seq<u32>, high: seq<u32>, whole: nat, partial: nat)
    requires |high| == whole
    ensures var r := Normalize(ScaledColumns(low, Pow2(partial)), 0);
            var kept: seq<u32> := seq(whole, _ => 0) + r.0;
            var exact := ValueOf(low + high) * Pow2(whole * 32 + partial);
            && (r.1 == 0 && ValueOf(high) == 0 <==> exact < Weight(|low| + whole))
            && (r.1 == 0 && ValueOf(high) == 0 ==> ValueOf(kept) == exact)
  {
    var columns := ScaledColumns(low, Pow2(partial));
    var r := Normalize(columns, 0);
    ScaledColumnsValue(low, Pow2(partial));
    NormalizeValue(columns, 0);
    var zeros: seq<u32> := seq(whole, _ => 0);
    ValueOfZero(zeros);
    ValueOfConcat(zeros, r.0);
    ValueOfBound(zeros + r.0);
    ValueOfConcat(low, high);
    WeightAdd(|low|, whole);
    WeightIsPow2(whole);
    Pow2Add(partial, 32 * whole);
    ShiftCore(ValueOf(low), ValueOf(high), Pow2(partial), Weight(whole), Weight(|low|),
              ValueOf(r.0), r.1, ValueOf(zeros + r.0));
  }

  lemma ShiftCore(l: nat, h: nat, p: nat, w: nat, u: nat, digits: nat, carry: nat, kept: nat)
    requires digits + carry * u == l * p && p >= 1
    requires kept == digits * w && kept < u * w
    ensures carry == 0 && h == 0 <==> (l + h * u) * (p * w) < u * w
    ensures carry == 0 && h == 0 ==> kept == (l + h * u) * (p * w)
  {
    ShiftAlgebra(l, h, p, w, u, digits, carry);
    if h > 0 { MulMonotone(1, h, p); }
    CapacitySplit(kept, carry + h * p, u * w, (l + h * u) * (p * w));
  }

  lemma ShiftAlgebra(l: nat, h: nat, p: nat, w: nat, u: nat, digits: nat, carry: nat)
    requires digits + carry * u == l * p
    ensures (l + h * u) * (p * w) == digits * w + (carry + h * p) * (u * w)
  {
    calc {
      (l + h * u) * (p * w);
      { MulDistribute(l, h * u, p * w); MulAssociate(l, p, w); Rearrange(h, u, p, w); }
      (l * p) * w + (h * p) * (u * w);
      { MulDistribute(digits, carry * u, w); MulAssociate(carry, u, w); }
      digits * w + carry * (u * w) + (h * p) * (u * w);
      { MulDistribute(carry, h * p, u * w); }
      digits * w + (carry + h * p) * (u * w);
    }
  }

  lemma Rearrange(a: nat, b: nat, c: nat, d: nat)
    ensures (a * b) * (c * d) == (a * c) * (b * d)
  {
    MulAssociate(a, b, c * d);
    MulAssociate(b, c, d);
    MulAssociate(c, b, d);
    MulAssociate(a, c, b * d);
  }

  class OpeningQuantityBigUnsigned {
    var limbs: array<u32>

    ghost function Value(): nat
      reads this, limbs
    {
      ValueOf(limbs[..])
    }

    /** First integer that does not fit; 2^1280 for the source's 40 limbs. */
    ghost function Capacity(): nat
      reads this
    {
      Weight(limbs.Length)
    }

    constructor FromU64(value: u64)
      ensures limbs.Length == LIMB_COUNT && fresh(limbs)
      ensures Value() == value
    {
      var a := new u32[LIMB_COUNT](_ => 0);
      a[0], a[1] := value % 0x1_0000_0000, value / 0x1_0000_0000;
      limbs := a;
      new;
      ghost var s: seq<u32> := limbs[..];
      ValueOfZero(s[2..]);
      assert s[1..][1..] == s[2..];
      assert ValueOf(s[1..]) == s[1];
      assert ValueOf(s) == s[0] + 0x1_0000_0000 * ValueOf(s[1..]);
    }

    /** A working copy of stored limbs. */
    constructor FromLimbs(source: Limbs)
      ensures limbs.Length == LIMB_COUNT && fresh(limbs)
      ensures limbs[..] == source
    {
      limbs := new u32[LIMB_COUNT](i requires 0 <= i < LIMB_COUNT => source[i]);
    }

    method Zero() returns (z: bool)
      ensures z <==> Value() == 0
    {
      ValueOfZero(limbs[..]);
      for i := 0 to limbs.Length
        invariant forall k :: 0 <= k < i ==> limbs[k] == 0
      {
        if limbs[i] != 0 { return false; }
      }
      return true;
    }

    /** Adds in place: the limbs become the normalized column sums, and the call
        succeeds exactly when the true sum fits. */
    method Add(other: OpeningQuantityBigUnsigned) returns (fits: bool)
      requires other.limbs.Length == limbs.Length
      modifies limbs
      ensures limbs[..] == Normalize(SumColumns(old(limbs[..]), old(other.limbs[..])), 0).0
      ensures fits <==> old(Value()) + old(other.Value()) < Capacity()
      ensures fits ==> Value() == old(Value()) + old(other.Value())
    {
      ghost var x, y := limbs[..], other.limbs[..];
      ghost var columns := SumColumns(x, y);
      SumColumnsValue(x, y);
      NormalizeFits(columns);
      CarryEnd(columns, 0);
      var carry := 0;
      for i := 0 to limbs.Length
        invariant 0 <= carry <= 1 && carry == CarryAt(columns, 0, i)
        invariant forall k :: 0 <= k < i ==> limbs[k] == Normalize(columns, 0).0[k]
        invariant forall k :: i <= k < limbs.Length ==> limbs[k] == x[k] && other.limbs[k] == y[k]
      {
        CarryTurn(columns, 0, i);
        var sum: nat := limbs[i] as int + other.limbs[i] as int + carry;
        limbs[i] := sum % 0x1_0000_0000;
        carry := sum / 0x1_0000_0000;
      }
      assert limbs[..] == Normalize(columns, 0).0;
      return carry == 0;
    }

    /** Multiplies in place by one 32-bit word, with the same overflow report. */
    method MultiplySmall(multiplier: u32) returns (fits: bool)
      modifies limbs
      ensures limbs[..] == Normalize(ScaledColumns(old(limbs[..]), multiplier), 0).0
      ensures fits <==> old(Value()) * multiplier < Capacity()
      ensures fits ==> Value() == old(Value()) * multiplier
    {
      ghost var x := limbs[..];
      ghost var columns := ScaledColumns(x, multiplier);
      ScaledColumnsValue(x, multiplier);
      NormalizeFits(columns);
      CarryEnd(columns, 0);
      var carry := 0;
      for i := 0 to limbs.Length
        invariant 0 <= carry < Max(multiplier, 1) && carry == CarryAt(columns, 0, i)
        invariant forall k :: 0 <= k < i ==> limbs[k] == Normalize(columns, 0).0[k]
        invariant forall k :: i <= k < limbs.Length ==> limbs[k] == x[k]
      {
        CarryTurn(columns, 0, i);
        if multiplier > 0 { CarryBelow(limbs[i], multiplier, carry); }
        var product := limbs[i] * multiplier + carry;
        limbs[i] := product % 0x1_0000_0000;
        carry := product / 0x1_0000_0000;
      }
      assert limbs[..] == Normalize(columns, 0).0;
      return carry == 0;
    }

    /** Shifts left in place. The carry stays below 2^partial and so fills the zero low
        bits of the next shifted limb: the source's bitwise or is a sum here. */
    method ShiftLeft(bits: nat) returns (fits: bool)
      modifies this, limbs
      ensures limbs.Length == old(limbs.Length) && (limbs == old(limbs) || fresh(limbs))
      ensures fits <==> old(Value()) * Pow2(bits) < Capacity()
      ensures fits ==> Value() == old(Value()) * Pow2(bits)
    {
      ghost var x := limbs[..];
      if bits == 0 {
        ValueOfBound(x);
        return true;
      }
      if bits >= limbs.Length * LIMB_BITS {
        fits := Zero();
        ShiftOut(ValueOf(x), limbs.Length, bits);
        limbs := new u32[limbs.Length](_ => 0);
        ValueOfZero(limbs[..]);
        return;
      }
      var whole, partial := bits / LIMB_BITS, bits % LIMB_BITS;
      ghost var low, high := x[..limbs.Length - whole], x[limbs.Length - whole..];
      fits := HighLimbsZero(whole);
      var carry;
      carry := ShiftInto(whole, partial);
      assert x == low + high;
      ShiftedValue(low, high, whole, partial);
      if carry != 0 { fits := false; }
    }

    method HighLimbsZero(whole: nat) returns (zero: bool)
      requires whole < limbs.Length
      ensures zero <==> ValueOf(limbs[limbs.Length - whole..]) == 0
    {
      ghost var high := limbs[limbs.Length - whole..];
      ValueOfZero(high);
      zero := true;
      for i := limbs.Length - whole to limbs.Length
        invariant zero <==> forall k :: 0 <= k < i - (limbs.Length - whole) ==> high[k] == 0
      {
        if limbs[i] != 0 {
          assert high[i - (limbs.Length - whole)] != 0;
          zero := false;
        }
      }
    }

    method ShiftInto(whole: nat, partial: nat) returns (carry: nat)
      requires whole < limbs.Length && partial < LIMB_BITS
      modifies this
      ensures limbs.Length == old(limbs.Length) && fresh(limbs)
      ensures var r := Normalize(ScaledColumns(old(limbs[..limbs.Length - whole]), Pow2(partial)), 0);
              limbs[..] == seq(whole, _ => 0) + r.0 && carry == r.1
    {
      ghost var low := limbs[..limbs.Length - whole];
      ghost var columns := ScaledColumns(low, Pow2(partial));
      var factor := Pow2(partial);
      var shifted := new u32[limbs.Length](_ => 0);
      carry := 0;
      for i := 0 to limbs.Length - whole
        invariant 0 <= carry < factor && carry == CarryAt(columns, 0, i)
        invariant limbs == old(limbs) && limbs[..limbs.Length - whole] == low
        invariant forall k :: 0 <= k < whole ==> shifted[k] == 0
        invariant forall k :: 0 <= k < i ==> shifted[k + whole] == Normalize(columns, 0).0[k]
      {
        assert limbs[i] == low[i];
        CarryTurn(columns, 0, i);
        CarryBelow(limbs[i], factor, carry);
        var value := limbs[i] * factor + carry;
        shifted[i + whole] := value % 0x1_0000_0000;
        carry := value / 0x1_0000_0000;
      }
      CarryEnd(columns, 0);
      assert shifted[..] == seq(whole, _ => 0) + Normalize(columns, 0).0;
      limbs := shifted;
    }

    /** Three-way comparison from the highest limb down. */
    method Compare(other: OpeningQuantityBigUnsigned) returns (c: int)
      requires other.limbs.Length == limbs.Length
      ensures c == if Value() < other.Value() then -1 else if Value() == other.Value() then 0 else 1
    {
      var i := limbs.Length;
      while i != 0
        invariant 0 <= i <= limbs.Length
        invariant limbs[i..] == other.limbs[i..]
      {
        if limbs[i - 1] != other.limbs[i - 1] {
          if limbs[i - 1] < other.limbs[i - 1] {
            ValueOfOrder(limbs[..], other.limbs[..], i - 1);
            return -1;
          }
          ValueOfOrder(other.limbs[..], limbs[..], i - 1);
          return 1;
        }
        assert limbs[i - 1..] == [limbs[i - 1]] + limbs[i..];
        assert other.limbs[i - 1..] == [other.limbs[i - 1]] + other.limbs[i..];
        i := i - 1;
      }
      assert limbs[..] == limbs[0..] == other.limbs[0..] == other.limbs[..];
      return 0;
    }
  }
}
