/** IEEE-754 binary64 values, identified by their 64-bit patterns.

    Minimum, maximum and comparison work on the patterns exactly as Go's math.Min,
    math.Max and cmp.Compare do, with NaN, the infinities and signed zeros. */
module Floats {
  import opened Words

  const POS_INF: uint64 := 0x7FF0_0000_0000_0000
  const NEG_INF: uint64 := 0xFFF0_0000_0000_0000
  const CANONICAL_NAN: uint64 := 0x7FF8_0000_0000_0001
  const TWO_TO_THE_52: int := 0x10_0000_0000_0000
  const NEG_ZERO: uint64 := TWO_TO_THE_63

  predicate SignBit(b: uint64) { b >= TWO_TO_THE_63 }

  /** The pattern without its sign bit. */
  function Payload(b: uint64): nat {
    if SignBit(b) then b - TWO_TO_THE_63 else b
  }

  predicate IsNaN(b: uint64) { Payload(b) > POS_INF }

  predicate IsFinite(b: uint64) { Payload(b) < POS_INF }

  predicate IsZero(b: uint64) { Payload(b) == 0 }

  /** Sign-magnitude order of the patterns; both zeros sit at 0. */
  function Rank(b: uint64): int {
    if SignBit(b) then 0 - Payload(b) else Payload(b)
  }

  predicate Less(x: uint64, y: uint64) {
    !IsNaN(x) && !IsNaN(y) && Rank(x) < Rank(y)
  }

  // ---------- minimum and maximum ----------

  function MathMin(x: uint64, y: uint64): uint64 {
    if x == NEG_INF || y == NEG_INF then NEG_INF
    else if IsNaN(x) || IsNaN(y) then CANONICAL_NAN
    else if IsZero(x) && IsZero(y) then (if SignBit(x) then x else y)
    else if Less(x, y) then x
    else y
  }

  function MathMax(x: uint64, y: uint64): uint64 {
    if x == POS_INF || y == POS_INF then POS_INF
    else if IsNaN(x) || IsNaN(y) then CANONICAL_NAN
    else if IsZero(x) && IsZero(y) then (if SignBit(x) then y else x)
    else if Less(y, x) then x
    else y
  }

  /** Total order of the non-NaN patterns, with -0 below +0. */
  function Order(b: uint64): int {
    if SignBit(b) then -1 - Payload(b) else Payload(b)
  }

  lemma MinByOrder(x: uint64, y: uint64)
    requires !IsNaN(x) && !IsNaN(y)
    ensures MathMin(x, y) == if Order(x) <= Order(y) then x else y
  {
  }

  lemma MaxByOrder(x: uint64, y: uint64)
    requires !IsNaN(x) && !IsNaN(y)
    ensures MathMax(x, y) == if Order(x) >= Order(y) then x else y
  {
  }

  /** The running minimum does not depend on arrival order or on how the values are
      bracketed, NaN included: an infinity of the winning sign beats NaN, NaN beats
      every other value. */
  lemma MinIsOrderIndependent(x: uint64, y: uint64, z: uint64)
    ensures MathMin(x, y) == MathMin(y, x)
    ensures MathMin(MathMin(x, y), z) == MathMin(x, MathMin(y, z))
    ensures MathMin(MathMin(x, y), z) == MathMin(MathMin(x, z), y)
  {
    if IsNaN(x) || IsNaN(y) || IsNaN(z) || x == NEG_INF || y == NEG_INF || z == NEG_INF {
      assert !IsNaN(NEG_INF) && IsNaN(CANONICAL_NAN);
    } else {
      MinByOrder(x, y);
      MinByOrder(y, x);
      MinByOrder(y, z);
      MinByOrder(x, z);
      MinByOrder(MathMin(x, y), z);
      MinByOrder(x, MathMin(y, z));
      MinByOrder(MathMin(x, z), y);
    }
  }

  lemma MaxIsOrderIndependent(x: uint64, y: uint64, z: uint64)
    ensures MathMax(x, y) == MathMax(y, x)
    ensures MathMax(MathMax(x, y), z) == MathMax(x, MathMax(y, z))
    ensures MathMax(MathMax(x, y), z) == MathMax(MathMax(x, z), y)
  {
    if IsNaN(x) || IsNaN(y) || IsNaN(z) || x == POS_INF || y == POS_INF || z == POS_INF {
      assert !IsNaN(POS_INF) && IsNaN(CANONICAL_NAN);
    } else {
      MaxByOrder(x, y);
      MaxByOrder(y, x);
      MaxByOrder(y, z);
      MaxByOrder(x, z);
      MaxByOrder(MathMax(x, y), z);
      MaxByOrder(x, MathMax(y, z));
      MaxByOrder(MathMax(x, z), y);
    }
  }

  // ---------- cmp.Compare ----------

  function Compare(x: uint64, y: uint64): int {
    if IsNaN(x) then (if IsNaN(y) then 0 else -1)
    else if IsNaN(y) then 1
    else if Less(x, y) then -1
    else if Less(y, x) then 1
    else 0
  }

  /** Which distinct bit patterns the comparison cannot tell apart: two NaNs, or the
      two zeros, and nothing else. */
  lemma CompareTies(x: uint64, y: uint64)
    ensures Compare(x, y) == 0 <==> x == y || (IsNaN(x) && IsNaN(y)) || (IsZero(x) && IsZero(y))
  {
  }

  // ---------- exact values ----------

  function Pow2(n: nat): nat {
    if n == 0 then 1 else 2 * Pow2(n - 1)
  }

  lemma {:induction false} PowPositive(n: nat)
    ensures Pow2(n) >= 1
  {
    if n > 0 {
      PowPositive(n - 1);
    }
  }

  /** 1.0 is two to this many units. */
  const EXPONENT_OF_ONE: nat := 1074

  function UnitsPerOne(): (n: nat)
    ensures n > 0
  {
    PowPositive(EXPONENT_OF_ONE);
    Pow2(EXPONENT_OF_ONE)
  }

  /** A magnitude in units of 2^-1074, the smallest positive binary64 value. */
  function Magnitude(p: nat): nat {
    var e, f := p / TWO_TO_THE_52, p % TWO_TO_THE_52;
    if e == 0 then f else (TWO_TO_THE_52 + f) * Pow2(e - 1)
  }

  /** The value of a finite pattern, in the same units. */
  function Units(b: uint64): int {
    if SignBit(b) then 0 - Magnitude(Payload(b)) else Magnitude(Payload(b))
  }

  datatype Extended = Finite(units: int) | PosInfinity | NegInfinity | NotANumber

  function Decode(b: uint64): Extended {
    if IsNaN(b) then NotANumber
    else if b == POS_INF then PosInfinity
    else if b == NEG_INF then NegInfinity
    else Finite(Units(b))
  }

  lemma MagnitudeStep(p: nat)
    ensures Magnitude(p) < Magnitude(p + 1)
  {
    var e, f := p / TWO_TO_THE_52, p % TWO_TO_THE_52;
    if f + 1 < TWO_TO_THE_52 {
      assert (p + 1) / TWO_TO_THE_52 == e && (p + 1) % TWO_TO_THE_52 == f + 1;
      if e > 0 {
        PowPositive(e - 1);
        assert (TWO_TO_THE_52 + f + 1) * Pow2(e - 1) == (TWO_TO_THE_52 + f) * Pow2(e - 1) + Pow2(e - 1);
      }
    } else {
      assert (p + 1) / TWO_TO_THE_52 == e + 1 && (p + 1) % TWO_TO_THE_52 == 0;
      if e > 0 {
        PowPositive(e - 1);
        var w := Pow2(e - 1);
        assert Pow2(e) == 2 * w;
        assert (TWO_TO_THE_52 + f) * w == 2 * TWO_TO_THE_52 * w - w;
      }
    }
  }

  lemma {:induction false} MagnitudeMonotone(p: nat, q: nat)
    requires p < q
    ensures Magnitude(p) < Magnitude(q)
    decreases q - p
  {
    MagnitudeStep(p);
    if p + 1 < q {
      MagnitudeMonotone(p + 1, q);
    }
  }

  lemma FiniteRankIsValueOrder(x: uint64, y: uint64)
    requires Decode(x).Finite? && Decode(y).Finite?
    ensures Less(x, y) <==> Decode(x).units < Decode(y).units
  {
    var p, q := Payload(x), Payload(y);
    assert Magnitude(0) == 0;
    if p != 0 { MagnitudeMonotone(0, p); }
    if q != 0 { MagnitudeMonotone(0, q); }
    if p < q { MagnitudeMonotone(p, q); }
    if q < p { MagnitudeMonotone(q, p); }
  }

  /** The order of the numbers, with the infinities at its ends. */
  predicate Below(a: Extended, b: Extended)
    requires !a.NotANumber? && !b.NotANumber?
  {
    if a.Finite? && b.Finite? then a.units < b.units
    else a != b && (a.NegInfinity? || b.PosInfinity?)
  }

  /** Comparing patterns by sign and magnitude is comparing the values they denote. */
  lemma RankIsValueOrder(x: uint64, y: uint64)
    requires !IsNaN(x) && !IsNaN(y)
    ensures Less(x, y) <==> Below(Decode(x), Decode(y))
  {
    hide Magnitude;
    if Decode(x).Finite? && Decode(y).Finite? {
      FiniteRankIsValueOrder(x, y);
    }
  }

  /** The order that minima and maxima go by is that of the values, with -0 below +0. */
  lemma OrderIsValueOrder(x: uint64, y: uint64)
    requires !IsNaN(x) && !IsNaN(y)
    ensures Order(x) < Order(y) <==> Below(Decode(x), Decode(y)) || (x == NEG_ZERO && y == 0)
  {
    hide Magnitude;
    RankIsValueOrder(x, y);
  }
}
