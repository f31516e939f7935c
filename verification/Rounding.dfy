/** Binary64 arithmetic: the nearest pattern to an exact quotient, ties to even, and the sums,
    quotients and conversions it defines. */
module Rounding {
  import opened Words
  import opened Floats

  const TWO_TO_THE_53: int := 0x20_0000_0000_0000

  // ---------- rounding ----------

  /** n / d to the nearest integer, halves to the even one. */
  function HalfEven(n: nat, d: nat): nat
    requires d > 0
  {
    var q, r := n / d, n % d;
    if 2 * r > d || (2 * r == d && q % 2 == 1) then q + 1 else q
  }

  /** The pattern, signs aside, of the value nearest to n / d units: as long as the quotient needs
      more than 53 bits it is halved and the exponent raised. Beyond POS_INF the exponent
      overflows. */
  function Round(n: nat, d: nat): nat
    requires d > 0
    decreases if n > d then n - d else 0
  {
    if n < TWO_TO_THE_53 * d then HalfEven(n, d) else TWO_TO_THE_52 + Round(n, 2 * d)
  }

  function Distance(x: int, y: int): nat { if x < y then y - x else x - y }

  /** How far a pattern is from n / d, in units of 1 / d. */
  function Off(p: nat, n: nat, d: nat): nat { Distance(Magnitude(p) * d, n) }

  lemma SmallMagnitude(p: nat)
    requires p <= TWO_TO_THE_53
    ensures Magnitude(p) == p
  {
    assert Pow2(0) == 1 && Pow2(1) == 2;
  }

  /** One exponent up doubles the value. */
  lemma MagnitudeDoubles(p: nat)
    requires p >= TWO_TO_THE_52
    ensures Magnitude(p + TWO_TO_THE_52) == 2 * Magnitude(p)
  {
    var e, f := p / TWO_TO_THE_52, p % TWO_TO_THE_52;
    assert (p + TWO_TO_THE_52) / TWO_TO_THE_52 == e + 1 && (p + TWO_TO_THE_52) % TWO_TO_THE_52 == f;
    assert Pow2(e) == 2 * Pow2(e - 1);
    var w := Pow2(e - 1);
    assert (TWO_TO_THE_52 + f) * (2 * w) == 2 * ((TWO_TO_THE_52 + f) * w);
  }

  /** Rounding to an integer is off by at most a half, and in a tie the integer is even. */
  lemma HalfEvenIsNearest(n: nat, d: nat, m: nat)
    requires d > 0
    ensures var h := HalfEven(n, d);
            && Distance(h * d, n) <= Distance(m * d, n)
            && (Distance(h * d, n) == Distance(m * d, n) && m != h ==> h % 2 == 0)
  {
    HalfEvenParts(n, d);
    NearestInteger(n, d, n / d, n % d, HalfEven(n, d), m);
  }

  lemma HalfEvenParts(n: nat, d: nat)
    requires d > 0
    ensures var q, r := n / d, n % d;
            && n == q * d + r && r < d
            && HalfEven(n, d) == if 2 * r > d || (2 * r == d && q % 2 == 1) then q + 1 else q
  {
  }

  lemma NearestInteger(n: nat, d: nat, q: nat, r: nat, h: nat, m: nat)
    requires n == q * d + r && r < d && h == if 2 * r > d || (2 * r == d && q % 2 == 1) then q + 1 else q
    ensures Distance(h * d, n) <= Distance(m * d, n)
    ensures Distance(h * d, n) == Distance(m * d, n) && m != h ==> h % 2 == 0
  {
    hide Distance;
    Next(q, d);
    assert (m < q ==> m * d + d <= q * d) && (m > q + 1 ==> m * d >= q * d + d + d) by {
      if m < q {
        Gap(m, q, d);
      } else if m > q + 1 {
        Gap(q + 1, m, d);
      }
    }
    HalfOf(q, q * d, r, d, h, m, m * d);
  }

  lemma Next(q: nat, d: nat)
    ensures (q + 1) * d == q * d + d
  {
  }

  lemma HalfOf(q: nat, a: nat, r: nat, d: nat, h: nat, m: nat, b: nat)
    requires r < d && h == if 2 * r > d || (2 * r == d && q % 2 == 1) then q + 1 else q
    requires (m < q ==> b + d <= a) && (m == q ==> b == a) && (m == q + 1 ==> b == a + d)
    requires m > q + 1 ==> b >= a + d + d
    ensures var x := if h == q then a else a + d;
            && Distance(x, a + r) <= Distance(b, a + r)
            && (Distance(x, a + r) == Distance(b, a + r) && m != h ==> h % 2 == 0)
  {
  }

  lemma Gap(a: nat, b: nat, d: nat)
    requires a < b
    ensures a * d + d <= b * d
  {
    MultipleGap(d, a, b);
  }

  lemma HalfEvenWithin(n: nat, d: nat, lo: nat, hi: nat)
    requires d > 0 && lo * d <= n <= hi * d
    ensures lo <= HalfEven(n, d) <= hi
  {
    var q, r := n / d, n % d;
    assert n == q * d + r;
    if q < lo {
      Gap(q, lo, d);
    }
    if hi < q {
      Gap(hi, q, d);
    }
  }

  /** A value of at least 2^52 units keeps all its 53 bits. */
  lemma {:induction false} RoundIsNormal(n: nat, d: nat)
    requires d > 0 && n >= TWO_TO_THE_52 * d
    ensures Round(n, d) >= TWO_TO_THE_52
    decreases if n > d then n - d else 0
  {
    if n < TWO_TO_THE_53 * d {
      HalfEvenWithin(n, d, TWO_TO_THE_52, TWO_TO_THE_53);
    } else {
      RoundIsNormal(n, 2 * d);
    }
  }

  /** The result of rounding is nearest to the exact quotient among all patterns, and where two
      are equally near it is the even one. */
  lemma {:induction false} RoundIsNearest(n: nat, d: nat, p: nat)
    requires d > 0
    ensures Off(Round(n, d), n, d) <= Off(p, n, d)
    ensures Off(Round(n, d), n, d) == Off(p, n, d) && p != Round(n, d) ==> Round(n, d) % 2 == 0
    decreases if n > d then n - d else 0
  {
    hide Off, HalfEven;
    if n < TWO_TO_THE_53 * d {
      RoundSmall(n, d, p);
    } else {
      RoundIsNormal(n, 2 * d);
      OffDoubles(Round(n, 2 * d), n, d);
      if p >= TWO_TO_THE_53 {
        RoundIsNearest(n, 2 * d, p - TWO_TO_THE_52);
        OffDoubles(p - TWO_TO_THE_52, n, d);
      } else {
        RoundIsNearest(n, 2 * d, TWO_TO_THE_52);
        OffDoubles(TWO_TO_THE_52, n, d);
        SmallIsFurther(n, d, p);
      }
    }
  }

  lemma RoundSmall(n: nat, d: nat, p: nat)
    requires d > 0 && n < TWO_TO_THE_53 * d
    ensures var h := HalfEven(n, d);
            Off(h, n, d) <= Off(p, n, d) && (Off(h, n, d) == Off(p, n, d) && p != h ==> h % 2 == 0)
  {
    hide Magnitude, HalfEven;
    HalfEvenWithin(n, d, 0, TWO_TO_THE_53);
    SmallMagnitude(HalfEven(n, d));
    if p <= TWO_TO_THE_53 {
      SmallMagnitude(p);
      HalfEvenIsNearest(n, d, p);
    } else {
      HalfEvenIsNearest(n, d, TWO_TO_THE_53);
      BigIsFurther(n, d, p);
    }
  }

  lemma BigIsFurther(n: nat, d: nat, p: nat)
    requires d > 0 && n < TWO_TO_THE_53 * d && p > TWO_TO_THE_53
    ensures Off(p, n, d) > Distance(TWO_TO_THE_53 * d, n)
  {
    hide Magnitude;
    MagnitudeMonotone(TWO_TO_THE_53, p);
    SmallMagnitude(TWO_TO_THE_53);
    Gap(TWO_TO_THE_53, Magnitude(p), d);
  }

  lemma SmallIsFurther(n: nat, d: nat, p: nat)
    requires d > 0 && n >= TWO_TO_THE_53 * d && p < TWO_TO_THE_53
    ensures Off(p, n, d) > Off(TWO_TO_THE_53, n, d)
  {
    hide Magnitude;
    SmallMagnitude(p);
    SmallMagnitude(TWO_TO_THE_53);
    Gap(p, TWO_TO_THE_53, d);
  }

  lemma OffDoubles(p: nat, n: nat, d: nat)
    requires p >= TWO_TO_THE_52
    ensures Off(p + TWO_TO_THE_52, n, d) == Off(p, n, 2 * d)
  {
    MagnitudeDoubles(p);
    hide Magnitude;
    assert Magnitude(p) * (2 * d) == (2 * Magnitude(p)) * d;
  }

  /** A value that has a pattern is not changed. */
  lemma RoundIsExact(p: nat, d: nat)
    requires d > 0
    ensures Round(Magnitude(p) * d, d) == p
  {
    hide Magnitude, Round;
    var r, n := Round(Magnitude(p) * d, d), Magnitude(p) * d;
    RoundIsNearest(n, d, p);
    if r < p {
      MagnitudeMonotone(r, p);
      Gap(Magnitude(r), Magnitude(p), d);
    } else if p < r {
      MagnitudeMonotone(p, r);
      Gap(Magnitude(p), Magnitude(r), d);
    }
  }

  /** Rounding passes a pattern exactly where the quotient passes the middle between it and the next,
      or meets it and the pattern is odd: in particular, this is when it overflows. */
  lemma RoundsAbove(n: nat, d: nat, p: nat)
    requires d > 0
    ensures var middle := (Magnitude(p) + Magnitude(p + 1)) * d;
            Round(n, d) > p <==> 2 * n > middle || (2 * n == middle && p % 2 == 1)
  {
    hide Magnitude, Round;
    var r := Round(n, d);
    RoundIsNearest(n, d, p);
    RoundIsNearest(n, d, p + 1);
    MagnitudeMonotone(p, p + 1);
    Gap(Magnitude(p), Magnitude(p + 1), d);
    assert (Magnitude(p) + Magnitude(p + 1)) * d == Magnitude(p) * d + Magnitude(p + 1) * d;
    if r < p {
      MagnitudeMonotone(r, p);
      Gap(Magnitude(r), Magnitude(p), d);
    } else if r > p + 1 {
      MagnitudeMonotone(p + 1, r);
      Gap(Magnitude(p + 1), Magnitude(r), d);
    }
  }

  lemma HalfEvenMonotone(n: nat, m: nat, d: nat)
    requires d > 0 && n <= m
    ensures HalfEven(n, d) <= HalfEven(m, d)
  {
    var q, q' := n / d, m / d;
    assert n == q * d + n % d && m == q' * d + m % d;
    if q' < q {
      Gap(q', q, d);
    }
  }

  lemma {:induction false} RoundMonotone(n: nat, m: nat, d: nat)
    requires d > 0 && n <= m
    ensures Round(n, d) <= Round(m, d)
    decreases if n > d then n - d else 0
  {
    if m < TWO_TO_THE_53 * d {
      HalfEvenMonotone(n, m, d);
    } else if n < TWO_TO_THE_53 * d {
      HalfEvenWithin(n, d, 0, TWO_TO_THE_53);
      RoundIsNormal(m, 2 * d);
    } else {
      RoundMonotone(n, m, 2 * d);
    }
  }

  /** Twice a value that keeps all its bits is one exponent up. */
  lemma {:induction false} RoundDoubles(n: nat, d: nat)
    requires d > 0 && n >= TWO_TO_THE_52 * d
    ensures Round(2 * n, d) == TWO_TO_THE_52 + Round(n, d)
    decreases if n > d then n - d else 0
  {
    if n < TWO_TO_THE_53 * d {
      assert 2 * n < TWO_TO_THE_53 * (2 * d);
      HalfEvenCancels(n, d);
    } else {
      RoundDoubles(n, 2 * d);
    }
  }

  lemma HalfEvenCancels(n: nat, d: nat)
    requires d > 0
    ensures HalfEven(2 * n, 2 * d) == HalfEven(n, d)
  {
    var q, r := n / d, n % d;
    assert n == q * d + r;
    RemainderUnique(2 * n, 2 * d, q, 2 * r) by {
      assert (2 * d) * q == 2 * (q * d);
    }
    assert 2 * n == (2 * d) * ((2 * n) / (2 * d)) + 2 * r;
    assert (2 * d) * q == 2 * (q * d);
    SameFactor(2 * d, q, (2 * n) / (2 * d));
  }

  lemma SameFactor(d: nat, a: nat, b: nat)
    requires d > 0 && d * a == d * b
    ensures a == b
  {
    if a < b {
      MultipleGap(d, a, b);
    } else if b < a {
      MultipleGap(d, b, a);
    }
  }

  // ---------- values that have a pattern ----------

  lemma PowDoubles(m: nat, k: nat)
    requires k > 0
    ensures m * Pow2(k) == 2 * (m * Pow2(k - 1))
  {
    assert Pow2(k) == 2 * Pow2(k - 1);
    hide Pow2;
    var w := Pow2(k - 1);
    assert m * (2 * w) == 2 * (m * w);
  }

  /** m times 2^k units has a pattern, for m up to 2^53. */
  lemma {:induction false} GridPattern(m: nat, k: nat) returns (p: nat)
    requires m <= TWO_TO_THE_53
    ensures Magnitude(p) == m * Pow2(k) && p <= TWO_TO_THE_53 + k * TWO_TO_THE_52
  {
    if k == 0 {
      SmallMagnitude(m);
      p := m;
    } else {
      var q := GridPattern(m, k - 1);
      PowDoubles(m, k);
      hide Magnitude, Pow2;
      if q < TWO_TO_THE_52 {
        SmallMagnitude(q);
        SmallMagnitude(2 * q);
        p := 2 * q;
      } else {
        MagnitudeDoubles(q);
        p := q + TWO_TO_THE_52;
      }
    }
  }

  lemma {:induction false} PowAdds(a: nat, b: nat)
    ensures Pow2(a + b) == Pow2(a) * Pow2(b)
  {
    if a > 0 {
      PowAdds(a - 1, b);
      PowDoubles(Pow2(b), a);
      PowDoubles(1, a + b);
      hide Pow2;
      assert Pow2(a) * Pow2(b) == Pow2(b) * Pow2(a);
    }
  }

  lemma Grows(n: nat, w: nat)
    requires w >= 1
    ensures n * w >= n
  {
  }

  lemma {:induction false} RoundScales(n: nat, k: nat)
    requires n >= TWO_TO_THE_52
    ensures Round(n * Pow2(k), 1) == k * TWO_TO_THE_52 + Round(n, 1)
  {
    hide Round;
    if k > 0 {
      RoundScales(n, k - 1);
      PowDoubles(n, k);
      PowPositive(k - 1);
      hide Pow2;
      Grows(n, Pow2(k - 1));
      RoundDoubles(n * Pow2(k - 1), 1);
    }
  }

  // ---------- addition ----------

  /** A sign and a rounded magnitude; what is too large is infinite. */
  function Signed(negative: bool, p: nat): uint64 {
    (if negative then TWO_TO_THE_63 else 0) + (if p < POS_INF then p else POS_INF)
  }

  /** x + y, rounded. A sum of NaN, or of opposite infinities, is NaN; a zero sum is negative only
      if both zeros are. */
  function Plus(x: uint64, y: uint64): uint64 {
    if IsNaN(x) || IsNaN(y) then CANONICAL_NAN
    else if !IsFinite(x) then (if !IsFinite(y) && x != y then CANONICAL_NAN else x)
    else if !IsFinite(y) then y
    else
      var s := Units(x) + Units(y);
      if s == 0 then (if SignBit(x) && SignBit(y) then NEG_ZERO else 0)
      else if s < 0 then Signed(true, Round(0 - s, 1))
      else Signed(false, Round(s, 1))
  }

  lemma SignedMeaning(negative: bool, p: nat)
    requires p < POS_INF
    ensures var z := Signed(negative, p);
            && IsFinite(z) && Payload(z) == p && SignBit(z) == negative
            && Units(z) == if negative then 0 - Magnitude(p) else Magnitude(p)
  {
    hide Magnitude;
  }

  lemma OffOne(p: nat, n: nat)
    ensures Off(p, n, 1) == Distance(Magnitude(p), n)
  {
    hide Magnitude;
  }

  lemma ZeroMagnitude(p: nat)
    ensures Magnitude(p) == 0 <==> p == 0
  {
    SmallMagnitude(0);
    if p > 0 {
      MagnitudeMonotone(0, p);
    }
  }

  /** A signed rounded value is nearest to the exact one among all finite patterns. */
  lemma NearestSigned(s: int, r: uint64, z: uint64)
    requires r == Signed(s < 0, Round(Distance(s, 0), 1)) && IsFinite(r) && IsFinite(z)
    ensures Distance(Units(r), s) <= Distance(Units(z), s)
    ensures Distance(Units(r), s) == Distance(Units(z), s) && Units(z) != Units(r) ==> r % 2 == 0
  {
    hide Magnitude, Round, Off;
    var n := Distance(s, 0);
    RoundIsNearest(n, 1, Payload(z));
    OffOne(Round(n, 1), n);
    OffOne(Payload(z), n);
    SignedMeaning(s < 0, Round(n, 1));
    ZeroMagnitude(Payload(r));
    ZeroMagnitude(0);
    if n == 0 {
      RoundIsExact(0, 1);
    }
  }

  /** Where it does not overflow, the sum of two numbers is the number nearest to the exact one,
      and where two are equally near it is the even one. */
  lemma PlusIsNearest(x: uint64, y: uint64, z: uint64)
    requires IsFinite(x) && IsFinite(y) && IsFinite(z) && IsFinite(Plus(x, y))
    ensures var s, r := Units(x) + Units(y), Plus(x, y);
            && Distance(Units(r), s) <= Distance(Units(z), s)
            && (Distance(Units(r), s) == Distance(Units(z), s) && Units(z) != Units(r) ==> r % 2 == 0)
  {
    hide Magnitude, Round;
    var s := Units(x) + Units(y);
    ZeroMagnitude(0);
    if s != 0 {
      NearestSigned(s, Plus(x, y), z);
    }
  }

  /** A sum that has a pattern is exact, and a zero sum of anything but two negative zeros is
      the positive zero. */
  lemma PlusIsExact(x: uint64, y: uint64, p: nat)
    requires IsFinite(x) && IsFinite(y) && p < POS_INF
    requires Magnitude(p) == Distance(Units(x) + Units(y), 0)
    ensures IsFinite(Plus(x, y)) && Units(Plus(x, y)) == Units(x) + Units(y)
    ensures x != NEG_ZERO ==> Plus(x, y) != NEG_ZERO
  {
    hide Magnitude, Round;
    var s := Units(x) + Units(y);
    ZeroMagnitude(0);
    ZeroMagnitude(p);
    ZeroMagnitude(Payload(x));
    ZeroMagnitude(Payload(y));
    if s != 0 {
      RoundIsExact(p, 1);
      SignedMeaning(s < 0, p);
    }
  }

  /** A finite pattern is determined by its value, but for the sign of zero. */
  lemma SameUnits(x: uint64, y: uint64)
    requires IsFinite(x) && IsFinite(y) && Units(x) == Units(y) && x != NEG_ZERO && y != NEG_ZERO
    ensures x == y
  {
    hide Magnitude;
    ZeroMagnitude(Payload(x));
    ZeroMagnitude(Payload(y));
    if Payload(x) < Payload(y) {
      MagnitudeMonotone(Payload(x), Payload(y));
    } else if Payload(y) < Payload(x) {
      MagnitudeMonotone(Payload(y), Payload(x));
    }
  }

  /** A magnitude of n/d units at least halfway from the largest finite value to the next power of
      two. */
  ghost predicate Overflows(n: int, d: int) { 2 * n >= (Magnitude(POS_INF - 1) + Magnitude(POS_INF)) * d }

  lemma OverflowMeaning(n: nat, d: nat)
    requires d > 0
    ensures Overflows(n, d) <==> Round(n, d) >= POS_INF
  {
    hide Magnitude, Round;
    RoundsAbove(n, d, POS_INF - 1);
  }

  predicate IsInfinite(x: uint64) { x == POS_INF || x == NEG_INF }

  /** When a sum is not a number, infinite, or a negative zero. */
  lemma PlusSpecials(x: uint64, y: uint64)
    ensures IsNaN(Plus(x, y)) <==> IsNaN(x) || IsNaN(y) || (IsInfinite(x) && IsInfinite(y) && x != y)
    ensures !IsNaN(Plus(x, y)) ==>
      && (Plus(x, y) == POS_INF <==>
            x == POS_INF || y == POS_INF
            || (IsFinite(x) && IsFinite(y) && Units(x) + Units(y) > 0 && Overflows(Units(x) + Units(y), 1)))
      && (Plus(x, y) == NEG_INF <==>
            x == NEG_INF || y == NEG_INF
            || (IsFinite(x) && IsFinite(y) && Units(x) + Units(y) < 0 && Overflows(0 - (Units(x) + Units(y)), 1)))
      && (Plus(x, y) == NEG_ZERO <==> x == NEG_ZERO && y == NEG_ZERO)
  {
    hide Magnitude, Round, Overflows;
    if IsFinite(x) && IsFinite(y) {
      var s := Units(x) + Units(y);
      var n := Distance(s, 0);
      OverflowMeaning(n, 1);
      ZeroMagnitude(Payload(x));
      ZeroMagnitude(Payload(y));
      RoundsToZero(n, 1);
    }
  }

  /** Nothing but zero and what is less than half a unit rounds to zero. */
  lemma RoundsToZero(n: nat, d: nat)
    requires d > 0
    ensures Round(n, d) == 0 <==> 2 * n <= d
  {
    hide Round;
    RoundsAbove(n, d, 0);
    SmallMagnitude(0);
    SmallMagnitude(1);
  }

  // ---------- conversion and division ----------

  /** An integer as a float. */
  function FromInt(i: int): uint64 {
    if i < 0 then Signed(true, Round((0 - i) * UnitsPerOne(), 1)) else Signed(false, Round(i * UnitsPerOne(), 1))
  }

  /** x / y, rounded. */
  function Divide(x: uint64, y: uint64): uint64 {
    var negative := SignBit(x) != SignBit(y);
    if IsNaN(x) || IsNaN(y) then CANONICAL_NAN
    else if !IsFinite(x) then (if !IsFinite(y) then CANONICAL_NAN else Signed(negative, POS_INF))
    else if !IsFinite(y) then Signed(negative, 0)
    else if IsZero(y) then (if IsZero(x) then CANONICAL_NAN else Signed(negative, POS_INF))
    else
      ZeroMagnitude(Payload(y));
      Signed(negative, Round(Magnitude(Payload(x)) * UnitsPerOne(), Magnitude(Payload(y))))
  }

  /** Where it does not overflow, the quotient of two numbers is, signs aside, the number nearest to
      the exact one. */
  lemma DivideIsNearest(x: uint64, y: uint64, p: nat)
    requires IsFinite(x) && IsFinite(y) && !IsZero(y) && IsFinite(Divide(x, y))
    ensures var r, n, d := Divide(x, y), Magnitude(Payload(x)) * UnitsPerOne(), Magnitude(Payload(y));
            && SignBit(r) == (SignBit(x) != SignBit(y))
            && Off(Payload(r), n, d) <= Off(p, n, d)
            && (Off(Payload(r), n, d) == Off(p, n, d) && p != Payload(r) ==> r % 2 == 0)
  {
    hide Magnitude, Round, Off, UnitsPerOne;
    ZeroMagnitude(Payload(y));
    RoundIsNearest(Magnitude(Payload(x)) * UnitsPerOne(), Magnitude(Payload(y)), p);
  }

  /** When a quotient is not a number, infinite or zero, and its sign. */
  lemma DivideSpecials(x: uint64, y: uint64)
    ensures IsNaN(Divide(x, y)) <==>
      IsNaN(x) || IsNaN(y) || (IsInfinite(x) && IsInfinite(y)) || (IsZero(x) && IsZero(y))
    ensures !IsNaN(Divide(x, y)) ==>
      var n, d := Magnitude(Payload(x)) * UnitsPerOne(), Magnitude(Payload(y));
      && SignBit(Divide(x, y)) == (SignBit(x) != SignBit(y))
      && (IsInfinite(Divide(x, y)) <==>
            IsInfinite(x) || (IsFinite(y) && (IsZero(y) || Overflows(n, d))))
      && (IsZero(Divide(x, y)) <==> IsFinite(x) && (IsInfinite(y) || (!IsZero(y) && 2 * n <= d)))
  {
    hide Magnitude, Round, Overflows, UnitsPerOne;
    if IsFinite(x) && IsFinite(y) && !IsZero(y) {
      var n, d := Magnitude(Payload(x)) * UnitsPerOne(), Magnitude(Payload(y));
      ZeroMagnitude(Payload(y));
      OverflowMeaning(n, d);
      RoundsToZero(n, d);
    }
  }

  /** The same for conversions. */
  lemma FromIntIsNearest(i: int, z: uint64)
    requires IsFinite(FromInt(i)) && IsFinite(z)
    ensures var r, s := FromInt(i), i * UnitsPerOne();
            && Distance(Units(r), s) <= Distance(Units(z), s)
            && (Distance(Units(r), s) == Distance(Units(z), s) && Units(z) != Units(r) ==> r % 2 == 0)
  {
    hide Magnitude, Round, Off, UnitsPerOne;
    SignOfProduct(i, UnitsPerOne());
    NearestSigned(i * UnitsPerOne(), FromInt(i), z);
  }

  /** Integers of up to 53 bits convert exactly. */
  lemma FromIntIsExact(i: int)
    requires -TWO_TO_THE_53 <= i <= TWO_TO_THE_53
    ensures IsFinite(FromInt(i)) && Units(FromInt(i)) == i * UnitsPerOne()
  {
    hide Magnitude, Round, Pow2;
    var n := Distance(i, 0);
    var p := GridPattern(n, EXPONENT_OF_ONE);
    RoundIsExact(p, 1);
    SignedMeaning(i < 0, p);
    assert n * UnitsPerOne() == Magnitude(p);
  }

  lemma SignOfProduct(i: int, u: nat)
    requires u > 0
    ensures Distance(i * u, 0) == if i < 0 then (0 - i) * u else i * u
    ensures i * u < 0 <==> i < 0
  {
    if i < 0 {
      Product(0 - i, u);
    } else {
      Product(i, u);
    }
    assert (0 - i) * u == 0 - i * u;
  }

  lemma Product(a: nat, b: nat)
    ensures a * b >= 0 && (a > 0 && b > 0 ==> a * b > 0)
  {
    if a > 0 && b > 0 {
      Gap(0, a, b);
    }
  }
}
