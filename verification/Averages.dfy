/** Averages of integers: the quotient of two rounded conversions, and what an overflow of the sum
    does to it. */
module Averages {
  import opened Words
  import opened Floats
  import opened Rounding

  /** float64(sum) / float64(count). */
  function IntMean(sum: int, count: int): uint64 { Divide(FromInt(sum), FromInt(count)) }

  // ---------- positive integers ----------

  /** The rounded value of a positive integer. */
  function Converted(i: nat): nat { Magnitude(Round(i * UnitsPerOne(), 1)) }

  lemma Multiples(a: nat, b: nat, d: nat)
    requires a <= b
    ensures a * d <= b * d
  {
    if a < b {
      Gap(a, b, d);
    }
  }

  lemma ConvertedMonotone(i: nat, j: nat)
    requires i <= j
    ensures Converted(i) <= Converted(j)
  {
    hide Magnitude, Round;
    Multiples(i, j, UnitsPerOne());
    var p, q := Round(i * UnitsPerOne(), 1), Round(j * UnitsPerOne(), 1);
    RoundMonotone(i * UnitsPerOne(), j * UnitsPerOne(), 1);
    if p < q {
      MagnitudeMonotone(p, q);
    }
  }

  lemma FiftyTwo()
    ensures Pow2(52) == TWO_TO_THE_52
  {
    assert Pow2(13) == 8192;
    PowAdds(13, 13);
    PowAdds(26, 26);
  }

  lemma OneIsBig()
    ensures UnitsPerOne() >= TWO_TO_THE_52
  {
    hide Pow2;
    PowAdds(1022, 52);
    PowPositive(1022);
    assert UnitsPerOne() == Pow2(1022 + 52);
    FiftyTwo();
    Grows(TWO_TO_THE_52, Pow2(1022));
  }

  /** Powers of two convert exactly. */
  lemma ConvertedOne()
    ensures Converted(1) == UnitsPerOne()
  {
    hide Magnitude, Round, Pow2;
    var p := GridPattern(1, EXPONENT_OF_ONE);
    RoundIsExact(p, 1);
  }

  lemma TenMore(k: nat)
    ensures TWO_TO_THE_53 * Pow2(10 + k) == TWO_TO_THE_63 * Pow2(k)
  {
    assert Pow2(10) == 1024;
    hide Pow2;
    PowAdds(10, k);
    assert TWO_TO_THE_53 * (1024 * Pow2(k)) == TWO_TO_THE_63 * Pow2(k);
  }

  lemma ConvertedLimit() returns (p: nat)
    ensures p == Round(TWO_TO_THE_63 * UnitsPerOne(), 1) && p < POS_INF
    ensures Magnitude(p) == Converted(TWO_TO_THE_63) == TWO_TO_THE_63 * UnitsPerOne()
  {
    hide Magnitude, Round, Pow2;
    p := GridPattern(TWO_TO_THE_53, 10 + EXPONENT_OF_ONE);
    RoundIsExact(p, 1);
    TenMore(EXPONENT_OF_ONE);
  }

  lemma ConvertedWithin(n: nat)
    requires 0 < n <= TWO_TO_THE_63
    ensures 0 < UnitsPerOne() <= Converted(n) <= Converted(TWO_TO_THE_63)
  {
    hide Converted, UnitsPerOne;
    ConvertedOne();
    ConvertedMonotone(1, n);
    ConvertedMonotone(n, TWO_TO_THE_63);
  }

  lemma ConvertsFinitely(n: nat)
    requires n <= TWO_TO_THE_63
    ensures Round(n * UnitsPerOne(), 1) < POS_INF
  {
    hide Magnitude, Round, UnitsPerOne;
    var p := ConvertedLimit();
    Multiples(n, TWO_TO_THE_63, UnitsPerOne());
    RoundMonotone(n * UnitsPerOne(), TWO_TO_THE_63 * UnitsPerOne(), 1);
  }

  /** 1.0 is the pattern of the integer one. */
  lemma OneIsOne()
    ensures FromInt(1) == 0x3FF0_0000_0000_0000
  {
    hide Round, Pow2, FromInt;
    var one := 0x3FF0_0000_0000_0000;
    FiftyTwo();
    PowAdds(52, 1022);
    FromIntIsExact(1);
    assert one / TWO_TO_THE_52 == 1023 && one % TWO_TO_THE_52 == 0;
    ZeroMagnitude(Payload(FromInt(1)));
    PowPositive(1074);
    SameUnits(FromInt(1), one);
  }

  lemma IntIsFinite(i: int64)
    ensures IsFinite(FromInt(i))
  {
    hide Magnitude, Round, UnitsPerOne;
    ConvertsFinitely(Distance(i, 0));
    SignedMeaning(i < 0, Round(Distance(i, 0) * UnitsPerOne(), 1));
  }

  /** Twice as large, at least, from 2^64 on. */
  lemma ConvertedTwice(j: nat)
    requires j >= TWO_TO_THE_64
    ensures Converted(j) >= 2 * Converted(TWO_TO_THE_63)
  {
    hide Magnitude, Round, UnitsPerOne;
    OneIsBig();
    var n := TWO_TO_THE_63 * UnitsPerOne();
    Multiples(1, TWO_TO_THE_63, UnitsPerOne());
    RoundDoubles(n, 1);
    RoundIsNormal(n, 1);
    MagnitudeDoubles(Round(n, 1));
    assert TWO_TO_THE_64 * UnitsPerOne() == 2 * n;
    ConvertedMonotone(TWO_TO_THE_64, j);
  }

  // ---------- their means ----------

  function MeanOf(i: nat, n: nat): nat
    requires Converted(n) > 0
  {
    Round(Converted(i) * UnitsPerOne(), Converted(n))
  }

  /** A mean is finite, and those of sums beyond all int64 values are larger. */
  lemma MeansAreApart(i: nat, j: nat, n: nat)
    requires i <= TWO_TO_THE_63 && TWO_TO_THE_64 <= j && 0 < n <= TWO_TO_THE_63
    ensures Converted(n) > 0 && MeanOf(i, n) < POS_INF && MeanOf(i, n) < MeanOf(j, n)
  {
    hide Converted, Round, UnitsPerOne, Magnitude;
    var u, a, m := UnitsPerOne(), Converted(TWO_TO_THE_63), Converted(n);
    ConvertedWithin(n);
    ConvertedMonotone(i, TWO_TO_THE_63);
    ConvertedTwice(j);
    OneIsBig();
    var p := ConvertedLimit();
    Multiples(Converted(i), a, u);
    RoundMonotone(Converted(i) * u, a * u, m);
    Multiples(u, m, a);
    RoundMonotone(a * u, a * m, m);
    RoundIsExact(p, m);
    Multiples(2 * a, Converted(j), u);
    RoundMonotone(2 * a * u, Converted(j) * u, m);
    Multiples(TWO_TO_THE_52, u, m);
    Multiples(m, a, u);
    RoundDoubles(a * u, m);
    assert 2 * (a * u) == 2 * a * u;
  }

  /** The sign and the magnitude of a mean. */
  lemma MeanParts(i: int, n: nat)
    requires 0 < n <= TWO_TO_THE_63
    ensures Converted(n) > 0 && SignBit(IntMean(i, n)) == (i < 0)
    ensures var k, p := Distance(i, 0), Payload(IntMean(i, n));
            if Round(k * UnitsPerOne(), 1) >= POS_INF || MeanOf(k, n) >= POS_INF then p == POS_INF
            else p == MeanOf(k, n)
  {
    hide Round, UnitsPerOne, Magnitude;
    ConvertedWithin(n);
    ConvertsFinitely(n);
    ZeroMagnitude(Round(n * UnitsPerOne(), 1));
  }

  /** The average computed from a wrapped sum is that of the sum itself exactly when the sum did
      not overflow. */
  lemma OverflowChangesMean(s: int, n: nat)
    requires 0 < n < TWO_TO_THE_63
    ensures IntMean(Wrap(s), n) == IntMean(s, n) <==> -TWO_TO_THE_63 <= s < TWO_TO_THE_63
  {
    hide IntMean, MeanOf, Round, Converted, UnitsPerOne;
    var a := Wrap(s);
    WrapIsCongruent(s);
    if a != s {
      var i, j := Distance(a, 0), Distance(s, 0);
      MeanParts(a, n);
      MeanParts(s, n);
      if (a < 0) == (s < 0) {
        SameSignFar(a, s);
        ConvertsFinitely(i);
        MeansAreApart(i, j, n);
      }
    }
  }

  lemma SameSignFar(a: int64, s: int)
    requires (s - a) % TWO_TO_THE_64 == 0 && a != s && ((a < 0) == (s < 0))
    ensures Distance(s, 0) >= TWO_TO_THE_64
  {
  }
}
