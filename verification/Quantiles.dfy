/** Reading a quantile off a list of centroids by piecewise-linear interpolation. */
module Quantiles {
  import opened Clustering

  /** The point a fraction of the way from a to b. */
  function Lerp(a: real, b: real, frac: real): real { a + frac * (b - a) }

  lemma LerpMonotone(a: real, b: real, f: real, g: real)
    requires a <= b && 0.0 <= f <= g <= 1.0
    ensures a <= Lerp(a, b, f) <= Lerp(a, b, g) <= b
  {
    ProductMonotone(0.0, f, b - a);
    ProductMonotone(f, g, b - a);
    ProductMonotone(g, 1.0, b - a);
  }

  lemma LerpEnds(a: real, b: real)
    ensures Lerp(a, b, 0.0) == a && Lerp(a, b, 1.0) == b
  {
  }

  /** How far t lies along the interval of length h that starts at c. */
  function Fraction(t: real, c: real, h: real): real
    requires h > 0.0
  {
    (t - c) / h
  }

  lemma FractionBounds(t: real, u: real, c: real, h: real)
    requires h > 0.0 && c <= t <= u <= c + h
    ensures 0.0 <= Fraction(t, c, h) <= Fraction(u, c, h) <= 1.0
    ensures Fraction(c, c, h) == 0.0 && Fraction(c + h, c, h) == 1.0
  {
    FractionMonotone(t - c, u - c, h);
    QuotientTimes(h, h);
  }

  /** Interpolation beyond centroid i, whose midpoint is at rank cum. */
  function Walk(cs: seq<Centroid>, i: nat, cum: real, hi: real, total: real, rank: real): real
    requires Positive(cs) && i < |cs|
    decreases |cs| - i
  {
    if i + 1 < |cs| then
      var half := (cs[i].weight + cs[i + 1].weight) / 2.0;
      if rank <= cum + half then Lerp(cs[i].mean, cs[i + 1].mean, Fraction(rank, cum, half))
      else Walk(cs, i + 1, cum + half, hi, total, rank)
    else if total - cum <= 0.0 then cs[i].mean
    else Lerp(cs[i].mean, hi, Fraction(rank, cum, total - cum))
  }

  /** The value at a rank between 0 and the total weight; at least two centroids. */
  function AtRank(cs: seq<Centroid>, lo: real, hi: real, total: real, rank: real): real
    requires Positive(cs) && |cs| >= 2
  {
    var half := cs[0].weight / 2.0;
    if rank <= half then Lerp(lo, cs[0].mean, Fraction(rank, 0.0, half))
    else Walk(cs, 0, half, hi, total, rank)
  }

  /** The rank of centroid i's midpoint leaves exactly the weight of the later half. */
  predicate MidRank(cs: seq<Centroid>, i: nat, cum: real, total: real) {
    i < |cs| && cum + cs[i].weight / 2.0 + Weight(cs[i + 1..]) == total
  }

  lemma MidRankStep(cs: seq<Centroid>, i: nat, cum: real, total: real)
    requires MidRank(cs, i, cum, total) && i + 1 < |cs|
    ensures MidRank(cs, i + 1, cum + (cs[i].weight + cs[i + 1].weight) / 2.0, total)
  {
    assert cs[i + 1..][1..] == cs[i + 2..];
  }

  lemma MidRankBelowTotal(cs: seq<Centroid>, i: nat, cum: real, total: real)
    requires Positive(cs) && MidRank(cs, i, cum, total)
    ensures cum < total
    ensures i + 1 < |cs| ==> cum + (cs[i].weight + cs[i + 1].weight) / 2.0 < total
  {
    WeightPositive(cs[i + 1..]);
    if i + 1 < |cs| {
      MidRankStep(cs, i, cum, total);
      WeightPositive(cs[i + 2..]);
    }
  }

  /** From centroid i on, the interpolated value never falls as the rank grows, and stays
      between that centroid's mean and the maximum. */
  lemma {:induction false} WalkMonotone(cs: seq<Centroid>, i: nat, cum: real, hi: real, total: real, r: real, u: real)
    requires Positive(cs) && Sorted(cs) && i < |cs| && (forall j :: 0 <= j < |cs| ==> cs[j].mean <= hi)
    requires MidRank(cs, i, cum, total) && cum <= r <= u <= total
    ensures cs[i].mean <= Walk(cs, i, cum, hi, total, r) <= Walk(cs, i, cum, hi, total, u) <= hi
    decreases |cs| - i
  {
    hide Lerp, Fraction, Weight;
    MidRankBelowTotal(cs, i, cum, total);
    if i + 1 < |cs| {
      var half := (cs[i].weight + cs[i + 1].weight) / 2.0;
      var m, n, next := cs[i].mean, cs[i + 1].mean, cum + half;
      assert half > 0.0 && m <= n;
      MidRankStep(cs, i, cum, total);
      if u <= next {
        FractionBounds(r, u, cum, half);
        LerpMonotone(m, n, Fraction(r, cum, half), Fraction(u, cum, half));
      } else if r <= next {
        FractionBounds(r, next, cum, half);
        LerpMonotone(m, n, Fraction(r, cum, half), 1.0);
        WalkMonotone(cs, i + 1, next, hi, total, next, u);
      } else {
        WalkMonotone(cs, i + 1, next, hi, total, r, u);
      }
    } else {
      FractionBounds(r, u, cum, total - cum);
      LerpMonotone(cs[i].mean, hi, Fraction(r, cum, total - cum), Fraction(u, cum, total - cum));
    }
  }

  /** The last interpolation ends at the maximum. */
  lemma {:induction false} WalkToTotal(cs: seq<Centroid>, i: nat, cum: real, hi: real, total: real)
    requires Positive(cs) && MidRank(cs, i, cum, total)
    ensures Walk(cs, i, cum, hi, total, total) == hi
    decreases |cs| - i
  {
    hide Lerp, Fraction, Weight;
    MidRankBelowTotal(cs, i, cum, total);
    if i + 1 < |cs| {
      MidRankStep(cs, i, cum, total);
      WalkToTotal(cs, i + 1, cum + (cs[i].weight + cs[i + 1].weight) / 2.0, hi, total);
    } else {
      FractionBounds(total, total, cum, total - cum);
      LerpEnds(cs[i].mean, hi);
    }
  }

  lemma FirstMidRank(cs: seq<Centroid>)
    requires cs != []
    ensures MidRank(cs, 0, cs[0].weight / 2.0, Weight(cs))
  {
  }

  /** Quantiles never decrease, stay between the minimum and the maximum, and reach both. */
  lemma AtRankMonotone(cs: seq<Centroid>, lo: real, hi: real, r: real, u: real)
    requires Positive(cs) && Sorted(cs) && Within(cs, lo, hi) && |cs| >= 2
    requires 0.0 <= r <= u <= Weight(cs)
    ensures lo <= AtRank(cs, lo, hi, Weight(cs), r) <= AtRank(cs, lo, hi, Weight(cs), u) <= hi
    ensures AtRank(cs, lo, hi, Weight(cs), 0.0) == lo
    ensures AtRank(cs, lo, hi, Weight(cs), Weight(cs)) == hi
  {
    hide Lerp, Fraction, Weight, Walk;
    var half, total, m := cs[0].weight / 2.0, Weight(cs), cs[0].mean;
    FirstMidRank(cs);
    MidRankBelowTotal(cs, 0, half, total);
    WalkToTotal(cs, 0, half, hi, total);
    FractionBounds(0.0, half, 0.0, half);
    LerpEnds(lo, m);
    if u <= half {
      FractionBounds(r, u, 0.0, half);
      LerpMonotone(lo, m, Fraction(r, 0.0, half), Fraction(u, 0.0, half));
    } else if r <= half {
      FractionBounds(r, half, 0.0, half);
      LerpMonotone(lo, m, Fraction(r, 0.0, half), 1.0);
      WalkMonotone(cs, 0, half, hi, total, half, u);
    } else {
      WalkMonotone(cs, 0, half, hi, total, r, u);
    }
  }

  /** The rank of centroid j's midpoint: all the weight before it and half its own. */
  function Midpoint(cs: seq<Centroid>, j: nat): real
    requires j < |cs|
  {
    if j == 0 then cs[0].weight / 2.0
    else Midpoint(cs, j - 1) + (cs[j - 1].weight + cs[j].weight) / 2.0
  }

  lemma {:induction false} MidpointsRise(cs: seq<Centroid>, i: nat, j: nat)
    requires Positive(cs) && i <= j < |cs|
    ensures Midpoint(cs, i) <= Midpoint(cs, j) && (i < j ==> Midpoint(cs, i) < Midpoint(cs, j))
    decreases j
  {
    if i < j {
      MidpointsRise(cs, i, j - 1);
    }
  }

  lemma {:induction false} MidpointIsMidRank(cs: seq<Centroid>, j: nat)
    requires j < |cs|
    ensures MidRank(cs, j, Midpoint(cs, j), Weight(cs))
  {
    hide Weight;
    if j == 0 {
      FirstMidRank(cs);
    } else {
      MidpointIsMidRank(cs, j - 1);
      MidRankStep(cs, j - 1, Midpoint(cs, j - 1), Weight(cs));
    }
  }

  lemma {:induction false} WalkAtMidpoint(cs: seq<Centroid>, i: nat, j: nat, hi: real)
    requires Positive(cs) && i <= j < |cs|
    ensures Walk(cs, i, Midpoint(cs, i), hi, Weight(cs), Midpoint(cs, j)) == cs[j].mean
    decreases |cs| - i
  {
    hide Lerp, Fraction, Weight;
    var cum, total := Midpoint(cs, i), Weight(cs);
    MidpointIsMidRank(cs, i);
    MidRankBelowTotal(cs, i, cum, total);
    if i + 1 < |cs| {
      var half := (cs[i].weight + cs[i + 1].weight) / 2.0;
      FractionBounds(cum, cum, cum, half);
      LerpEnds(cs[i].mean, cs[i + 1].mean);
      if j > i + 1 {
        MidpointsRise(cs, i + 1, j);
      }
      if j > i {
        WalkAtMidpoint(cs, i + 1, j, hi);
      }
    } else {
      FractionBounds(cum, cum, cum, total - cum);
      LerpEnds(cs[i].mean, hi);
    }
  }

  /** The interpolation passes through every centroid: at its midpoint rank, its mean. */
  lemma AtMidpoint(cs: seq<Centroid>, lo: real, hi: real, j: nat)
    requires Positive(cs) && |cs| >= 2 && j < |cs|
    ensures AtRank(cs, lo, hi, Weight(cs), Midpoint(cs, j)) == cs[j].mean
  {
    hide Lerp, Fraction, Weight, Walk;
    var half := cs[0].weight / 2.0;
    WalkAtMidpoint(cs, 0, j, hi);
    MidpointsRise(cs, 0, j);
    FractionBounds(half, half, 0.0, half);
    LerpEnds(lo, cs[0].mean);
  }

  // ---------- quantiles ----------

  /** A value offered to a digest, or read off one; no infinity is ever read off. */
  datatype Sample = NaN | Infinite | Number(v: real)

  function TargetRank(q: real, total: real): real { q * total }

  lemma TargetRankMonotone(p: real, q: real, total: real)
    requires 0.0 <= p <= q <= 1.0 && total >= 0.0
    ensures 0.0 <= TargetRank(p, total) <= TargetRank(q, total) <= total
    ensures TargetRank(0.0, total) == 0.0 && TargetRank(1.0, total) == total
  {
    ProductMonotone(0.0, p, total);
    ProductMonotone(p, q, total);
    ProductMonotone(q, 1.0, total);
  }

  /** The estimate at quantile q: NaN of nothing, a lone centroid's mean, or interpolated. */
  function QuantileOf(cs: seq<Centroid>, lo: real, hi: real, q: real): Sample
    requires Positive(cs)
  {
    if |cs| == 0 then NaN
    else if |cs| == 1 then Number(cs[0].mean)
    else Number(AtRank(cs, lo, hi, Weight(cs), TargetRank(q, Weight(cs))))
  }

  /** Over [0, 1] quantiles never decrease and stay within the extremes; with two centroids
      or more they start at the minimum and end at the maximum. */
  lemma QuantileMeaning(cs: seq<Centroid>, lo: real, hi: real, p: real, q: real)
    requires cs != [] && Positive(cs) && Sorted(cs) && Within(cs, lo, hi)
    requires 0.0 <= p <= q <= 1.0
    ensures QuantileOf(cs, lo, hi, p).Number? && QuantileOf(cs, lo, hi, q).Number?
    ensures lo <= QuantileOf(cs, lo, hi, p).v <= QuantileOf(cs, lo, hi, q).v <= hi
    ensures |cs| >= 2 ==> QuantileOf(cs, lo, hi, 0.0) == Number(lo) && QuantileOf(cs, lo, hi, 1.0) == Number(hi)
  {
    hide AtRank, Weight, TargetRank;
    if |cs| >= 2 {
      var total := Weight(cs);
      WeightPositive(cs);
      TargetRankMonotone(p, q, total);
      AtRankMonotone(cs, lo, hi, TargetRank(p, total), TargetRank(q, total));
    }
  }

  // ---------- what a quantile is, piece by piece ----------

  /** The rank of a midpoint counts the weight before the centroid and half its own. */
  lemma {:induction false} MidpointMeaning(cs: seq<Centroid>, j: nat)
    requires j < |cs|
    ensures Midpoint(cs, j) == Weight(cs[..j]) + cs[j].weight / 2.0
  {
    hide Weight;
    NoWeight();
    if j == 0 {
      assert cs[..0] == [];
    } else {
      MidpointMeaning(cs, j - 1);
      assert cs[..j] == cs[..j - 1] + [cs[j - 1]];
      TotalsOfConcat(cs[..j - 1], [cs[j - 1]]);
      TotalsOfOne(cs[j - 1]);
    }
  }

  lemma NoWeight()
    ensures Weight([]) == 0.0
  {
  }

  /** v lies between a and b as x lies between c and d. */
  predicate Proportional(v: real, a: real, b: real, x: real, c: real, d: real) {
    (v - a) * (d - c) == (x - c) * (b - a)
  }

  lemma ProportionalAtStart(a: real, b: real, c: real, d: real)
    ensures Proportional(a, a, b, c, c, d)
  {
  }

  lemma LerpIsProportional(a: real, b: real, x: real, c: real, h: real)
    requires h > 0.0
    ensures Proportional(Lerp(a, b, Fraction(x, c, h)), a, b, x, c, c + h)
  {
    var f := Fraction(x, c, h);
    QuotientTimes(x - c, h);
    Reordered(f, b - a, h);
  }

  lemma Reordered(f: real, e: real, h: real)
    ensures (f * e) * h == (f * h) * e
  {
  }

  /** Between two midpoints the walk interpolates between the two means. */
  lemma {:induction false} WalkBetween(cs: seq<Centroid>, i: nat, j: nat, hi: real, rank: real)
    requires Positive(cs) && i <= j && j + 1 < |cs| && Midpoint(cs, j) <= rank <= Midpoint(cs, j + 1)
    ensures Proportional(Walk(cs, i, Midpoint(cs, i), hi, Weight(cs), rank),
                         cs[j].mean, cs[j + 1].mean, rank, Midpoint(cs, j), Midpoint(cs, j + 1))
    decreases j - i
  {
    hide Lerp, Fraction, Weight, Walk;
    WalkStep(cs, i, hi, rank);
    if i == j {
      LerpIsProportional(cs[j].mean, cs[j + 1].mean, rank, Midpoint(cs, j), Midpoint(cs, j + 1) - Midpoint(cs, j));
    } else {
      MidpointsRise(cs, i + 1, j);
      if rank <= Midpoint(cs, i + 1) {
        assert j == i + 1 && rank == Midpoint(cs, j);
        WalkAtMidpoint(cs, i, j, hi);
      } else {
        WalkBetween(cs, i + 1, j, hi, rank);
      }
    }
  }

  lemma WalkStep(cs: seq<Centroid>, i: nat, hi: real, rank: real)
    requires Positive(cs) && i + 1 < |cs|
    ensures Midpoint(cs, i + 1) - Midpoint(cs, i) > 0.0
    ensures Walk(cs, i, Midpoint(cs, i), hi, Weight(cs), rank)
            == if rank <= Midpoint(cs, i + 1)
               then Lerp(cs[i].mean, cs[i + 1].mean,
                         Fraction(rank, Midpoint(cs, i), Midpoint(cs, i + 1) - Midpoint(cs, i)))
               else Walk(cs, i + 1, Midpoint(cs, i + 1), hi, Weight(cs), rank)
  {
    hide Lerp, Fraction, Weight;
    assert Midpoint(cs, i + 1) == Midpoint(cs, i) + (cs[i].weight + cs[i + 1].weight) / 2.0;
  }

  /** Beyond the last midpoint it interpolates towards the maximum. */
  lemma {:induction false} WalkBeyond(cs: seq<Centroid>, i: nat, hi: real, rank: real)
    requires Positive(cs) && i < |cs| && Midpoint(cs, |cs| - 1) <= rank
    ensures Proportional(Walk(cs, i, Midpoint(cs, i), hi, Weight(cs), rank),
                         cs[|cs| - 1].mean, hi, rank, Midpoint(cs, |cs| - 1), Weight(cs))
    decreases |cs| - i
  {
    hide Lerp, Fraction, Weight;
    var n := |cs| - 1;
    if i == n {
      MidpointIsMidRank(cs, n);
      MidRankBelowTotal(cs, n, Midpoint(cs, n), Weight(cs));
      LerpIsProportional(cs[n].mean, hi, rank, Midpoint(cs, n), Weight(cs) - Midpoint(cs, n));
    } else {
      WalkStep(cs, i, hi, rank);
      MidpointsRise(cs, i + 1, n);
      if rank <= Midpoint(cs, i + 1) {
        assert i + 1 == n && rank == Midpoint(cs, n);
        WalkAtMidpoint(cs, i, n, hi);
      } else {
        WalkBeyond(cs, i + 1, hi, rank);
      }
    }
  }

  lemma FirstPiece(cs: seq<Centroid>, lo: real, hi: real, x: real)
    requires Positive(cs) && |cs| >= 2
    ensures var v, first := AtRank(cs, lo, hi, Weight(cs), x), Midpoint(cs, 0);
            if x <= first then Proportional(v, lo, cs[0].mean, x, 0.0, first)
            else v == Walk(cs, 0, first, hi, Weight(cs), x)
  {
    hide Lerp, Fraction, Weight, Walk;
    LerpIsProportional(lo, cs[0].mean, x, 0.0, Midpoint(cs, 0));
  }

  lemma MiddlePiece(cs: seq<Centroid>, lo: real, hi: real, x: real, j: nat)
    requires Positive(cs) && j + 1 < |cs| && Midpoint(cs, j) <= x <= Midpoint(cs, j + 1)
    ensures Proportional(AtRank(cs, lo, hi, Weight(cs), x),
                         cs[j].mean, cs[j + 1].mean, x, Midpoint(cs, j), Midpoint(cs, j + 1))
  {
    hide Weight, Walk, AtRank;
    MidpointsRise(cs, 0, j);
    FirstPiece(cs, lo, hi, x);
    if x <= Midpoint(cs, 0) {
      assert x == Midpoint(cs, j);
      AtMidpoint(cs, lo, hi, j);
      ProportionalAtStart(cs[j].mean, cs[j + 1].mean, x, Midpoint(cs, j + 1));
    } else {
      WalkBetween(cs, 0, j, hi, x);
    }
  }

  lemma LastPiece(cs: seq<Centroid>, lo: real, hi: real, x: real)
    requires Positive(cs) && |cs| >= 2 && Midpoint(cs, |cs| - 1) <= x
    ensures Proportional(AtRank(cs, lo, hi, Weight(cs), x),
                         cs[|cs| - 1].mean, hi, x, Midpoint(cs, |cs| - 1), Weight(cs))
  {
    hide Weight, Walk, AtRank;
    MidpointsRise(cs, 0, |cs| - 1);
    FirstPiece(cs, lo, hi, x);
    WalkBeyond(cs, 0, hi, x);
  }

  lemma QuantileIsAtRank(cs: seq<Centroid>, lo: real, hi: real, q: real, x: real)
    requires Positive(cs) && |cs| >= 2 && x == q * Weight(cs)
    ensures QuantileOf(cs, lo, hi, q) == Number(AtRank(cs, lo, hi, Weight(cs), x))
  {
    hide Weight, AtRank;
    assert TargetRank(q, Weight(cs)) == x;
  }

  /** r is what the centroids hold at rank x: NaN of none, the mean of a lone one, and of more a
      value that up to the first midpoint rises from the minimum to the first mean, between two
      midpoints from one mean to the next, and beyond the last midpoint to the maximum. */
  predicate IsReadAt(cs: seq<Centroid>, lo: real, hi: real, x: real, r: Sample) {
    && (|cs| == 0 ==> r.NaN?)
    && (|cs| == 1 ==> r == Number(cs[0].mean))
    && (|cs| >= 2 ==>
          && r.Number?
          && var n := |cs| - 1;
             && (x <= Midpoint(cs, 0) ==> Proportional(r.v, lo, cs[0].mean, x, 0.0, Midpoint(cs, 0)))
             && (forall j :: 0 <= j < n && Midpoint(cs, j) <= x <= Midpoint(cs, j + 1) ==>
                   Proportional(r.v, cs[j].mean, cs[j + 1].mean, x, Midpoint(cs, j), Midpoint(cs, j + 1)))
             && (Midpoint(cs, n) <= x ==> Proportional(r.v, cs[n].mean, hi, x, Midpoint(cs, n), Weight(cs))))
  }

  /** The value of quantile q is read at rank q times the total weight. */
  lemma QuantilePieces(cs: seq<Centroid>, lo: real, hi: real, q: real, x: real)
    requires Positive(cs) && x == q * Weight(cs)
    ensures IsReadAt(cs, lo, hi, x, QuantileOf(cs, lo, hi, q))
  {
    hide Weight, Walk, Proportional, AtRank, Midpoint;
    if |cs| >= 2 {
      InPieces(cs, lo, hi, q, x);
    }
  }

  lemma InPieces(cs: seq<Centroid>, lo: real, hi: real, q: real, x: real)
    requires Positive(cs) && |cs| >= 2 && x == q * Weight(cs)
    ensures IsReadAt(cs, lo, hi, x, QuantileOf(cs, lo, hi, q))
  {
    hide Weight, Walk, Proportional, AtRank, QuantileOf, Midpoint;
    QuantileIsAtRank(cs, lo, hi, q, x);
    FirstPiece(cs, lo, hi, x);
    forall j | 0 <= j < |cs| - 1 && Midpoint(cs, j) <= x <= Midpoint(cs, j + 1)
      ensures Proportional(AtRank(cs, lo, hi, Weight(cs), x),
                           cs[j].mean, cs[j + 1].mean, x, Midpoint(cs, j), Midpoint(cs, j + 1))
    {
      MiddlePiece(cs, lo, hi, x, j);
    }
    if Midpoint(cs, |cs| - 1) <= x {
      LastPiece(cs, lo, hi, x);
    }
  }

  /** In particular, the quantile at a centroid's midpoint is its mean. */
  lemma QuantileAtMidpoint(cs: seq<Centroid>, lo: real, hi: real, j: nat)
    requires Positive(cs) && |cs| >= 2 && j < |cs|
    ensures Weight(cs) > 0.0 && QuantileOf(cs, lo, hi, Midpoint(cs, j) / Weight(cs)) == Number(cs[j].mean)
  {
    hide AtRank, Weight, QuantileOf, Midpoint;
    WeightPositive(cs);
    QuotientTimes(Midpoint(cs, j), Weight(cs));
    QuantileIsAtRank(cs, lo, hi, Midpoint(cs, j) / Weight(cs), Midpoint(cs, j));
    AtMidpoint(cs, lo, hi, j);
  }
}
