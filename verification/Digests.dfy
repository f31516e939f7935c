/** What a t-digest holds, as a value: how numbers are added, compressed and merged, and what
    the result says about them. */
module Digests {
  import opened Sequences
  import opened Clustering
  import opened Quantiles

  const BUFFER_CAP: nat := 1024

  // ---------- the parameters of a digest ----------

  type Scale = f: real -> real | IsScale(f, DEFAULT_COMPRESSION) ghost witness Straight

  function Straight(q: real): real { 50.0 * q }

  /** Some arrangement in order of mean. */
  ghost predicate IsSorter(f: seq<Centroid> -> seq<Centroid>) {
    forall points :: Sorted(f(points)) && multiset(f(points)) == multiset(points)
  }

  type Sorter = f: seq<Centroid> -> seq<Centroid> | IsSorter(f) ghost witness Arranged

  function Insert(p: Centroid, cs: seq<Centroid>): (r: seq<Centroid>)
    ensures multiset(r) == multiset{p} + multiset(cs)
    ensures forall c :: c in r ==> c == p || c in cs
  {
    if cs == [] then [p]
    else
      SplitFirst(cs);
      if p.mean <= cs[0].mean then [p] + cs else [cs[0]] + Insert(p, cs[1..])
  }

  lemma {:induction false} InsertSorted(p: Centroid, cs: seq<Centroid>)
    requires Sorted(cs)
    ensures Sorted(Insert(p, cs))
  {
    if cs != [] && p.mean > cs[0].mean {
      InsertSorted(p, cs[1..]);
      var tail := Insert(p, cs[1..]);
      forall i | 0 <= i < |tail|
        ensures cs[0].mean <= tail[i].mean
      {
        assert tail[i] in tail;
      }
    }
  }

  function Arranged(points: seq<Centroid>): (r: seq<Centroid>)
    ensures Sorted(r) && multiset(r) == multiset(points)
  {
    if points == [] then []
    else
      SplitFirst(points);
      InsertSorted(points[0], Arranged(points[1..]));
      Insert(points[0], Arranged(points[1..]))
  }

  /** The scale function, and the arrangement the library's sort makes of given points. */
  datatype Digester = Digester(scale: Scale, sort: Sorter)

  // ---------- raw values as weighted points ----------

  function SumOf(vs: seq<real>): real {
    if vs == [] then 0.0 else vs[0] + SumOf(vs[1..])
  }

  lemma {:induction false} SumOfConcat(a: seq<real>, b: seq<real>)
    ensures SumOf(a + b) == SumOf(a) + SumOf(b)
  {
    if a == [] {
      assert a + b == b;
    } else {
      assert (a + b)[1..] == a[1..] + b;
      SumOfConcat(a[1..], b);
    }
  }

  function Points(vs: seq<real>): (ps: seq<Centroid>)
    ensures |ps| == |vs| && forall i :: 0 <= i < |vs| ==> ps[i] == Centroid(vs[i], 1.0)
  {
    seq(|vs|, i requires 0 <= i < |vs| => Centroid(vs[i], 1.0))
  }

  lemma {:induction false} TotalsOfPoints(vs: seq<real>)
    ensures Weight(Points(vs)) == |vs| as real && Moment(Points(vs)) == SumOf(vs)
  {
    if vs != [] {
      assert Points(vs)[1..] == Points(vs[1..]);
      TotalsOfPoints(vs[1..]);
    }
  }

  lemma PermutedPoints(a: seq<Centroid>, b: seq<Centroid>, lo: real, hi: real)
    requires multiset(a) == multiset(b) && Positive(a) && Within(a, lo, hi)
    ensures |a| == |b| && Positive(b) && Within(b, lo, hi)
    ensures Weight(a) == Weight(b) && Moment(a) == Moment(b)
  {
    hide Weight, Moment;
    assert |multiset(a)| == |multiset(b)|;
    TotalsOfPermutation(a, b);
    forall i | 0 <= i < |b|
      ensures b[i].weight > 0.0 && lo <= b[i].mean <= hi
    {
      assert b[i] in multiset(b);
      assert b[i] in a;
    }
  }

  // ---------- summaries of the values seen ----------

  ghost predicate IsMin(vs: seq<real>, m: real) {
    m in vs && forall v :: v in vs ==> m <= v
  }

  ghost predicate IsMax(vs: seq<real>, m: real) {
    m in vs && forall v :: v in vs ==> v <= m
  }

  function MinReal(a: real, b: real): real { if b < a then b else a }

  function MaxReal(a: real, b: real): real { if b > a then b else a }

  lemma ExtremesOfBoth(a: seq<real>, b: seq<real>, lo: real, hi: real, lo': real, hi': real)
    requires IsMin(a, lo) && IsMax(a, hi) && IsMin(b, lo') && IsMax(b, hi')
    ensures IsMin(a + b, MinReal(lo, lo')) && IsMax(a + b, MaxReal(hi, hi'))
  {
  }

  // ---------- the digest ----------

  /** Infinite values break the means; once one was added, unbounded is set and the other fields
      say nothing. */
  datatype DigestFields = DigestFields(
    centroids: seq<Centroid>, buffer: seq<real>, min: real, max: real, haveMinMax: bool, unbounded: bool)

  type Centroids = cs: seq<Centroid> | Positive(cs)

  type Digest = d: DigestFields | Positive(d.centroids) witness DigestFields([], [], 0.0, 0.0, false, false)

  const EMPTY_DIGEST: Digest := DigestFields([], [], 0.0, 0.0, false, false)

  /** All points of a digest: its centroids, then its buffered values at weight 1. */
  function AllPoints(d: Digest): (points: seq<Centroid>)
    ensures Positive(points)
  {
    d.centroids + Points(d.buffer)
  }

  lemma SortKeepsPoints(g: Digester, points: seq<Centroid>)
    requires Positive(points)
    ensures Sorted(g.sort(points)) && Positive(g.sort(points)) && multiset(g.sort(points)) == multiset(points)
    ensures |g.sort(points)| == |points|
  {
    var sorted := g.sort(points);
    assert |multiset(sorted)| == |multiset(points)|;
    forall i | 0 <= i < |sorted|
      ensures sorted[i].weight > 0.0
    {
      assert sorted[i] in multiset(sorted);
      assert sorted[i] in points;
    }
  }

  lemma ClusterIsPositive(scale: Scale, points: seq<Centroid>)
    requires points != [] && Positive(points) && Sorted(points)
    ensures Positive(Cluster(scale, points)) && Cluster(scale, points) != []
  {
    hide Cluster;
    ClusterMeaning(scale, DEFAULT_COMPRESSION, points, points[0].mean, points[|points| - 1].mean);
    WeightPositive(points);
    WeightOfEmpty(Cluster(scale, points));
  }

  lemma WeightOfEmpty(cs: seq<Centroid>)
    ensures cs == [] ==> Weight(cs) == 0.0
  {
  }

  /** Centroids and buffer replaced by the clusters of all their points, in order of mean. */
  function Compressed(g: Digester, d: Digest): Digest {
    var points := AllPoints(d);
    if points == [] then d.(centroids := [], buffer := [])
    else
      SortKeepsPoints(g, points);
      ClusterIsPositive(g.scale, g.sort(points));
      d.(centroids := Cluster(g.scale, g.sort(points)), buffer := [])
  }

  /** What compressing makes of a digest: its points, centroids and buffer alike, in order of mean, are
      divided into runs as long as the scale allows, and each run becomes its weighted mean. */
  lemma CompressedMeaning(g: Digester, d: Digest) returns (points: seq<Centroid>, runs: seq<seq<Centroid>>)
    ensures Compressed(g, d) == d.(centroids := Compressed(g, d).centroids, buffer := [])
    ensures multiset(points) == multiset(AllPoints(d)) && Sorted(points)
    ensures points == [] ==> Compressed(g, d).centroids == []
    ensures points != [] ==> IsClustering(g.scale, points, runs, Compressed(g, d).centroids)
  {
    hide Cluster, IsClustering, Runs;
    points, runs := AllPoints(d), [];
    if points != [] {
      points := g.sort(points);
      runs := Runs(g.scale, points);
      SortKeepsPoints(g, AllPoints(d));
      ClusteringIsCluster(g.scale, DEFAULT_COMPRESSION, points, runs, Cluster(g.scale, points));
    }
  }

  function Flushed(g: Digester, d: Digest): Digest {
    if |d.buffer| > 0 then Compressed(g, d) else d
  }

  function Noted(d: Digest, v: real): Digest {
    d.(min := if d.haveMinMax then MinReal(d.min, v) else v,
       max := if d.haveMinMax then MaxReal(d.max, v) else v,
       haveMinMax := true,
       buffer := d.buffer + [v])
  }

  function Added(g: Digester, d: Digest, x: Sample): Digest {
    match x
    case NaN => d
    case Infinite => d.(unbounded := true)
    case Number(v) => if |d.buffer| + 1 >= BUFFER_CAP then Compressed(g, Noted(d, v)) else Noted(d, v)
  }

  /** The other digest's centroids taken over, unsorted, and its extremes. */
  function Adopted(d: Digest, other: Digest): Digest {
    var both := d.(centroids := d.centroids + other.centroids, unbounded := d.unbounded || other.unbounded);
    if !other.haveMinMax then both
    else if !d.haveMinMax then both.(min := other.min, max := other.max, haveMinMax := true)
    else both.(min := MinReal(d.min, other.min), max := MaxReal(d.max, other.max))
  }

  function Merged(g: Digester, d: Digest, other: Digest): Digest {
    Compressed(g, Adopted(Flushed(g, d), Flushed(g, other)))
  }

  // ---------- what a digest says about the numbers it was given ----------

  /** Weight and weighted sum are conserved, extremes are exact, means lie between them. */
  ghost predicate Covers(d: Digest, vs: seq<real>) {
    && !d.unbounded
    && Weight(d.centroids) + |d.buffer| as real == |vs| as real
    && Moment(d.centroids) + SumOf(d.buffer) == SumOf(vs)
    && (d.haveMinMax <==> vs != [])
    && (d.haveMinMax ==> IsMin(vs, d.min) && IsMax(vs, d.max) && Within(d.centroids, d.min, d.max))
    && (d.haveMinMax ==> forall i :: 0 <= i < |d.buffer| ==> d.min <= d.buffer[i] <= d.max)
    && (!d.haveMinMax ==> d.centroids == [] && d.buffer == [])
  }

  /** Moreover centroids are sorted and few. */
  ghost predicate Summarises(d: Digest, vs: seq<real>) {
    && Covers(d, vs) && Sorted(d.centroids) && |d.buffer| < BUFFER_CAP
    && |d.centroids| <= 99
  }

  lemma NoTotals()
    ensures Weight([]) == 0.0 && Moment([]) == 0.0 && SumOf([]) == 0.0
  {
  }

  lemma EmptySummarisesNothing()
    ensures Summarises(EMPTY_DIGEST, [])
  {
  }

  lemma CompressedSummarises(g: Digester, d: Digest, vs: seq<real>)
    requires Covers(d, vs)
    ensures Summarises(Compressed(g, d), vs) && Compressed(g, d).buffer == []
  {
    hide Weight, Moment, SumOf, Cluster, IsMin, IsMax;
    TotalsOfPoints(d.buffer);
    TotalsOfConcat(d.centroids, Points(d.buffer));
    NoTotals();
    var points := AllPoints(d);
    if points != [] {
      SortKeepsPoints(g, points);
      PermutedPoints(points, g.sort(points), d.min, d.max);
      ClusterMeaning(g.scale, DEFAULT_COMPRESSION, g.sort(points), d.min, d.max);
      AtMostNinetyNine(g.scale, g.sort(points));
    }
  }

  lemma FlushedSummarises(g: Digester, d: Digest, vs: seq<real>)
    requires Summarises(d, vs)
    ensures Summarises(Flushed(g, d), vs) && Flushed(g, d).buffer == []
  {
    hide Compressed, Covers;
    if |d.buffer| > 0 {
      CompressedSummarises(g, d, vs);
    }
  }

  lemma NotedCovers(d: Digest, vs: seq<real>, v: real)
    requires Covers(d, vs)
    ensures Covers(Noted(d, v), vs + [v])
  {
    hide Weight, Moment, SumOf;
    NoTotals();
    SumOfConcat(vs, [v]);
    SumOfConcat(d.buffer, [v]);
    SumOfOne(v);
    if d.haveMinMax {
      ExtremesOfBoth(vs, [v], d.min, d.max, v, v);
    }
  }

  lemma SumOfOne(v: real)
    ensures SumOf([v]) == v
  {
    assert [v][1..] == [];
  }

  /** Adding a number summarises one more; NaN changes nothing. */
  lemma AddedSummarises(g: Digester, d: Digest, vs: seq<real>, x: Sample)
    requires Summarises(d, vs) && !x.Infinite?
    ensures Summarises(Added(g, d, x), vs + if x.Number? then [x.v] else [])
  {
    hide Compressed, Covers;
    if x.Number? {
      NotedCovers(d, vs, x.v);
      CompressedSummarises(g, Noted(d, x.v), vs + [x.v]);
      NotUnbounded(d, vs);
    } else {
      assert vs + [] == vs;
    }
  }

  lemma NotUnbounded(d: Digest, vs: seq<real>)
    requires Covers(d, vs)
    ensures !d.unbounded
  {
  }

  lemma SummarisesBounded(d: Digest, vs: seq<real>)
    requires Summarises(d, vs)
    ensures !d.unbounded
  {
  }

  lemma AdoptedCovers(d: Digest, other: Digest, vs: seq<real>, ws: seq<real>)
    requires Covers(d, vs) && Covers(other, ws) && d.buffer == [] && other.buffer == []
    ensures Covers(Adopted(d, other), vs + ws)
  {
    hide Weight, Moment, SumOf, IsMin, IsMax;
    NoTotals();
    TotalsOfConcat(d.centroids, other.centroids);
    SumOfConcat(vs, ws);
    if other.haveMinMax && d.haveMinMax {
      ExtremesOfBoth(vs, ws, d.min, d.max, other.min, other.max);
    } else if other.haveMinMax {
      assert vs + ws == ws;
    } else {
      assert vs + ws == vs;
    }
  }

  /** Merging summarises the numbers of both. */
  lemma MergedSummarises(g: Digester, d: Digest, other: Digest, vs: seq<real>, ws: seq<real>)
    requires Summarises(d, vs) && Summarises(other, ws)
    ensures Summarises(Merged(g, d, other), vs + ws)
  {
    hide Compressed, Covers, Adopted, Flushed;
    FlushedSummarises(g, d, vs);
    FlushedSummarises(g, other, ws);
    AdoptedCovers(Flushed(g, d), Flushed(g, other), vs, ws);
    CompressedSummarises(g, Adopted(Flushed(g, d), Flushed(g, other)), vs + ws);
  }

  lemma {:induction false} SumOfPermutation(vs: seq<real>, ws: seq<real>)
    requires multiset(vs) == multiset(ws)
    ensures SumOf(vs) == SumOf(ws) && |vs| == |ws|
  {
    assert |multiset(vs)| == |multiset(ws)|;
    if vs != [] {
      hide SumOf;
      SplitFirst(vs);
      var front, back := TakeOut(vs[0], multiset(vs[1..]), ws);
      SumOfPermutation(vs[1..], front + back);
      SumOfConcat(front, back);
      SumOfConcat(front + [vs[0]], back);
      SumOfConcat(front, [vs[0]]);
      SumOfConcat([vs[0]], vs[1..]);
    }
  }

  /** What a digest says does not depend on the order of the numbers. */
  lemma SummarisesAnyOrder(d: Digest, vs: seq<real>, ws: seq<real>)
    requires Summarises(d, vs) && multiset(vs) == multiset(ws)
    ensures Summarises(d, ws)
  {
    hide SumOf, Weight, Moment;
    SumOfPermutation(vs, ws);
    assert forall v :: v in vs <==> v in multiset(vs);
    assert forall v :: v in ws <==> v in multiset(ws);
  }

  // ---------- offering infinities too ----------

  /** The numbers among some samples, in order. */
  function NumbersIn(xs: seq<Sample>): seq<real> {
    if xs == [] then []
    else NumbersIn(xs[..|xs| - 1]) + if xs[|xs| - 1].Number? then [xs[|xs| - 1].v] else []
  }

  /** A digest of samples: it summarises the numbers among them, unless an infinity is. */
  ghost predicate Describes(d: Digest, xs: seq<Sample>) {
    if Infinite in xs then d.unbounded else Summarises(d, NumbersIn(xs))
  }

  lemma {:induction false} NumbersInConcat(xs: seq<Sample>, ys: seq<Sample>)
    ensures NumbersIn(xs + ys) == NumbersIn(xs) + NumbersIn(ys)
  {
    if ys == [] {
      assert xs + ys == xs;
    } else {
      assert (xs + ys)[..|xs + ys| - 1] == xs + ys[..|ys| - 1];
      NumbersInConcat(xs, ys[..|ys| - 1]);
    }
  }

  lemma {:induction false} NumbersInAnyOrder(xs: seq<Sample>, ys: seq<Sample>)
    requires multiset(xs) == multiset(ys)
    ensures multiset(NumbersIn(xs)) == multiset(NumbersIn(ys))
  {
    if xs == [] {
      assert |multiset(ys)| == 0;
    } else {
      var x := xs[|xs| - 1];
      SplitLast(xs);
      var before, after := TakeOut(x, multiset(xs[..|xs| - 1]), ys);
      NumbersInAnyOrder(xs[..|xs| - 1], before + after);
      NumbersInConcat(before, after);
      NumbersInConcat(before + [x], after);
      NumbersInConcat(before, [x]);
      assert [x][..0] == [];
      assert NumbersIn([x]) == if x.Number? then [x.v] else [];
    }
  }

  /** A number is in as often as it is among the samples. */
  lemma {:induction false} NumbersInMeaning(xs: seq<Sample>, v: real)
    ensures multiset(NumbersIn(xs))[v] == multiset(xs)[Number(v)]
  {
    if xs != [] {
      var front, last := xs[..|xs| - 1], xs[|xs| - 1];
      NumbersInMeaning(front, v);
      assert xs == front + [last];
    }
  }

  lemma EmptyDescribesNothing()
    ensures Describes(EMPTY_DIGEST, [])
  {
    hide Summarises;
    EmptySummarisesNothing();
  }

  lemma AddedDescribes(g: Digester, d: Digest, xs: seq<Sample>, x: Sample)
    requires Describes(d, xs)
    ensures Describes(Added(g, d, x), xs + [x])
  {
    hide Summarises;
    assert (xs + [x])[..|xs|] == xs;
    if Infinite !in xs && x != Infinite {
      AddedSummarises(g, d, NumbersIn(xs), x);
    }
  }

  lemma MergedDescribes(g: Digester, d: Digest, other: Digest, xs: seq<Sample>, ys: seq<Sample>)
    requires Describes(d, xs) && Describes(other, ys)
    ensures Describes(Merged(g, d, other), xs + ys)
  {
    hide Summarises, NumbersIn;
    NumbersInConcat(xs, ys);
    if Infinite !in xs && Infinite !in ys {
      MergedSummarises(g, d, other, NumbersIn(xs), NumbersIn(ys));
    }
  }

  lemma FlushedDescribes(g: Digester, d: Digest, xs: seq<Sample>)
    requires Describes(d, xs)
    ensures Describes(Flushed(g, d), xs)
  {
    hide Summarises, NumbersIn;
    if Infinite !in xs {
      FlushedSummarises(g, d, NumbersIn(xs));
    }
  }

  lemma FlushedAgain(g: Digester, d: Digest)
    ensures Flushed(g, Flushed(g, d)) == Flushed(g, d) && Flushed(g, d).unbounded == d.unbounded
    ensures Flushed(g, d).min == d.min && Flushed(g, d).max == d.max
  {
  }

  lemma DescribesAnyOrder(d: Digest, xs: seq<Sample>, ys: seq<Sample>)
    requires Describes(d, xs) && multiset(xs) == multiset(ys)
    ensures Describes(d, ys)
  {
    hide Summarises, NumbersIn;
    assert Infinite in xs <==> Infinite in multiset(xs);
    assert Infinite in ys <==> Infinite in multiset(ys);
    if Infinite !in xs {
      NumbersInAnyOrder(xs, ys);
      SummarisesAnyOrder(d, NumbersIn(xs), NumbersIn(ys));
    }
  }

  // ---------- reading a quantile ----------

  /** The estimate at quantile q, after flushing. At NaN it is a lone centroid's mean or NaN. */
  function Estimate(g: Digester, d: Digest, q: Sample): Sample
    requires !q.Infinite?
  {
    var cs := Flushed(g, d).centroids;
    if q.Number? then QuantileOf(cs, d.min, d.max, q.v)
    else if |cs| == 1 then Number(cs[0].mean)
    else NaN
  }

  /** A digest that summarises some numbers has at most 99 centroids, reads NaN only of none, and
      its quantiles never decrease and stay between the least and the greatest number. */
  lemma EstimateMeaning(g: Digester, d: Digest, vs: seq<real>, p: real, q: real)
    requires Summarises(d, vs) && 0.0 <= p <= q <= 1.0
    ensures |d.centroids| <= 99 && |Flushed(g, d).centroids| <= 99
    ensures vs == [] ==> Estimate(g, d, Number(p)).NaN?
    ensures vs != [] ==>
      && IsMin(vs, d.min) && IsMax(vs, d.max)
      && Estimate(g, d, Number(p)).Number? && Estimate(g, d, Number(q)).Number?
      && d.min <= Estimate(g, d, Number(p)).v <= Estimate(g, d, Number(q)).v <= d.max
  {
    hide Weight, Moment, SumOf, QuantileOf, Compressed;
    FlushedSummarises(g, d, vs);
    var f := Flushed(g, d);
    NoTotals();
    WeightPositive(f.centroids);
    SameExtremes(g, d);
    if vs != [] {
      QuantileMeaning(f.centroids, d.min, d.max, p, q);
    } else {
      NothingToEstimate(d.min, d.max, p);
    }
  }

  /** The estimate is read off the flushed digest; x is the target rank. */
  lemma EstimatePieces(g: Digester, d: Digest, q: real, x: real)
    requires x == q * Weight(Flushed(g, d).centroids)
    ensures IsReadAt(Flushed(g, d).centroids, d.min, d.max, x, Estimate(g, d, Number(q)))
  {
    hide Weight, Flushed, QuantileOf, IsReadAt;
    QuantilePieces(Flushed(g, d).centroids, d.min, d.max, q, x);
  }

  /** r is what the digest of n numbers holds at quantile q. */
  predicate Holds(d: Digest, n: nat, q: real, r: Sample) {
    IsReadAt(d.centroids, d.min, d.max, q * n as real, r)
  }

  /** A flushed digest has no buffer, and the rank of a quantile is that among the numbers. */
  lemma FlushedIsRead(g: Digester, d: Digest, vs: seq<real>, q: real)
    requires Summarises(d, vs)
    ensures Flushed(g, d).buffer == [] && (vs == [] ==> Flushed(g, d).centroids == [])
    ensures Holds(Flushed(g, d), |vs|, q, Estimate(g, d, Number(q)))
    ensures vs == [] ==> Estimate(g, d, Number(q)).NaN?
  {
    hide Weight, Moment, Within, Sorted, Estimate, Proportional, Midpoint, Compressed;
    FlushedSummarises(g, d, vs);
    FlushedHasNoBuffer(g, d);
    SameExtremes(g, d);
    EstimatePieces(g, d, q, q * |vs| as real);
  }

  lemma FlushedHasNoBuffer(g: Digester, d: Digest)
    ensures Flushed(g, d).buffer == []
  {
    hide Cluster;
  }

  lemma SameExtremes(g: Digester, d: Digest)
    ensures Flushed(g, d).min == d.min && Flushed(g, d).max == d.max
  {
  }

  lemma NothingToEstimate(lo: real, hi: real, q: real)
    ensures QuantileOf([], lo, hi, q).NaN?
  {
  }
}
