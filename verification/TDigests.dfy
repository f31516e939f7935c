/** The t-digest object: buffers values, compresses them into centroids, merges, and
    estimates quantiles. Each method does to the fields what its value-level counterpart in
    Digests does to a digest. */
module TDigests {
  import opened Sequences
  import opened Clustering
  import opened Quantiles
  import opened Digests

  class TDigest {
    var centroids: Centroids
    var buffer: seq<real>
    var min: real
    var max: real
    var haveMinMax: bool
    var unbounded: bool

    function State(): Digest
      reads this
    {
      DigestFields(centroids, buffer, min, max, haveMinMax, unbounded)
    }

    constructor ()
      ensures State() == EMPTY_DIGEST
    {
      centroids, buffer, min, max, haveMinMax, unbounded := [], [], 0.0, 0.0, false, false;
    }

    /** Replaces centroids and buffer by the clusters of all their points, in order of mean. */
    method Compress(g: Digester)
      modifies this`centroids, this`buffer
      ensures State() == Compressed(g, old(State()))
    {
      hide Cluster;
      var raw := centroids + Points(buffer);
      buffer := [];
      if |raw| == 0 {
        centroids := [];
        return;
      }
      SortKeepsPoints(g, raw);
      var points := g.sort(raw);
      ClusterIsPositive(g.scale, points);
      centroids := ClusterPoints(g.scale, points);
    }

    /** The left-to-right clustering loop. */
    static method ClusterPoints(scale: Scale, points: seq<Centroid>) returns (out: seq<Centroid>)
      requires points != [] && Positive(points)
      ensures out == Cluster(scale, points)
    {
      hide Greedy, Weight, Collapse, CollapseAll, ByWeight, Runs, Join;
      var total := Total(points);
      var cur, cumulative, q0Start := points[0], points[0].weight, 0.0;
      out := [];
      ghost var f, run, start := ByWeight(scale, total), [points[0]], 0.0;
      ghost var runs: seq<seq<Centroid>> := [];
      WeightPositive(points);
      TotalsOfOne(points[0]);
      RunsArePositive(scale, points);
      CollapseOne(points[0]);
      StartOfRuns(scale, points);
      for i := 1 to |points|
        invariant run != [] && Positive(run) && AllPositive(runs)
        invariant runs + Greedy(f, start, run, points[i..]) == Runs(scale, points)
        invariant out == CollapseAll(runs) && cur == Collapse(run)
        invariant cumulative == start + Weight(run) && f(start) == scale(q0Start)
      {
        var p := points[i];
        assert points[i..] == [p] + points[i + 1..];
        GreedyStep(f, start, run, p, points[i + 1..]);
        TotalsOfConcat(run, [p]);
        TotalsOfOne(p);
        ByWeightAt(scale, total, cumulative + p.weight);
        var q1 := (cumulative + p.weight) / total;
        if scale(q1) - scale(q0Start) <= 1.0 {
          CollapseSnoc(run, p);
          cur := Join(cur, p);
          run := run + [p];
        } else {
          CollapseAllSnoc(runs, run);
          ConcatAssociates(runs, [run], Greedy(f, cumulative, [p], points[i + 1..]));
          ByWeightAt(scale, total, cumulative);
          out := out + [cur];
          q0Start := cumulative / total;
          cur := p;
          CollapseOne(p);
          runs, start, run := runs + [run], cumulative, [p];
        }
        cumulative := cumulative + p.weight;
      }
      GreedyEnds(f, start, run);
      CollapseAllSnoc(runs, run);
      assert points[|points|..] == [];
      out := out + [cur];
    }

    static method Total(points: seq<Centroid>) returns (total: real)
      ensures total == Weight(points)
    {
      total := 0.0;
      NoTotals();
      for i := 0 to |points|
        invariant total == Weight(points[..i])
      {
        assert points[..i + 1] == points[..i] + [points[i]];
        TotalsOfConcat(points[..i], [points[i]]);
        TotalsOfOne(points[i]);
        total := total + points[i].weight;
      }
      assert points[..|points|] == points;
    }

    /** NaN leaves the digest alone; a number joins it. */
    method AddValue(g: Digester, x: Sample)
      modifies this
      ensures State() == Added(g, old(State()), x)
    {
      hide Compressed;
      match x {
        case NaN => return;
        case Infinite => unbounded := true;
        case Number(v) =>
          if !haveMinMax {
            min, max := v, v;
            haveMinMax := true;
          } else {
            min := MinReal(min, v);
            max := MaxReal(max, v);
          }
          buffer := buffer + [v];
          if |buffer| >= BUFFER_CAP {
            Compress(g);
          }
      }
    }

    method FlushPending(g: Digester)
      modifies this`centroids, this`buffer
      ensures State() == Flushed(g, old(State()))
    {
      hide Compressed;
      if |buffer| > 0 {
        Compress(g);
      }
    }

    /** The estimated value at quantile q, a number or NaN. */
    method Quantile(g: Digester, q: Sample) returns (r: Sample)
      requires !q.Infinite?
      modifies this`centroids, this`buffer
      ensures State() == Flushed(g, old(State())) && r == Estimate(g, old(State()), q)
    {
      hide Flushed;
      SameExtremes(g, State());
      FlushPending(g);
      if |centroids| == 0 {
        return NaN;
      }
      if |centroids| == 1 {
        return Number(centroids[0].mean);
      }
      if q.NaN? {
        return NaN;
      }
      var v := Interpolate(centroids, q.v);
      return Number(v);
    }

    /** Between the minimum and the first mean, between neighbouring means, or up to the maximum. */
    method Interpolate(cs: seq<Centroid>, q: real) returns (v: real)
      requires Positive(cs) && |cs| >= 2
      ensures v == AtRank(cs, min, max, Weight(cs), TargetRank(q, Weight(cs)))
    {
      hide Weight, Lerp, Fraction, TargetRank;
      var total := Total(cs);
      var targetRank := TargetRank(q, total);
      var first := cs[0];
      if targetRank <= first.weight / 2.0 {
        return Lerp(min, first.mean, Fraction(targetRank, 0.0, first.weight / 2.0));
      }
      var cum, i := first.weight / 2.0, 0;
      while i + 1 < |cs|
        invariant 0 <= i < |cs|
        invariant AtRank(cs, min, max, total, targetRank) == Walk(cs, i, cum, max, total, targetRank)
        decreases |cs| - i
      {
        var halfSum := (cs[i].weight + cs[i + 1].weight) / 2.0;
        if targetRank <= cum + halfSum {
          return Lerp(cs[i].mean, cs[i + 1].mean, Fraction(targetRank, cum, halfSum));
        }
        cum := cum + halfSum;
        i := i + 1;
      }
      var remaining := total - cum;
      if remaining <= 0.0 {
        return cs[i].mean;
      }
      return Lerp(cs[i].mean, max, Fraction(targetRank, cum, remaining));
    }

    /** Folds another digest into this one. The other digest is only flushed. */
    method Merge(g: Digester, other: TDigest)
      requires other != this
      modifies this, other`centroids, other`buffer
      ensures State() == Merged(g, old(State()), old(other.State()))
      ensures other.State() == Flushed(g, old(other.State()))
    {
      hide Flushed, Compressed;
      FlushPending(g);
      other.FlushPending(g);
      Adopt(other);
      Compress(g);
    }

    /** Takes over the other digest's centroids, unsorted, and its extremes. */
    method Adopt(other: TDigest)
      requires other != this
      modifies this
      ensures State() == Adopted(old(State()), other.State())
    {
      centroids := centroids + other.centroids;
      unbounded := unbounded || other.unbounded;
      if other.haveMinMax {
        if !haveMinMax {
          min, max := other.min, other.max;
          haveMinMax := true;
        } else {
          min := MinReal(min, other.min);
          max := MaxReal(max, other.max);
        }
      }
    }
  }
}
