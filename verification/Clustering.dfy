/** Greedy clustering of weighted points along a scale function: the core of a t-digest
    compression pass, and the bounds it guarantees. */
module Clustering {
  import opened Sequences

  const DEFAULT_COMPRESSION: real := 100.0

  datatype Centroid = Centroid(mean: real, weight: real)

  // ---------- weighted points ----------

  function Mass(c: Centroid): real { c.mean * c.weight }

  function Weight(cs: seq<Centroid>): real {
    if cs == [] then 0.0 else cs[0].weight + Weight(cs[1..])
  }

  function Moment(cs: seq<Centroid>): real {
    if cs == [] then 0.0 else Mass(cs[0]) + Moment(cs[1..])
  }

  predicate Sorted(cs: seq<Centroid>) {
    forall i, j :: 0 <= i < j < |cs| ==> cs[i].mean <= cs[j].mean
  }

  predicate Positive(cs: seq<Centroid>) {
    forall i :: 0 <= i < |cs| ==> cs[i].weight > 0.0
  }

  predicate Within(cs: seq<Centroid>, lo: real, hi: real) {
    forall i :: 0 <= i < |cs| ==> lo <= cs[i].mean <= hi
  }

  lemma {:induction false} TotalsOfConcat(a: seq<Centroid>, b: seq<Centroid>)
    ensures Weight(a + b) == Weight(a) + Weight(b)
    ensures Moment(a + b) == Moment(a) + Moment(b)
  {
    if a == [] {
      assert a + b == b;
    } else {
      assert (a + b)[1..] == a[1..] + b;
      TotalsOfConcat(a[1..], b);
    }
  }

  lemma {:induction false} WeightPositive(cs: seq<Centroid>)
    requires Positive(cs)
    ensures Weight(cs) >= 0.0 && (cs != [] ==> Weight(cs) > 0.0)
  {
    if cs != [] {
      WeightPositive(cs[1..]);
    }
  }

  lemma TotalsOfOne(c: Centroid)
    ensures Weight([c]) == c.weight && Moment([c]) == Mass(c)
  {
    hide Mass;
    assert [c][1..] == [];
  }

  /** Totals do not depend on the order of the points. */
  lemma {:induction false} TotalsOfPermutation(a: seq<Centroid>, b: seq<Centroid>)
    requires multiset(a) == multiset(b)
    ensures Weight(a) == Weight(b) && Moment(a) == Moment(b)
  {
    if a == [] {
      assert |multiset(b)| == 0;
    } else {
      hide Weight, Moment;
      SplitFirst(a);
      var front, back := TakeOut(a[0], multiset(a[1..]), b);
      TotalsOfPermutation(a[1..], front + back);
      TotalsOfConcat(front, back);
      TotalsOfConcat(front + [a[0]], back);
      TotalsOfConcat(front, [a[0]]);
      TotalsOfConcat([a[0]], a[1..]);
    }
  }

  // ---------- joining points into one centroid ----------

  function Join(c: Centroid, p: Centroid): Centroid
    requires c.weight > 0.0 && p.weight > 0.0
  {
    var w := c.weight + p.weight;
    Centroid((Mass(c) + Mass(p)) / w, w)
  }

  lemma JoinIsWeightedMean(c: Centroid, p: Centroid, lo: real, hi: real)
    requires c.weight > 0.0 && p.weight > 0.0
    ensures Join(c, p).weight == c.weight + p.weight
    ensures Mass(Join(c, p)) == Mass(c) + Mass(p)
    ensures lo <= c.mean <= hi && lo <= p.mean <= hi ==> lo <= Join(c, p).mean <= hi
  {
    var w := c.weight + p.weight;
    if lo <= c.mean <= hi && lo <= p.mean <= hi {
      MassBounds(c, lo, hi);
      MassBounds(p, lo, hi);
      Distribute(lo, c.weight, p.weight);
      Distribute(hi, c.weight, p.weight);
      QuotientBounds(Mass(c) + Mass(p), w, lo, hi);
    }
    QuotientTimes(Mass(c) + Mass(p), w);
  }

  lemma Distribute(x: real, a: real, b: real)
    ensures x * (a + b) == x * a + x * b
  {
  }

  lemma QuotientTimes(s: real, w: real)
    requires w > 0.0
    ensures (s / w) * w == s
  {
  }

  lemma MassBounds(c: Centroid, lo: real, hi: real)
    requires lo <= c.mean <= hi && c.weight >= 0.0
    ensures lo * c.weight <= Mass(c) <= hi * c.weight
  {
    ProductMonotone(lo, c.mean, c.weight);
    ProductMonotone(c.mean, hi, c.weight);
  }

  lemma ProductMonotone(x: real, y: real, w: real)
    requires x <= y && w >= 0.0
    ensures x * w <= y * w
  {
    assert (y - x) * w >= 0.0;
  }

  lemma ProductIncreases(x: real, y: real, w: real)
    requires x < y && w > 0.0
    ensures x * w < y * w
  {
    assert (y - x) * w > 0.0;
  }

  lemma QuotientBounds(s: real, w: real, lo: real, hi: real)
    requires w > 0.0 && lo * w <= s <= hi * w
    ensures lo <= s / w <= hi
  {
    QuotientTimes(s, w);
    var m := s / w;
    if m < lo {
      ProductIncreases(m, lo, w);
    }
    if m > hi {
      ProductIncreases(hi, m, w);
    }
  }

  /** The centroid a run of points is folded into, left to right. */
  function Collapse(run: seq<Centroid>): (c: Centroid)
    requires run != [] && Positive(run)
    ensures c.weight > 0.0
  {
    if |run| == 1 then run[0]
    else Join(Collapse(run[..|run| - 1]), run[|run| - 1])
  }

  /** Folding keeps the weight and the weighted sum, and stays inside the run's range. */
  lemma {:induction false} CollapseMeaning(run: seq<Centroid>, lo: real, hi: real)
    requires run != [] && Positive(run)
    ensures Collapse(run).weight == Weight(run)
    ensures Mass(Collapse(run)) == Moment(run)
    ensures Within(run, lo, hi) ==> lo <= Collapse(run).mean <= hi
  {
    hide Weight, Moment, Join, Mass;
    if |run| == 1 {
      assert run == [run[0]];
      TotalsOfOne(run[0]);
    } else {
      var front, last := run[..|run| - 1], run[|run| - 1];
      SplitLast(run);
      CollapseMeaning(front, lo, hi);
      TotalsOfConcat(front, [last]);
      TotalsOfOne(last);
      JoinIsWeightedMean(Collapse(front), last, lo, hi);
    }
  }

  // ---------- the greedy partition ----------

  /** Runs of consecutive points: a run keeps growing while its whole span, from the weight it
      started at to the weight it would reach, measures at most 1 on the scale. */
  function Greedy(scale: real -> real, start: real, cur: seq<Centroid>, rest: seq<Centroid>): seq<seq<Centroid>>
    decreases rest
  {
    if rest == [] then [cur]
    else if scale(start + Weight(cur) + rest[0].weight) - scale(start) <= 1.0
    then Greedy(scale, start, cur + [rest[0]], rest[1..])
    else [cur] + Greedy(scale, start + Weight(cur), [rest[0]], rest[1..])
  }

  function Flatten(runs: seq<seq<Centroid>>): seq<Centroid> {
    if runs == [] then [] else runs[0] + Flatten(runs[1..])
  }

  /** The cumulative weight at which run j starts, when the first run starts at start. */
  function At(start: real, runs: seq<seq<Centroid>>, j: nat): real
    requires j <= |runs|
    decreases j
  {
    if j == 0 then start else At(start + Weight(runs[0]), runs[1..], j - 1)
  }

  predicate NonEmptyRuns(runs: seq<seq<Centroid>>) {
    forall j :: 0 <= j < |runs| ==> runs[j] != []
  }

  /** Span of the runs from i up to j, measured on the scale. */
  function Span(scale: real -> real, start: real, runs: seq<seq<Centroid>>, i: nat, j: nat): real
    requires i <= j <= |runs|
  {
    scale(At(start, runs, j)) - scale(At(start, runs, i))
  }

  predicate SpansAtMostOne(scale: real -> real, start: real, runs: seq<seq<Centroid>>) {
    forall j :: 0 <= j < |runs| && |runs[j]| > 1 ==> Span(scale, start, runs, j, j + 1) <= 1.0
  }

  /** Span of two neighbouring runs, measured on the scale. */
  function PairSpan(scale: real -> real, start: real, runs: seq<seq<Centroid>>, j: nat): real
    requires j + 2 <= |runs|
  {
    Span(scale, start, runs, j, j + 2)
  }

  predicate PairsExceedOne(scale: real -> real, start: real, runs: seq<seq<Centroid>>) {
    forall j :: 0 <= j < |runs| - 1 ==> PairSpan(scale, start, runs, j) > 1.0
  }

  ghost predicate NondecreasingTo(scale: real -> real, top: real) {
    forall x, y :: 0.0 <= x <= y <= top ==> scale(x) <= scale(y)
  }

  lemma AtCons(start: real, run: seq<Centroid>, runs: seq<seq<Centroid>>, j: nat)
    requires j <= |runs|
    ensures At(start, [run] + runs, 0) == start
    ensures At(start, [run] + runs, j + 1) == At(start + Weight(run), runs, j)
  {
    assert ([run] + runs)[1..] == runs;
  }

  /** Every run is a run of points: in order, nothing lost, none empty. */
  lemma {:induction false} GreedyPartitions(scale: real -> real, start: real, cur: seq<Centroid>, rest: seq<Centroid>)
    requires cur != []
    ensures Flatten(Greedy(scale, start, cur, rest)) == cur + rest
    ensures NonEmptyRuns(Greedy(scale, start, cur, rest))
    ensures Greedy(scale, start, cur, rest) != [] && cur <= Greedy(scale, start, cur, rest)[0]
    decreases rest
  {
    if rest == [] {
      assert Flatten([cur]) == cur + Flatten([]);
    } else {
      SplitFirst(rest);
      if scale(start + Weight(cur) + rest[0].weight) - scale(start) <= 1.0 {
        GreedyPartitions(scale, start, cur + [rest[0]], rest[1..]);
        assert (cur + [rest[0]]) + rest[1..] == cur + rest;
      } else {
        GreedyPartitions(scale, start + Weight(cur), [rest[0]], rest[1..]);
      }
    }
  }

  /** A run of more than one point never measures more than 1. */
  lemma {:induction false} GreedySpans(scale: real -> real, start: real, cur: seq<Centroid>, rest: seq<Centroid>)
    requires cur != []
    requires |cur| > 1 ==> scale(start + Weight(cur)) - scale(start) <= 1.0
    ensures SpansAtMostOne(scale, start, Greedy(scale, start, cur, rest))
    decreases rest
  {
    if rest == [] {
      AtCons(start, cur, [], 0);
      assert [cur] == [cur] + [];
    } else if scale(start + Weight(cur) + rest[0].weight) - scale(start) <= 1.0 {
      TotalsOfConcat(cur, [rest[0]]);
      TotalsOfOne(rest[0]);
      assert start + Weight(cur + [rest[0]]) == start + Weight(cur) + rest[0].weight;
      GreedySpans(scale, start, cur + [rest[0]], rest[1..]);
    } else {
      var tail := Greedy(scale, start + Weight(cur), [rest[0]], rest[1..]);
      GreedySpans(scale, start + Weight(cur), [rest[0]], rest[1..]);
      SpansPrepend(scale, start, cur, tail);
    }
  }

  lemma SpanCons(scale: real -> real, start: real, run: seq<Centroid>, tail: seq<seq<Centroid>>, i: nat, j: nat)
    requires i <= j <= |tail|
    ensures Span(scale, start, [run] + tail, i + 1, j + 1) == Span(scale, start + Weight(run), tail, i, j)
  {
    hide Weight;
    AtCons(start, run, tail, i);
    AtCons(start, run, tail, j);
  }

  lemma FirstSpan(scale: real -> real, start: real, run: seq<Centroid>, tail: seq<seq<Centroid>>)
    ensures Span(scale, start, [run] + tail, 0, 1) == scale(start + Weight(run)) - scale(start)
  {
    AtCons(start, run, tail, 0);
  }

  lemma SpansPrepend(scale: real -> real, start: real, run: seq<Centroid>, tail: seq<seq<Centroid>>)
    requires SpansAtMostOne(scale, start + Weight(run), tail)
    requires |run| > 1 ==> scale(start + Weight(run)) - scale(start) <= 1.0
    ensures SpansAtMostOne(scale, start, [run] + tail)
  {
    hide Weight, At, Span;
    var runs := [run] + tail;
    forall j | 0 <= j < |runs| && |runs[j]| > 1
      ensures Span(scale, start, runs, j, j + 1) <= 1.0
    {
      SpanAfterPrepend(scale, start, run, tail, j);
    }
  }

  lemma SpanAfterPrepend(scale: real -> real, start: real, run: seq<Centroid>, tail: seq<seq<Centroid>>, j: nat)
    requires SpansAtMostOne(scale, start + Weight(run), tail)
    requires |run| > 1 ==> scale(start + Weight(run)) - scale(start) <= 1.0
    requires j <= |tail| && |([run] + tail)[j]| > 1
    ensures Span(scale, start, [run] + tail, j, j + 1) <= 1.0
  {
    hide Weight, At, Span;
    if j > 0 {
      SpanCons(scale, start, run, tail, j - 1, j);
    } else {
      FirstSpan(scale, start, run, tail);
    }
  }

  /** The first point of the run after run j did not fit into run j. */
  predicate Full(scale: real -> real, start: real, runs: seq<seq<Centroid>>, j: nat)
    requires j + 1 < |runs|
  {
    runs[j + 1] != [] && scale(At(start, runs, j + 1) + runs[j + 1][0].weight) - scale(At(start, runs, j)) > 1.0
  }

  predicate AllFull(scale: real -> real, start: real, runs: seq<seq<Centroid>>) {
    forall j :: 0 <= j < |runs| - 1 ==> Full(scale, start, runs, j)
  }

  lemma {:induction false} GreedyIsFull(scale: real -> real, start: real, cur: seq<Centroid>, rest: seq<Centroid>)
    requires cur != []
    ensures AllFull(scale, start, Greedy(scale, start, cur, rest))
    decreases rest
  {
    hide Weight, At, Flatten;
    if rest != [] {
      if scale(start + Weight(cur) + rest[0].weight) - scale(start) <= 1.0 {
        GreedyIsFull(scale, start, cur + [rest[0]], rest[1..]);
      } else {
        var next := start + Weight(cur);
        var tail := Greedy(scale, next, [rest[0]], rest[1..]);
        GreedyIsFull(scale, next, [rest[0]], rest[1..]);
        GreedyPartitions(scale, next, [rest[0]], rest[1..]);
        FullPrepend(scale, start, cur, tail);
      }
    }
  }

  lemma FullPrepend(scale: real -> real, start: real, run: seq<Centroid>, tail: seq<seq<Centroid>>)
    requires AllFull(scale, start + Weight(run), tail) && tail != [] && tail[0] != []
    requires scale(start + Weight(run) + tail[0][0].weight) - scale(start) > 1.0
    ensures AllFull(scale, start, [run] + tail)
  {
    hide Weight, At;
    var next := start + Weight(run);
    AtStart(next, tail);
    AtCons(start, run, tail, 0);
    assert Full(scale, start, [run] + tail, 0);
    forall j | 0 < j < |tail|
      ensures Full(scale, start, [run] + tail, j)
    {
      FullLater(scale, start, run, tail, j - 1);
      assert Full(scale, next, tail, j - 1);
    }
  }

  lemma FullLater(scale: real -> real, start: real, run: seq<Centroid>, tail: seq<seq<Centroid>>, j: nat)
    requires j + 1 < |tail|
    ensures Full(scale, start, [run] + tail, j + 1) <==> Full(scale, start + Weight(run), tail, j)
  {
    hide Weight, At;
    AtCons(start, run, tail, j);
    AtCons(start, run, tail, j + 1);
  }

  /** Two neighbouring runs together always measure more than 1, since the second starts with a point
      that did not fit into the first. */
  lemma FullPairs(scale: real -> real, runs: seq<seq<Centroid>>, j: nat)
    requires AllPositive(runs) && AllFull(scale, 0.0, runs) && j + 2 <= |runs|
    requires NondecreasingTo(scale, Weight(Flatten(runs)))
    ensures PairSpan(scale, 0.0, runs, j) > 1.0
  {
    hide Weight, At, Flatten;
    assert Full(scale, 0.0, runs, j);
    AtStart(0.0, runs);
    AtEnd(0.0, runs);
    AtMonotone(0.0, runs, 0, j + 1);
    AtMonotone(0.0, runs, j + 2, |runs|);
    AtStep(0.0, runs, j + 1);
    FirstWeight(runs[j + 1]);
  }

  lemma FirstWeight(run: seq<Centroid>)
    requires run != [] && Positive(run)
    ensures 0.0 < run[0].weight <= Weight(run)
  {
    WeightPositive(run[1..]);
  }

  lemma PositiveParts(a: seq<Centroid>, b: seq<Centroid>)
    requires Positive(a + b)
    ensures Positive(a) && Positive(b)
  {
    assert forall i :: 0 <= i < |a| ==> a[i] == (a + b)[i];
    assert forall i :: 0 <= i < |b| ==> b[i] == (a + b)[|a| + i];
  }

  lemma AtStart(start: real, runs: seq<seq<Centroid>>)
    ensures At(start, runs, 0) == start
  {
  }

  lemma FlattenFirst(runs: seq<seq<Centroid>>)
    requires runs != []
    ensures Flatten(runs) == runs[0] + Flatten(runs[1..])
  {
  }

  // ---------- unfolding the partition, for the loop that computes it ----------

  lemma GreedyStep(scale: real -> real, start: real, cur: seq<Centroid>, p: Centroid, rest: seq<Centroid>)
    ensures Greedy(scale, start, cur, [p] + rest) ==
            if scale(start + Weight(cur) + p.weight) - scale(start) <= 1.0
            then Greedy(scale, start, cur + [p], rest)
            else [cur] + Greedy(scale, start + Weight(cur), [p], rest)
  {
    hide Weight;
    assert ([p] + rest)[1..] == rest;
  }

  lemma GreedyEnds(scale: real -> real, start: real, cur: seq<Centroid>)
    ensures Greedy(scale, start, cur, []) == [cur]
  {
  }

  lemma CollapseOne(p: Centroid)
    requires p.weight > 0.0
    ensures Positive([p]) && Collapse([p]) == p
  {
  }

  lemma CollapseSnoc(run: seq<Centroid>, p: Centroid)
    requires run != [] && Positive(run) && p.weight > 0.0
    ensures Positive(run + [p]) && Collapse(run + [p]) == Join(Collapse(run), p)
  {
    assert (run + [p])[..|run|] == run;
  }

  lemma CollapseAllSnoc(runs: seq<seq<Centroid>>, run: seq<Centroid>)
    requires AllPositive(runs) && run != [] && Positive(run)
    ensures AllPositive(runs + [run]) && CollapseAll(runs + [run]) == CollapseAll(runs) + [Collapse(run)]
  {
    hide Collapse;
    assert AllPositive(runs + [run]);
  }

  // ---------- how many runs there can be ----------

  lemma {:induction false} AtStep(start: real, runs: seq<seq<Centroid>>, j: nat)
    requires j < |runs|
    ensures At(start, runs, j + 1) == At(start, runs, j) + Weight(runs[j])
    decreases j
  {
    hide Weight;
    if j > 0 {
      AtStep(start + Weight(runs[0]), runs[1..], j - 1);
    }
  }

  predicate AllPositive(runs: seq<seq<Centroid>>) {
    forall j :: 0 <= j < |runs| ==> runs[j] != [] && Positive(runs[j])
  }

  lemma {:induction false} AtMonotone(start: real, runs: seq<seq<Centroid>>, i: nat, j: nat)
    requires i <= j <= |runs| && AllPositive(runs)
    ensures At(start, runs, i) <= At(start, runs, j)
    decreases j - i
  {
    if i < j {
      AtStep(start, runs, i);
      WeightPositive(runs[i]);
      AtMonotone(start, runs, i + 1, j);
    }
  }

  lemma {:induction false} AtEnd(start: real, runs: seq<seq<Centroid>>)
    ensures At(start, runs, |runs|) == start + Weight(Flatten(runs))
    decreases runs
  {
    hide Weight;
    if runs == [] {
      assert Weight([]) == 0.0 by { WeightOfNone(); }
    } else {
      AtEnd(start + Weight(runs[0]), runs[1..]);
      TotalsOfConcat(runs[0], Flatten(runs[1..]));
    }
  }

  lemma WeightOfNone()
    ensures Weight([]) == 0.0 && Moment([]) == 0.0
  {
  }

  lemma {:induction false} PairsAddUp(scale: real -> real, start: real, runs: seq<seq<Centroid>>, h: nat)
    requires PairsExceedOne(scale, start, runs) && 1 <= h && 2 * h <= |runs|
    ensures scale(At(start, runs, 2 * h)) - scale(start) > h as real
  {
    hide At;
    assert PairSpan(scale, start, runs, 2 * h - 2) > 1.0;
    AtStart(start, runs);
    if h > 1 {
      PairsAddUp(scale, start, runs, h - 1);
    }
  }

  /** Disjoint neighbouring pairs each take more than 1, so there are fewer than the whole
      scale's length of them. */
  lemma PairsBound(scale: real -> real, runs: seq<seq<Centroid>>, total: real)
    requires AllPositive(runs) && PairsExceedOne(scale, 0.0, runs) && |runs| >= 2
    requires Weight(Flatten(runs)) == total && NondecreasingTo(scale, total)
    ensures (|runs| / 2) as real < scale(total) - scale(0.0)
  {
    hide At, Weight;
    var h := |runs| / 2;
    PairsAddUp(scale, 0.0, runs, h);
    AtEnd(0.0, runs);
    AtStart(0.0, runs);
    AtMonotone(0.0, runs, 0, 2 * h);
    AtMonotone(0.0, runs, 2 * h, |runs|);
  }

  // ---------- the centroids of the runs ----------

  function CollapseAll(runs: seq<seq<Centroid>>): (cs: seq<Centroid>)
    requires AllPositive(runs)
    ensures |cs| == |runs| && Positive(cs)
    ensures forall j :: 0 <= j < |runs| ==> cs[j] == Collapse(runs[j])
  {
    if runs == [] then [] else [Collapse(runs[0])] + CollapseAll(runs[1..])
  }

  lemma {:induction false} CollapseAllKeepsTotals(runs: seq<seq<Centroid>>)
    requires AllPositive(runs)
    ensures Weight(CollapseAll(runs)) == Weight(Flatten(runs))
    ensures Moment(CollapseAll(runs)) == Moment(Flatten(runs))
  {
    if runs != [] {
      var c, run := Collapse(runs[0]), runs[0];
      hide Collapse, Weight, Moment, Mass;
      CollapseMeaning(run, 0.0, 0.0);
      CollapseAllKeepsTotals(runs[1..]);
      TotalsOfOne(c);
      TotalsOfConcat([c], CollapseAll(runs[1..]));
      TotalsOfConcat(run, Flatten(runs[1..]));
    }
  }

  lemma SortedParts(a: seq<Centroid>, b: seq<Centroid>, lo: real, hi: real)
    requires a != [] && Sorted(a + b) && Within(a + b, lo, hi)
    ensures Sorted(b) && Within(a, lo, a[|a| - 1].mean) && Within(b, a[|a| - 1].mean, hi)
    ensures lo <= a[|a| - 1].mean <= hi
  {
    var s, n := a + b, |a| - 1;
    assert s[n] == a[n];
    assert forall i :: 0 <= i < |a| ==> s[i] == a[i];
    assert forall i :: 0 <= i < |b| ==> s[|a| + i] == b[i];
  }

  /** Runs of sorted points give sorted centroids, inside the points' range. */
  lemma {:induction false} CollapseAllSorted(runs: seq<seq<Centroid>>, lo: real, hi: real)
    requires AllPositive(runs) && Sorted(Flatten(runs)) && Within(Flatten(runs), lo, hi)
    ensures Sorted(CollapseAll(runs)) && Within(CollapseAll(runs), lo, hi)
  {
    if runs != [] {
      hide Collapse;
      var run, rest := runs[0], runs[1..];
      SortedParts(run, Flatten(rest), lo, hi);
      CollapseMeaning(run, lo, run[|run| - 1].mean);
      CollapseAllSorted(rest, run[|run| - 1].mean, hi);
      assert CollapseAll(runs) == [Collapse(run)] + CollapseAll(rest);
    }
  }

  lemma {:induction false} FlattenPositive(runs: seq<seq<Centroid>>)
    requires NonEmptyRuns(runs) && Positive(Flatten(runs))
    ensures AllPositive(runs)
  {
    if runs != [] {
      PositiveParts(runs[0], Flatten(runs[1..]));
      FlattenPositive(runs[1..]);
      SplitFirst(runs);
    }
  }

  // ---------- one compression pass ----------

  /** The scale measured in weight consumed rather than in fraction of the total. */
  function ByWeight(scale: real -> real, total: real): real -> real {
    w => scale(if total == 0.0 then 0.0 else w / total)
  }

  function Runs(scale: real -> real, points: seq<Centroid>): seq<seq<Centroid>>
    requires points != []
  {
    Greedy(ByWeight(scale, Weight(points)), 0.0, [points[0]], points[1..])
  }

  /** The centroids that clustering sorted points produces. */
  function Cluster(scale: real -> real, points: seq<Centroid>): seq<Centroid>
    requires points != [] && Positive(points)
  {
    RunsArePositive(scale, points);
    CollapseAll(Runs(scale, points))
  }

  lemma RunsArePositive(scale: real -> real, points: seq<Centroid>)
    requires points != [] && Positive(points)
    ensures Flatten(Runs(scale, points)) == points && AllPositive(Runs(scale, points))
  {
    hide Greedy;
    SplitFirst(points);
    GreedyPartitions(ByWeight(scale, Weight(points)), 0.0, [points[0]], points[1..]);
    FlattenPositive(Runs(scale, points));
  }

  lemma ByWeightAt(scale: real -> real, total: real, w: real)
    requires total > 0.0
    ensures ByWeight(scale, total)(w) == scale(w / total)
  {
  }

  /** Before the first step: one run holding the first point, starting at fraction 0. */
  lemma StartOfRuns(scale: real -> real, points: seq<Centroid>)
    requires points != [] && Positive(points)
    ensures [] + Greedy(ByWeight(scale, Weight(points)), 0.0, [points[0]], points[1..]) == Runs(scale, points)
    ensures ByWeight(scale, Weight(points))(0.0) == scale(0.0)
    ensures CollapseAll([]) == []
  {
    hide Greedy;
    WeightPositive(points);
  }

  /** A t-digest scale function: nondecreasing over [0, 1], of total length half of delta. */
  ghost predicate IsScale(scale: real -> real, delta: real) {
    NondecreasingTo(scale, 1.0) && scale(1.0) - scale(0.0) == delta / 2.0
  }

  lemma FractionMonotone(x: real, y: real, total: real)
    requires total > 0.0 && 0.0 <= x <= y <= total
    ensures 0.0 <= x / total <= y / total <= 1.0
  {
    QuotientTimes(x, total);
    QuotientTimes(y, total);
    var p, q := x / total, y / total;
    if q < p {
      ProductIncreases(q, p, total);
    }
    if p < 0.0 {
      ProductIncreases(p, 0.0, total);
    }
    if q > 1.0 {
      ProductIncreases(1.0, q, total);
    }
  }

  lemma WholeFractions(total: real)
    requires total > 0.0
    ensures total / total == 1.0 && 0.0 / total == 0.0
  {
  }

  lemma ByWeightIsMonotone(scale: real -> real, delta: real, total: real)
    requires IsScale(scale, delta) && total > 0.0
    ensures NondecreasingTo(ByWeight(scale, total), total)
    ensures ByWeight(scale, total)(total) - ByWeight(scale, total)(0.0) == delta / 2.0
  {
    hide ByWeight;
    forall x, y | 0.0 <= x <= y <= total
      ensures ByWeight(scale, total)(x) <= ByWeight(scale, total)(y)
    {
      FractionMonotone(x, y, total);
      ByWeightAt(scale, total, x);
      ByWeightAt(scale, total, y);
    }
    ByWeightAt(scale, total, 0.0);
    ByWeightAt(scale, total, total);
    WholeFractions(total);
  }

  /** What one pass guarantees of the centroids it makes from sorted points. */
  lemma ClusterMeaning(scale: real -> real, delta: real, points: seq<Centroid>, lo: real, hi: real)
    requires points != [] && Positive(points) && Sorted(points) && Within(points, lo, hi) && IsScale(scale, delta)
    ensures Positive(Cluster(scale, points)) && Sorted(Cluster(scale, points)) && Within(Cluster(scale, points), lo, hi)
    ensures Weight(Cluster(scale, points)) == Weight(points) && Moment(Cluster(scale, points)) == Moment(points)
    ensures |Cluster(scale, points)| >= 2 ==> (|Cluster(scale, points)| / 2) as real < delta / 2.0
  {
    hide Greedy, Weight, Moment, Collapse, At, ByWeight;
    var runs, f, total := Runs(scale, points), ByWeight(scale, Weight(points)), Weight(points);
    RunsArePositive(scale, points);
    CollapseAllKeepsTotals(runs);
    CollapseAllSorted(runs, lo, hi);
    WeightPositive(points);
    ByWeightIsMonotone(scale, delta, total);
    if |runs| >= 2 {
      RunsExceedOne(scale, delta, points);
      PairsBound(f, runs, total);
    }
  }

  /** Neighbouring centroids together measure more than 1, and a centroid made of several
      points measures at most 1. */
  lemma RunsExceedOne(scale: real -> real, delta: real, points: seq<Centroid>)
    requires points != [] && Positive(points) && IsScale(scale, delta)
    ensures PairsExceedOne(ByWeight(scale, Weight(points)), 0.0, Runs(scale, points))
    ensures SpansAtMostOne(ByWeight(scale, Weight(points)), 0.0, Runs(scale, points))
  {
    hide Greedy, Weight, ByWeight, SpansAtMostOne, AllFull, At, PairSpan;
    var f, runs, first, rest := ByWeight(scale, Weight(points)), Runs(scale, points), [points[0]], points[1..];
    RunsArePositive(scale, points);
    WeightPositive(points);
    ByWeightIsMonotone(scale, delta, Weight(points));
    GreedyIsFull(f, 0.0, first, rest);
    GreedySpans(f, 0.0, first, rest);
    forall j | 0 <= j < |runs| - 1
      ensures PairSpan(f, 0.0, runs, j) > 1.0
    {
      FullPairs(f, runs, j);
    }
  }

  /** Run j starts at the weight of the centroids before it. */
  lemma {:induction false} AtMeaning(runs: seq<seq<Centroid>>, j: nat)
    requires AllPositive(runs) && j <= |runs|
    ensures At(0.0, runs, j) == Weight(CollapseAll(runs)[..j])
  {
    hide Weight, Collapse, At, CollapseAll;
    var cs := CollapseAll(runs);
    if j == 0 {
      AtStart(0.0, runs);
      WeightOfNone();
      assert cs[..0] == [];
    } else {
      AtMeaning(runs, j - 1);
      AtStep(0.0, runs, j - 1);
      CollapseMeaning(runs[j - 1], 0.0, 0.0);
      assert cs[..j] == cs[..j - 1] + [cs[j - 1]];
      TotalsOfConcat(cs[..j - 1], [cs[j - 1]]);
      TotalsOfOne(cs[j - 1]);
    }
  }

  /** Which fraction of the weight lies before centroid j. */
  function FractionBefore(cs: seq<Centroid>, j: nat): real
    requires j <= |cs| && Weight(cs) > 0.0
  {
    Weight(cs[..j]) / Weight(cs)
  }

  /** The scale at the weight where run j starts, and further on. */
  lemma ScaleAtRun(scale: real -> real, runs: seq<seq<Centroid>>, total: real, j: nat, more: real)
    requires AllPositive(runs) && Weight(CollapseAll(runs)) == total && total > 0.0 && j <= |runs|
    ensures ByWeight(scale, total)(At(0.0, runs, j)) == scale(FractionBefore(CollapseAll(runs), j))
    ensures ByWeight(scale, total)(At(0.0, runs, j) + more)
            == scale((Weight(CollapseAll(runs)[..j]) + more) / Weight(CollapseAll(runs)))
  {
    hide Weight, ByWeight, At, CollapseAll;
    AtMeaning(runs, j);
    ByWeightAt(scale, total, At(0.0, runs, j));
    ByWeightAt(scale, total, At(0.0, runs, j) + more);
  }

  /** On the scale, from where one centroid starts to where the next ends is more than 1. */
  lemma CentroidsExceedOne(scale: real -> real, delta: real, points: seq<Centroid>, j: nat)
    requires points != [] && Positive(points) && IsScale(scale, delta) && j + 2 <= |Cluster(scale, points)|
    ensures Weight(Cluster(scale, points)) > 0.0
    ensures var cs := Cluster(scale, points); scale(FractionBefore(cs, j + 2)) - scale(FractionBefore(cs, j)) > 1.0
  {
    hide Greedy, Weight, ByWeight, At, Runs, CollapseAll, FractionBefore;
    var runs, total := Runs(scale, points), Weight(points);
    RunsArePositive(scale, points);
    CollapseAllKeepsTotals(runs);
    WeightPositive(points);
    RunsExceedOne(scale, delta, points);
    ScaleAtRun(scale, runs, total, j, 0.0);
    ScaleAtRun(scale, runs, total, j + 2, 0.0);
    assert PairSpan(ByWeight(scale, total), 0.0, runs, j) > 1.0;
  }

  // ---------- which clustering it is ----------

  /** The points divided into runs, and their weighted means. */
  ghost predicate AreMeansOf(cs: seq<Centroid>, runs: seq<seq<Centroid>>) {
    && AllPositive(runs) && |runs| == |cs|
    && forall j :: 0 <= j < |cs| ==> cs[j].weight == Weight(runs[j]) && Mass(cs[j]) == Moment(runs[j])
  }

  /** Over a run of several points the scale rises by at most 1. */
  predicate FitsScale(scale: real -> real, cs: seq<Centroid>, runs: seq<seq<Centroid>>, j: nat)
    requires Weight(cs) > 0.0 && |runs| == |cs| && j < |cs|
  {
    |runs[j]| > 1 ==> scale(FractionBefore(cs, j + 1)) - scale(FractionBefore(cs, j)) <= 1.0
  }

  /** With the first point of the next run it would rise by more. */
  predicate FillsScale(scale: real -> real, cs: seq<Centroid>, runs: seq<seq<Centroid>>, j: nat)
    requires Weight(cs) > 0.0 && |runs| == |cs| && j + 1 < |cs| && AllPositive(runs)
  {
    scale((Weight(cs[..j + 1]) + runs[j + 1][0].weight) / Weight(cs)) - scale(FractionBefore(cs, j)) > 1.0
  }

  /** The weighted means of consecutive runs of the points, each as long as the scale allows. */
  ghost predicate IsClustering(scale: real -> real, points: seq<Centroid>, runs: seq<seq<Centroid>>,
                               cs: seq<Centroid>)
  {
    && Flatten(runs) == points && AreMeansOf(cs, runs) && Weight(cs) > 0.0
    && (forall j :: 0 <= j < |cs| ==> FitsScale(scale, cs, runs, j))
    && (forall j :: 0 <= j < |cs| - 1 ==> FillsScale(scale, cs, runs, j))
  }

  lemma MeansAreCollapsed(cs: seq<Centroid>, runs: seq<seq<Centroid>>)
    requires AllPositive(runs)
    ensures AreMeansOf(cs, runs) <==> cs == CollapseAll(runs)
  {
    hide Weight, Moment, Mass, Collapse;
    var ds := CollapseAll(runs);
    forall j | 0 <= j < |runs|
      ensures ds[j].weight == Weight(runs[j]) && Mass(ds[j]) == Moment(runs[j])
      ensures |cs| == |runs| && cs[j].weight == Weight(runs[j]) && Mass(cs[j]) == Moment(runs[j]) ==> cs[j] == ds[j]
    {
      CollapseMeaning(runs[j], 0.0, 0.0);
      if |cs| == |runs| && cs[j].weight == Weight(runs[j]) && Mass(cs[j]) == Moment(runs[j]) {
        SameMean(cs[j], ds[j]);
      }
    }
  }

  lemma SameMean(c: Centroid, d: Centroid)
    requires c.weight == d.weight > 0.0 && Mass(c) == Mass(d)
    ensures c == d
  {
    var w := d.weight;
    if c.mean < d.mean {
      ProductIncreases(c.mean, d.mean, w);
    } else if d.mean < c.mean {
      ProductIncreases(d.mean, c.mean, w);
    }
  }

  lemma RunScaled(scale: real -> real, runs: seq<seq<Centroid>>, total: real, j: nat)
    requires AllPositive(runs) && Weight(CollapseAll(runs)) == total && total > 0.0 && j < |runs|
    ensures var cs, f := CollapseAll(runs), ByWeight(scale, total);
            && (FitsScale(scale, cs, runs, j) <==> |runs[j]| > 1 ==> Span(f, 0.0, runs, j, j + 1) <= 1.0)
            && (j + 1 < |runs| ==> (FillsScale(scale, cs, runs, j) <==> Full(f, 0.0, runs, j)))
  {
    hide Weight, ByWeight, At, CollapseAll, FractionBefore;
    ScaleAtRun(scale, runs, total, j, 0.0);
    ScaleAtRun(scale, runs, total, j + 1, if j + 1 < |runs| then runs[j + 1][0].weight else 0.0);
  }

  /** In terms of the scale by weight. */
  lemma ScaledByWeight(scale: real -> real, runs: seq<seq<Centroid>>, total: real)
    requires AllPositive(runs) && Weight(Flatten(runs)) == total && total > 0.0
    ensures var cs, f := CollapseAll(runs), ByWeight(scale, total);
            && Weight(cs) > 0.0
            && ((forall j :: 0 <= j < |cs| ==> FitsScale(scale, cs, runs, j)) <==> SpansAtMostOne(f, 0.0, runs))
            && ((forall j :: 0 <= j < |cs| - 1 ==> FillsScale(scale, cs, runs, j)) <==> AllFull(f, 0.0, runs))
  {
    hide Weight, ByWeight, At, CollapseAll, FractionBefore, FitsScale, FillsScale, Span, Full, AllPositive;
    var cs, f := CollapseAll(runs), ByWeight(scale, total);
    CollapseAllKeepsTotals(runs);
    forall j | 0 <= j < |runs|
      ensures FitsScale(scale, cs, runs, j) <==> |runs[j]| > 1 ==> Span(f, 0.0, runs, j, j + 1) <= 1.0
      ensures j + 1 < |runs| ==> (FillsScale(scale, cs, runs, j) <==> Full(f, 0.0, runs, j))
    {
      RunScaled(scale, runs, total, j);
    }
  }

  /** Greedy division is the only one whose runs fit and are full. */
  lemma {:induction false} GreedyIsOnly(scale: real -> real, start: real, cur: seq<Centroid>, rest: seq<Centroid>,
                                        runs: seq<seq<Centroid>>, top: real)
    requires cur != [] && AllPositive(runs) && runs != [] && Flatten(runs) == cur + rest && cur <= runs[0]
    requires SpansAtMostOne(scale, start, runs) && AllFull(scale, start, runs)
    requires NondecreasingTo(scale, top) && 0.0 <= start && start + Weight(Flatten(runs)) <= top
    ensures runs == Greedy(scale, start, cur, rest)
    decreases rest
  {
    hide Weight, At, Span, SpansAtMostOne, AllFull, Full, Greedy, AllPositive;
    var tail := runs[1..];
    FlattenFirst(runs);
    OfAllRuns(runs);
    if runs[0] == cur {
      TailFits(scale, start, runs);
      SameEnd(cur, rest, Flatten(tail));
      if tail == [] {
        LastRun(scale, start, cur, runs);
      } else {
        FlattenFirst(tail);
        NextRun(scale, start, cur, tail);
        assert rest[0] == tail[0][0] && rest == [rest[0]] + rest[1..];
        assert runs == [cur] + tail;
        TotalsOfConcat(cur, rest);
        GreedyIsOnly(scale, start + Weight(cur), [rest[0]], rest[1..], tail, top);
        GreedyStep(scale, start, cur, rest[0], rest[1..]);
      }
    } else {
      var p := runs[0][|cur|];
      NextPoint(cur, rest, runs[0], Flatten(tail));
      PointFits(scale, start, cur, p, runs, top);
      GreedyIsOnly(scale, start, cur + [p], rest[1..], runs, top);
      GreedyStep(scale, start, cur, p, rest[1..]);
    }
  }

  lemma OfAllRuns(runs: seq<seq<Centroid>>)
    requires AllPositive(runs) && runs != []
    ensures AllPositive(runs[1..]) && Positive(runs[0]) && Weight(runs[0]) >= 0.0
    ensures |runs| > 1 ==> runs[1] != []
  {
    WeightPositive(runs[0]);
  }

  lemma SameEnd<T>(a: seq<T>, b: seq<T>, c: seq<T>)
    requires a + b == a + c
    ensures b == c
  {
    assert b == (a + b)[|a|..] && c == (a + c)[|a|..];
  }

  lemma LastRun(scale: real -> real, start: real, cur: seq<Centroid>, runs: seq<seq<Centroid>>)
    requires |runs| == 1 && runs[0] == cur
    ensures Flatten(runs[1..]) == [] && runs == Greedy(scale, start, cur, [])
  {
  }

  /** The run after cur starts with a point that did not fit. */
  lemma NextRun(scale: real -> real, start: real, cur: seq<Centroid>, tail: seq<seq<Centroid>>)
    requires tail != [] && AllFull(scale, start, [cur] + tail)
    ensures tail[0] != [] && scale(start + Weight(cur) + tail[0][0].weight) - scale(start) > 1.0
  {
    hide Weight, At;
    assert Full(scale, start, [cur] + tail, 0);
    AtCons(start, cur, tail, 0);
    AtStart(start + Weight(cur), tail);
  }

  lemma NextPoint(cur: seq<Centroid>, rest: seq<Centroid>, run: seq<Centroid>, beyond: seq<Centroid>)
    requires cur <= run && cur != run && cur + rest == run + beyond
    ensures |cur| < |run| && rest == [run[|cur|]] + rest[1..] && cur + [run[|cur|]] <= run
    ensures cur + rest == (cur + [run[|cur|]]) + rest[1..]
  {
    assert (cur + rest)[|cur|] == (run + beyond)[|cur|];
  }

  lemma TailFits(scale: real -> real, start: real, runs: seq<seq<Centroid>>)
    requires runs != [] && SpansAtMostOne(scale, start, runs) && AllFull(scale, start, runs)
    ensures SpansAtMostOne(scale, start + Weight(runs[0]), runs[1..])
    ensures AllFull(scale, start + Weight(runs[0]), runs[1..])
    ensures runs == [runs[0]] + runs[1..]
  {
    hide Weight, At, Span, Full;
    var run, tail, next := runs[0], runs[1..], start + Weight(runs[0]);
    assert runs == [run] + tail;
    forall j | 0 <= j < |tail|
      ensures |tail[j]| > 1 ==> Span(scale, next, tail, j, j + 1) <= 1.0
    {
      SpanCons(scale, start, run, tail, j, j + 1);
      assert runs[j + 1] == tail[j];
    }
    forall j | 0 <= j < |tail| - 1
      ensures Full(scale, next, tail, j)
    {
      FullLater(scale, start, run, tail, j);
      assert Full(scale, start, runs, j + 1);
    }
  }

  /** A run of several points fits, and so does every beginning of it. */
  lemma PointFits(scale: real -> real, start: real, cur: seq<Centroid>, p: Centroid, runs: seq<seq<Centroid>>,
                  top: real)
    requires cur != [] && AllPositive(runs) && runs != [] && cur + [p] <= runs[0]
    requires SpansAtMostOne(scale, start, runs) && NondecreasingTo(scale, top)
    requires 0.0 <= start && start + Weight(Flatten(runs)) <= top
    ensures scale(start + Weight(cur) + p.weight) - scale(start) <= 1.0
  {
    hide Weight, At, Flatten;
    var run := runs[0];
    var more := run[|cur| + 1..];
    assert run == (cur + [p]) + more;
    assert runs == [run] + runs[1..];
    FirstSpan(scale, start, run, runs[1..]);
    FlattenFirst(runs);
    AtEnd(0.0, runs[1..]);
    AtStart(0.0, runs[1..]);
    AtMonotone(0.0, runs[1..], 0, |runs[1..]|);
    TotalsOfConcat(run, Flatten(runs[1..]));
    TotalsOfConcat(cur + [p], more);
    TotalsOfConcat(cur, [p]);
    TotalsOfOne(p);
    PositiveParts(cur + [p], more);
    WeightPositive(more);
    WeightPositive(cur + [p]);
    assert Span(scale, start, runs, 0, 1) <= 1.0;
  }

  /** Clustering is determined: the centroids of a pass, and no others, are the weighted means of
      consecutive runs of the points, each as long as the scale allows. */
  lemma ClusteringIsCluster(scale: real -> real, delta: real, points: seq<Centroid>, runs: seq<seq<Centroid>>,
                            cs: seq<Centroid>)
    requires points != [] && Positive(points) && IsScale(scale, delta)
    ensures IsClustering(scale, points, runs, cs) <==> runs == Runs(scale, points) && cs == Cluster(scale, points)
  {
    hide Greedy, Weight, Moment, ByWeight, At, CollapseAll, FitsScale, FillsScale, SpansAtMostOne, AllFull, AreMeansOf,
         Flatten;
    var total, f, first, rest := Weight(points), ByWeight(scale, Weight(points)), [points[0]], points[1..];
    WeightPositive(points);
    ByWeightIsMonotone(scale, delta, total);
    RunsArePositive(scale, points);
    SplitFirst(points);
    if IsClustering(scale, points, runs, cs) {
      MeansArePositive(cs, runs);
      MeansAreCollapsed(cs, runs);
      ScaledByWeight(scale, runs, total);
      FirstOfFlat(runs);
      GreedyIsOnly(f, 0.0, first, rest, runs, total);
    }
    MeansAreCollapsed(Cluster(scale, points), Runs(scale, points));
    ScaledByWeight(scale, Runs(scale, points), total);
    GreedyIsFull(f, 0.0, first, rest);
    GreedySpans(f, 0.0, first, rest);
  }

  lemma MeansArePositive(cs: seq<Centroid>, runs: seq<seq<Centroid>>)
    requires AreMeansOf(cs, runs)
    ensures AllPositive(runs)
  {
  }

  lemma FirstOfFlat(runs: seq<seq<Centroid>>)
    requires AllPositive(runs) && Flatten(runs) != []
    ensures runs != [] && [Flatten(runs)[0]] <= runs[0]
  {
  }

  /** At the default compression of 100 a digest never holds more than 99 centroids. */
  lemma AtMostNinetyNine(scale: real -> real, points: seq<Centroid>)
    requires points != [] && Positive(points) && Sorted(points) && IsScale(scale, DEFAULT_COMPRESSION)
    ensures |Cluster(scale, points)| <= 99
  {
    var lo, hi := points[0].mean, points[|points| - 1].mean;
    ClusterMeaning(scale, DEFAULT_COMPRESSION, points, lo, hi);
  }
}
