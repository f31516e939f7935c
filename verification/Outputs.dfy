/** The value reported for each function of each measure, and what it says about the rows. */
module Outputs {
  import opened Words
  import opened Floats
  import opened Rounding
  import opened Averages
  import opened Summations
  import opened Values
  import opened Quantiles
  import D = Digests
  import opened Accumulators
  import opened Groups
  import opened Representations
  import opened Histories
  import HLL = HyperLogLogs

  /** The sum and the average of a float column are told apart from other floats, since their last
      bits depend on the order of additions. Distinct counts are left as registers. A percentile is
      the digest's estimate, unless an infinity was added or asked for. */
  datatype Output =
    | Whole(i: int64)
    | Bits(bits: uint64)
    | FloatSum(bits: uint64)
    | FloatAverage(bits: uint64)
    | DistinctEstimate(registers: HLL.Registers)
    | Estimated(estimate: Sample)
    | NotModelled

  /** A percentile, on the scale of 100, as a quantile: fn.q / 100. */
  function QuantileFor(q: uint64): Sample { FloatSample(Decode(Divide(q, FromInt(100)))) }

  function PercentileOf(g: D.Digester, d: D.Digest, q: uint64): Output {
    if d.unbounded || QuantileFor(q).Infinite? then NotModelled else Estimated(D.Estimate(g, d, QuantileFor(q)))
  }

  function OutputOf(m: Measure, count: int64, fn: AggFunc, tools: Tools): Output
    requires (fn == Distinct ==> m.distinct.Some?) && (fn.Percentile? ==> m.digest.Some?)
  {
    match fn
    case Sum => if m.typ == TypeInt64 then Whole(m.numbers.sumI64) else FloatSum(m.numbers.sumF64)
    case Min => if m.typ == TypeInt64 then Whole(m.numbers.minI64) else Bits(m.numbers.minF64)
    case Max => if m.typ == TypeInt64 then Whole(m.numbers.maxI64) else Bits(m.numbers.maxF64)
    case Avg =>
      if m.typ == TypeInt64 then Bits(IntMean(m.numbers.sumI64, count))
      else FloatAverage(Divide(m.numbers.sumF64, FromInt(count)))
    case Distinct => DistinctEstimate(m.distinct.value)
    case Percentile(q) => PercentileOf(tools.digester, m.digest.value, q)
  }

  datatype MeasureResult = MeasureResult(column: string, func: AggFunc, value: Output)

  predicate Answerable(m: Measure, funcs: seq<AggFunc>) {
    forall j :: 0 <= j < |funcs| ==>
      (funcs[j] == Distinct ==> m.distinct.Some?) && (funcs[j].Percentile? ==> m.digest.Some?)
  }

  /** Every function of one measure, in the order they were asked for. */
  function ResultsOf(m: Measure, count: int64, ms: MeasureSpec, tools: Tools): (r: seq<MeasureResult>)
    requires Answerable(m, ms.funcs)
    ensures |r| == |ms.funcs|
  {
    seq(|ms.funcs|, j requires 0 <= j < |ms.funcs| =>
      MeasureResult(ms.column, ms.funcs[j], OutputOf(m, count, ms.funcs[j], tools)))
  }

  lemma FittingIsAnswerable(s: Shape, g: Group, i: nat)
    requires s.Valid() && Fits(s, g) && i < |s.spec.measures|
    ensures Answerable(g.measures[i], s.spec.measures[i].funcs)
  {
    assert MeasureFits(s, g.measures[i], i);
  }

  /** Every function of the first n measures. */
  function MeasureResults(s: Shape, g: Group, n: nat): (r: seq<MeasureResult>)
    requires s.Valid() && Fits(s, g) && n <= |s.spec.measures|
  {
    if n == 0 then []
    else
      FittingIsAnswerable(s, g, n - 1);
      MeasureResults(s, g, n - 1) + ResultsOf(g.measures[n - 1], g.count, s.spec.measures[n - 1], s.tools)
  }

  datatype GroupResult = GroupResult(key: Key, count: int64, measures: seq<MeasureResult>)

  function ToResult(s: Shape, key: Key, g: Group): GroupResult
    requires s.Valid() && Fits(s, g)
  {
    GroupResult(key, g.count, MeasureResults(s, g, |s.spec.measures|))
  }

  // ---------- reporting flushes the digests ----------

  /** Flushing changes no output, and flushing again changes nothing. */
  lemma SettledOutput(m: Measure, count: int64, fn: AggFunc, tools: Tools)
    requires (fn == Distinct ==> m.distinct.Some?) && (fn.Percentile? ==> m.digest.Some?)
    ensures OutputOf(Settled(m, tools), count, fn, tools) == OutputOf(m, count, fn, tools)
    ensures Settled(Settled(m, tools), tools) == Settled(m, tools)
  {
    hide D.Compressed, QuantileOf, QuantileFor;
    if m.digest.Some? {
      D.FlushedAgain(tools.digester, m.digest.value);
    }
  }

  lemma {:induction false} SettledResults(s: Shape, g: Group, n: nat)
    requires s.Valid() && Fits(s, g) && Fits(s, SettledGroup(g, s.tools)) && n <= |s.spec.measures|
    ensures MeasureResults(s, SettledGroup(g, s.tools), n) == MeasureResults(s, g, n)
  {
    hide Settled, OutputOf, Fits;
    if n > 0 {
      SettledResults(s, g, n - 1);
      var settled, funcs := SettledGroup(g, s.tools), s.spec.measures[n - 1].funcs;
      GroupSizes(s, g);
      FittingIsAnswerable(s, g, n - 1);
      FittingIsAnswerable(s, settled, n - 1);
      forall j | 0 <= j < |funcs|
        ensures OutputOf(settled.measures[n - 1], g.count, funcs[j], s.tools)
             == OutputOf(g.measures[n - 1], g.count, funcs[j], s.tools)
      {
        SettledOutput(g.measures[n - 1], g.count, funcs[j], s.tools);
      }
    }
  }

  lemma GroupSizes(s: Shape, g: Group)
    requires s.Valid() && Fits(s, g)
    ensures |g.measures| == |s.spec.measures|
  {
  }

  // ---------- what the outputs say ----------

  /** The reported average of integers is the rounded quotient of the column's sum and size exactly
      when the sum did not overflow. */
  lemma AverageMeaning(column: seq<Value>, n: nat)
    requires 0 < n == |column| < TWO_TO_THE_63
    ensures IntMean(Wrap(SumInts(column)), Wrap(n)) == IntMean(SumInts(column), n)
            <==> -TWO_TO_THE_63 <= SumInts(column) < TWO_TO_THE_63
  {
    hide SumInts, IntMean;
    WrapIsCongruent(n);
    OverflowChangesMean(SumInts(column), n);
  }

  /** Two values whose reported average is not theirs. */
  lemma OverflowedAverage()
    ensures var column := [I64(TWO_TO_THE_63 - 1), I64(1)];
            && SumInts(column) == TWO_TO_THE_63
            && IntMean(Wrap(SumInts(column)), Wrap(|column|)) != IntMean(SumInts(column), |column|)
  {
    hide IntMean;
    var column := [I64(TWO_TO_THE_63 - 1), I64(1)];
    assert column[..1] == [I64(TWO_TO_THE_63 - 1)] && column[..1][..0] == [];
    assert SumInts(column[..1]) == TWO_TO_THE_63 - 1;
    AverageMeaning(column, 2);
  }

  /** What function fn may report of a column of numbers of this type. Functions that need numbers are
      never asked of strings. */
  ghost predicate IsAnswer(typ: ColumnType, column: seq<Value>, fn: AggFunc, tools: Tools, o: Output) {
    match fn
    case Distinct =>
      o.DistinctEstimate?
      && forall j :: 0 <= j < HLL.REGISTERS ==> HLL.IsMaxRho(Hashes(column, tools.hash), j, o.registers[j])
    case Percentile(q) => IsPercentileAnswer(Samples(typ, column), q, o)
    case _ =>
      && (typ == TypeInt64 ==> IsIntAnswer(column, fn, o))
      && (typ == TypeFloat64 ==> IsFloatAnswer(column, fn, o))
  }

  /** Sums of integers are exact modulo 2^64; an average divides the sum so wrapped. */
  ghost predicate IsIntAnswer(column: seq<Value>, fn: AggFunc, o: Output) {
    && (fn.Sum? ==> o == Whole(Wrap(SumInts(column))))
    && (fn.Min? ==> o.Whole? && IsIntMin(column, o.i))
    && (fn.Max? ==> o.Whole? && IsIntMax(column, o.i))
    && (fn.Avg? ==> o == Bits(Divide(FromInt(Wrap(SumInts(column))), FromInt(Wrap(|column|)))))
  }

  /** Sums of floats are rounded in some order of additions. */
  ghost predicate IsFloatAnswer(column: seq<Value>, fn: AggFunc, o: Output) {
    && (fn.Sum? ==> o.FloatSum? && IsSumOf(o.bits, FloatsOf(column)))
    && (fn.Min? ==> o.Bits? && IsFloatMin(column, o.bits))
    && (fn.Max? ==> o.Bits? && IsFloatMax(column, o.bits))
    && (fn.Avg? ==>
          exists sum :: IsSumOf(sum, FloatsOf(column)) && o == FloatAverage(Divide(sum, FromInt(Wrap(|column|)))))
  }

  /** Percentile q of these samples, read off some digest of them. */
  ghost predicate IsPercentileAnswer(xs: seq<Sample>, q: uint64, o: Output) {
    if Infinite in xs || QuantileFor(q).Infinite? then o == NotModelled
    else o.Estimated? && exists d :: IsReading(d, D.NumbersIn(xs), QuantileFor(q), o.estimate)
  }

  /** The digest summarises the numbers, and holds x at the rank of quantile q among them. From 0 to 1
      a quantile lies between the least number and the greatest. */
  ghost predicate IsReading(d: D.Digest, vs: seq<real>, q: Sample, x: Sample) {
    && D.Summarises(d, vs) && d.buffer == []
    && (vs == [] ==> x.NaN?)
    && (q.Number? ==> D.Holds(d, |vs|, q.v, x))
    && (q.NaN? ==> x == if |d.centroids| == 1 then Number(d.centroids[0].mean) else NaN)
    && (q.Number? && 0.0 <= q.v <= 1.0 && vs != [] ==>
          x.Number? && D.IsMin(vs, d.min) && D.IsMax(vs, d.max) && d.min <= x.v <= d.max)
  }

  /** Reading a percentile off a digest of some samples. */
  lemma PercentileAnswer(g: D.Digester, d: D.Digest, xs: seq<Sample>, q: uint64)
    requires D.Describes(d, xs)
    ensures IsPercentileAnswer(xs, q, PercentileOf(g, d, q))
  {
    hide D.Summarises, D.NumbersIn, D.Estimate, D.Flushed, QuantileFor, IsReading;
    if Infinite !in xs {
      D.SummarisesBounded(d, D.NumbersIn(xs));
      if !QuantileFor(q).Infinite? {
        EstimateIsReading(g, d, D.NumbersIn(xs), QuantileFor(q));
      }
    }
  }

  lemma EstimateIsReading(g: D.Digester, d: D.Digest, vs: seq<real>, q: Sample)
    requires D.Summarises(d, vs) && !q.Infinite?
    ensures IsReading(D.Flushed(g, d), vs, q, D.Estimate(g, d, q))
  {
    hide D.Summarises, D.Flushed, D.Compressed, QuantileOf, D.Holds, D.IsMin, D.IsMax;
    D.FlushedSummarises(g, d, vs);
    D.SameExtremes(g, d);
    D.FlushedIsRead(g, d, vs, 0.0);
    if q.Number? {
      D.FlushedIsRead(g, d, vs, q.v);
      if 0.0 <= q.v <= 1.0 {
        D.EstimateMeaning(g, d, vs, q.v, q.v);
      }
    }
  }

  /** What a group's outputs say about the rows it was computed from, however the map was put
      together. */
  lemma OutputMeaning(s: Shape, m: GroupMap, rows: seq<Row>, key: Key, i: nat, fn: AggFunc)
    requires s.Valid() && Represents(s, m, rows) && key in m && i < |s.measureTypes| && fn in s.spec.measures[i].funcs
    ensures RowsFit(s, rows) && Fits(s, m[key])
    ensures var x, theirs := m[key].measures[i], RowsWithKey(s, rows, key);
            && theirs != [] && m[key].count == Wrap(|theirs|)
            && (fn == Distinct ==> x.distinct.Some?) && (fn.Percentile? ==> x.digest.Some?)
            && IsAnswer(s.measureTypes[i], MeasureColumn(s, theirs, i), fn, s.tools,
                        OutputOf(x, m[key].count, fn, s.tools))
  {
    hide RowsWithKey, IsMeasureOf, MeasureColumn, Shape.WantsOf, OutputOf, IsAnswer;
    assert Accounts(s, m, rows, key);
    var theirs := RowsWithKey(s, rows, key);
    GroupOfFits(s, m[key], theirs);
    assert HasColumn(s, m[key].measures[i], theirs, i);
    IsWanted(s, i, fn);
    ColumnSize(s, theirs, i);
    MeasureOutput(m[key].measures[i], s.measureTypes[i], s.WantsOf(i), MeasureColumn(s, theirs, i), s.tools,
                  m[key].count, fn);
  }

  lemma IsWanted(s: Shape, i: nat, fn: AggFunc)
    requires s.Valid() && i < |s.spec.measures| && fn in s.spec.measures[i].funcs
    ensures fn == Distinct ==> s.WantsOf(i).distinct
    ensures fn.Percentile? ==> s.WantsOf(i).percentile
  {
  }

  lemma MeasureOutput(m: Measure, typ: ColumnType, wants: Wants, column: seq<Value>, tools: Tools, count: int64,
                      fn: AggFunc)
    requires IsMeasureOf(m, typ, wants, column, tools) && column != [] && count == Wrap(|column|)
    requires (fn == Distinct ==> wants.distinct) && (fn.Percentile? ==> wants.percentile)
    ensures (fn == Distinct ==> m.distinct.Some?) && (fn.Percentile? ==> m.digest.Some?)
    ensures IsAnswer(typ, column, fn, tools, OutputOf(m, count, fn, tools))
  {
    hide IsIntMin, IsIntMax, IsFloatMin, IsFloatMax, SumInts, IsSumOf, FloatsOf, HLL.Sketch, HLL.IsMaxRho, Wrap,
         D.Describes, AreNumbersOf, Samples, Hashes, Divide, FromInt, IsPercentileAnswer, PercentileOf;
    MeasureNumbers(m, typ, wants, column, tools);
    if fn == Distinct {
      forall j | 0 <= j < HLL.REGISTERS
        ensures HLL.IsMaxRho(Hashes(column, tools.hash), j, m.distinct.value[j])
      {
        HLL.SketchMeaning(Hashes(column, tools.hash), j);
      }
    }
    if fn.Percentile? {
      PercentileAnswer(tools.digester, m.digest.value, Samples(typ, column), fn.q);
    }
  }

  lemma ColumnSize(s: Shape, rows: seq<Row>, i: nat)
    requires s.Valid() && RowsFit(s, rows) && i < |s.measureTypes|
    ensures |MeasureColumn(s, rows, i)| == |rows|
  {
  }

  /** A percentile between 0 and 100, and what it is as a float. */
  predicate IsPercentile(q: uint64) { IsFinite(q) && 0 <= Units(q) <= 100 * UnitsPerOne() }

  lemma HundredConverts()
    ensures var h := FromInt(100); IsFinite(h) && !SignBit(h) && Magnitude(Payload(h)) == 100 * UnitsPerOne()
  {
    hide Magnitude, Round, Pow2;
    var p := GridPattern(100, EXPONENT_OF_ONE);
    RoundIsExact(p, 1);
    SignedMeaning(false, p);
  }

  /** The magnitude of a hundredth. */
  function Hundredth(m: nat): nat
    requires UnitsPerOne() > 0
  {
    Round(m * UnitsPerOne(), 100 * UnitsPerOne())
  }

  lemma HundredthsRise(m: nat, n: nat)
    requires m <= n <= 100 * UnitsPerOne()
    ensures UnitsPerOne() > 0 && Hundredth(m) <= Hundredth(n) < POS_INF
    ensures 0 <= Magnitude(Hundredth(m)) <= Magnitude(Hundredth(n)) <= UnitsPerOne()
  {
    hide Magnitude, Round, Pow2;
    var u := UnitsPerOne();
    var one := GridPattern(1, EXPONENT_OF_ONE);
    RoundIsExact(one, 100 * u);
    Multiples(m, n, u);
    Multiples(n, 100 * u, u);
    RoundMonotone(m * u, n * u, 100 * u);
    RoundMonotone(n * u, 100 * u * u, 100 * u);
    assert 100 * u * u == u * (100 * u);
    MagnitudesRise(Hundredth(m), Hundredth(n));
    MagnitudesRise(Hundredth(n), one);
  }

  lemma MagnitudesRise(p: nat, q: nat)
    requires p <= q
    ensures Magnitude(p) <= Magnitude(q)
  {
    hide Magnitude;
    if p < q {
      MagnitudeMonotone(p, q);
    }
  }

  lemma QuantileParts(q: uint64)
    requires IsPercentile(q)
    ensures UnitsPerOne() > 0
    ensures QuantileFor(q) == Number(RealOf(Magnitude(Hundredth(Magnitude(Payload(q))))))
  {
    hide Magnitude, Round, Pow2, UnitsPerOne, FromInt, RealOf;
    var m := Magnitude(Payload(q));
    HundredConverts();
    ZeroMagnitude(Payload(q));
    ZeroMagnitude(Payload(FromInt(100)));
    ZeroMagnitude(0);
    HundredthsRise(m, m);
    SignedMeaning(SignBit(q), Hundredth(m));
    if SignBit(q) {
      RoundIsExact(0, 100 * UnitsPerOne());
    }
  }

  /** Percentiles between 0 and 100 become quantiles between 0 and 1, in the same order. */
  lemma QuantilesRise(p: uint64, q: uint64)
    requires IsPercentile(p) && IsPercentile(q) && Units(p) <= Units(q)
    ensures QuantileFor(p).Number? && QuantileFor(q).Number?
    ensures 0.0 <= QuantileFor(p).v <= QuantileFor(q).v <= 1.0
  {
    hide Magnitude, Round, Pow2, UnitsPerOne, QuantileFor, Hundredth;
    QuantileParts(p);
    QuantileParts(q);
    ZeroMagnitude(Payload(p));
    HundredthsRise(Magnitude(Payload(p)), Magnitude(Payload(q)));
    RealsRise(Magnitude(Hundredth(Magnitude(Payload(p)))), Magnitude(Hundredth(Magnitude(Payload(q)))));
  }

  lemma HundredthIsFinite(p: nat)
    requires p < POS_INF
    ensures UnitsPerOne() > 0 && Hundredth(Magnitude(p)) < POS_INF
  {
    hide Magnitude, Round, UnitsPerOne;
    var m, d := Magnitude(p), 100 * UnitsPerOne();
    RoundIsExact(p, d);
    Multiples(UnitsPerOne(), d, m);
    assert UnitsPerOne() * m == m * UnitsPerOne() && d * m == m * d;
    RoundMonotone(m * UnitsPerOne(), m * d, d);
  }

  /** A rounded hundredth is nearest among all magnitudes. */
  lemma HundredthIsNearest(m: nat, p: nat)
    ensures UnitsPerOne() > 0
    ensures Distance(100 * Magnitude(Hundredth(m)), m) <= Distance(100 * Magnitude(p), m)
  {
    hide Magnitude, Round, UnitsPerOne;
    var u := UnitsPerOne();
    RoundIsNearest(m * u, 100 * u, p);
    OffInUnits(Magnitude(Hundredth(m)), m, u);
    OffInUnits(Magnitude(p), m, u);
    var a, b := Distance(100 * Magnitude(Hundredth(m)), m), Distance(100 * Magnitude(p), m);
    if b < a {
      Gap(b, a, u);
    }
  }

  lemma OffInUnits(a: nat, m: nat, u: nat)
    ensures Distance(a * (100 * u), m * u) == Distance(100 * a, m) * u
  {
    assert a * (100 * u) == (100 * a) * u;
    if 100 * a < m {
      assert m * u - (100 * a) * u == (m - 100 * a) * u;
    } else {
      assert (100 * a) * u - m * u == (100 * a - m) * u;
    }
  }

  /** A finite percentile becomes the number nearest to a hundredth of it. */
  lemma QuantileForIsNearest(q: uint64, z: uint64)
    requires IsFinite(z)
    ensures IsNaN(q) ==> QuantileFor(q).NaN?
    ensures IsInfinite(q) ==> QuantileFor(q).Infinite?
    ensures IsFinite(q) ==>
      var r := Divide(q, FromInt(100));
      && IsFinite(r) && QuantileFor(q) == Number(RealOf(Units(r)))
      && Distance(100 * Units(r), Units(q)) <= Distance(100 * Units(z), Units(q))
  {
    hide Magnitude, Round, UnitsPerOne, FromInt, RealOf;
    HundredConverts();
    ZeroMagnitude(Payload(FromInt(100)));
    ZeroMagnitude(0);
    if IsFinite(q) {
      var m := Magnitude(Payload(q));
      HundredthIsFinite(Payload(q));
      HundredthIsNearest(m, Payload(z));
      SignedMeaning(SignBit(q), Hundredth(m));
    }
  }

  lemma RealsRise(a: nat, b: nat)
    requires a <= b <= UnitsPerOne()
    ensures 0.0 <= RealOf(a) <= RealOf(b) <= 1.0
  {
    hide UnitsPerOne;
    QuotientsRise(a as real, b as real, UnitsPerOne() as real);
  }

  lemma QuotientsRise(a: real, b: real, u: real)
    requires 0.0 <= a <= b <= u && u > 0.0
    ensures 0.0 <= a / u <= b / u <= 1.0
  {
    FactorsRise(a, b, u, a / u, b / u);
  }

  lemma FactorsRise(a: real, b: real, u: real, x: real, y: real)
    requires 0.0 <= a <= b <= u && u > 0.0 && a == x * u && b == y * u
    ensures 0.0 <= x <= y <= 1.0
  {
    Cancelled(x, y, u);
    Cancelled(y, 1.0, u);
    Cancelled(0.0, x, u);
  }

  lemma Cancelled(x: real, y: real, u: real)
    requires u > 0.0 && x * u <= y * u
    ensures x <= y
  {
    assert (y - x) * u >= 0.0;
  }

  /** A reported percentile between 0 and 100 lies between the least and the greatest number of
      the group's column, and rises with the percentile asked for; of no numbers it is NaN. */
  lemma PercentileMeaning(s: Shape, m: GroupMap, rows: seq<Row>, key: Key, i: nat, p: uint64, q: uint64)
    requires s.Valid() && Represents(s, m, rows) && key in m && i < |s.measureTypes| && s.WantsOf(i).percentile
    requires Infinite !in Offered(s, rows, key, i)
    requires IsPercentile(p) && IsPercentile(q) && Units(p) <= Units(q)
    ensures |m[key].measures| == |s.measureTypes| && m[key].measures[i].digest.Some?
    ensures var d, vs := m[key].measures[i].digest.value, D.NumbersIn(Offered(s, rows, key, i));
            var x, y := PercentileOf(s.tools.digester, d, p), PercentileOf(s.tools.digester, d, q);
            && x.Estimated? && y.Estimated?
            && (vs == [] ==> x.estimate.NaN? && y.estimate.NaN?)
            && (vs != [] ==>
                  && x.estimate.Number? && y.estimate.Number? && D.IsMin(vs, d.min) && D.IsMax(vs, d.max)
                  && d.min <= x.estimate.v <= y.estimate.v <= d.max)
  {
    hide Represents, Offered, D.Summarises, D.Estimate, D.NumbersIn, D.IsMin, D.IsMax, QuantileFor, IsPercentile;
    QuantilesRise(p, q);
    RepresentedFits(s, m, rows);
    PercentilesMeaning(s, m, rows, key, i, QuantileFor(p).v, QuantileFor(q).v);
    var d, vs := m[key].measures[i].digest.value, D.NumbersIn(Offered(s, rows, key, i));
    D.SummarisesBounded(d, vs);
  }
}
