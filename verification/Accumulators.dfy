/** Per-measure accumulators, and the algebra that lets partial aggregates be merged. */
module Accumulators {
  import opened Sequences
  import opened Words
  import opened Floats
  import opened Rounding
  import opened Averages
  import opened Summations
  import opened Values
  import Digests
  import HLL = HyperLogLogs
  import Quantiles

  // ---------- sums and extremes ----------

  datatype Numbers = Numbers(
    sumI64: int64, minI64: int64, maxI64: int64,
    sumF64: uint64, minF64: uint64, maxF64: uint64,
    haveMinMax: bool)

  const NO_NUMBERS: Numbers := Numbers(0, 0, 0, 0, 0, 0, false)

  function AddNumber(typ: ColumnType, m: Numbers, v: Value): Numbers {
    match typ
    case TypeInt64 =>
      var n := m.(sumI64 := AddI64(m.sumI64, v.Int()));
      if !m.haveMinMax then n.(minI64 := v.Int(), maxI64 := v.Int(), haveMinMax := true)
      else n.(minI64 := if v.Int() < m.minI64 then v.Int() else m.minI64,
              maxI64 := if v.Int() > m.maxI64 then v.Int() else m.maxI64)
    case TypeFloat64 =>
      var n := m.(sumF64 := Plus(m.sumF64, v.Float()));
      if !m.haveMinMax then n.(minF64 := v.Float(), maxF64 := v.Float(), haveMinMax := true)
      else n.(minF64 := MathMin(m.minF64, v.Float()), maxF64 := MathMax(m.maxF64, v.Float()))
    case TypeString => m
  }

  function MergeNumbers(typ: ColumnType, a: Numbers, b: Numbers): Numbers {
    var out := NO_NUMBERS.(
      sumI64 := if typ == TypeInt64 then AddI64(a.sumI64, b.sumI64) else 0,
      sumF64 := if typ == TypeFloat64 then Plus(a.sumF64, b.sumF64) else 0,
      haveMinMax := a.haveMinMax || b.haveMinMax);
    if a.haveMinMax && b.haveMinMax then
      match typ
      case TypeInt64 =>
        out.(minI64 := if b.minI64 < a.minI64 then b.minI64 else a.minI64,
             maxI64 := if b.maxI64 > a.maxI64 then b.maxI64 else a.maxI64)
      case TypeFloat64 =>
        out.(minF64 := MathMin(a.minF64, b.minF64), maxF64 := MathMax(a.maxF64, b.maxF64))
      case TypeString => out
    else if a.haveMinMax then
      out.(minI64 := a.minI64, maxI64 := a.maxI64, minF64 := a.minF64, maxF64 := a.maxF64)
    else if b.haveMinMax then
      out.(minI64 := b.minI64, maxI64 := b.maxI64, minF64 := b.minF64, maxF64 := b.maxF64)
    else out
  }

  /** The fields a column of this type never touches still hold their initial values. */
  predicate Clean(typ: ColumnType, m: Numbers) {
    && (typ != TypeInt64 || !m.haveMinMax ==> m.minI64 == m.maxI64 == 0)
    && (typ != TypeFloat64 || !m.haveMinMax ==> m.minF64 == m.maxF64 == 0)
    && (typ != TypeInt64 ==> m.sumI64 == 0)
    && (typ != TypeFloat64 ==> m.sumF64 == 0)
    && (typ == TypeString ==> !m.haveMinMax)
  }

  /** The numbers but for a float sum, which alone depends on the order of additions. */
  function Unsummed(m: Numbers): Numbers { m.(sumF64 := 0) }

  lemma MergeWithNoNumbers(typ: ColumnType, m: Numbers)
    requires Clean(typ, m)
    ensures Unsummed(MergeNumbers(typ, m, NO_NUMBERS)) == Unsummed(m)
  {
    hide MathMin, MathMax, Plus, AddI64;
    AddI64Laws(m.sumI64, 0, 0);
  }

  lemma MergeThenAddNumber(typ: ColumnType, a: Numbers, b: Numbers, v: Value)
    requires Clean(typ, a) && Clean(typ, b)
    ensures Unsummed(MergeNumbers(typ, a, AddNumber(typ, b, v))) == Unsummed(AddNumber(typ, MergeNumbers(typ, a, b), v))
    ensures Clean(typ, AddNumber(typ, b, v)) && Clean(typ, MergeNumbers(typ, a, b))
  {
    hide MathMin, MathMax, Plus, AddI64;
    AddI64Laws(a.sumI64, b.sumI64, v.Int());
    MinIsOrderIndependent(a.minF64, b.minF64, v.Float());
    MaxIsOrderIndependent(a.maxF64, b.maxF64, v.Float());
  }

  lemma AddNumberCommutes(typ: ColumnType, m: Numbers, v: Value, w: Value)
    ensures Unsummed(AddNumber(typ, AddNumber(typ, m, v), w)) == Unsummed(AddNumber(typ, AddNumber(typ, m, w), v))
  {
    hide MathMin, MathMax, Plus, AddI64;
    AddI64Laws(m.sumI64, v.Int(), w.Int());
    MinIsOrderIndependent(m.minF64, v.Float(), w.Float());
    MaxIsOrderIndependent(m.maxF64, v.Float(), w.Float());
    MinIsOrderIndependent(v.Float(), w.Float(), w.Float());
    MaxIsOrderIndependent(v.Float(), w.Float(), w.Float());
  }

  /** Float sums feed into nothing but float sums. */
  lemma SumsStayApart(typ: ColumnType, a: Numbers, a': Numbers, b: Numbers, b': Numbers, v: Value)
    requires Unsummed(a) == Unsummed(a') && Unsummed(b) == Unsummed(b')
    ensures Unsummed(AddNumber(typ, a, v)) == Unsummed(AddNumber(typ, a', v))
    ensures Unsummed(MergeNumbers(typ, a, b)) == Unsummed(MergeNumbers(typ, a', b'))
  {
    hide MathMin, MathMax, Plus, AddI64;
  }

  // ---------- what the numbers mean ----------

  function AccumulateNumbers(typ: ColumnType, vs: seq<Value>): Numbers {
    if vs == [] then NO_NUMBERS
    else AddNumber(typ, AccumulateNumbers(typ, vs[..|vs| - 1]), vs[|vs| - 1])
  }

  lemma {:induction false} AccumulatedIsClean(typ: ColumnType, vs: seq<Value>)
    ensures Clean(typ, AccumulateNumbers(typ, vs))
  {
    if vs != [] {
      var m := AccumulateNumbers(typ, vs[..|vs| - 1]);
      AccumulatedIsClean(typ, vs[..|vs| - 1]);
      MergeThenAddNumber(typ, m, m, vs[|vs| - 1]);
    }
  }

  /** Merging the numbers of two columns gives those of their concatenation. */
  lemma {:induction false} AccumulateNumbersConcat(typ: ColumnType, a: seq<Value>, b: seq<Value>)
    ensures Unsummed(AccumulateNumbers(typ, a + b))
         == Unsummed(MergeNumbers(typ, AccumulateNumbers(typ, a), AccumulateNumbers(typ, b)))
  {
    hide AddNumber, MergeNumbers, Unsummed;
    AccumulatedIsClean(typ, a);
    if b == [] {
      assert a + b == a;
      MergeWithNoNumbers(typ, AccumulateNumbers(typ, a));
    } else {
      var front, last := b[..|b| - 1], b[|b| - 1];
      var x, y := AccumulateNumbers(typ, a), AccumulateNumbers(typ, front);
      AccumulateNumbersConcat(typ, a, front);
      AccumulatedIsClean(typ, front);
      MergeThenAddNumber(typ, x, y, last);
      SumsStayApart(typ, AccumulateNumbers(typ, a + front), MergeNumbers(typ, x, y), x, x, last);
      assert (a + b)[..|a + b| - 1] == a + front;
    }
  }

  /** A value may as well have come last. */
  lemma {:induction false} NumberComesLast(typ: ColumnType, before: seq<Value>, v: Value, after: seq<Value>)
    ensures Unsummed(AccumulateNumbers(typ, before + [v] + after))
         == Unsummed(AddNumber(typ, AccumulateNumbers(typ, before + after), v))
  {
    hide AddNumber, Unsummed;
    var all := before + [v] + after;
    if after == [] {
      assert all[..|all| - 1] == before && before + after == before;
    } else {
      var front, last := after[..|after| - 1], after[|after| - 1];
      var x := AccumulateNumbers(typ, before + front);
      NumberComesLast(typ, before, v, front);
      AddNumberCommutes(typ, x, v, last);
      SumsStayApart(typ, AccumulateNumbers(typ, before + [v] + front), AddNumber(typ, x, v), x, x, last);
      assert all[..|all| - 1] == before + [v] + front;
      assert (before + after)[..|before + after| - 1] == before + front;
    }
  }

  lemma {:induction false} AccumulateNumbersAnyOrder(typ: ColumnType, vs: seq<Value>, ws: seq<Value>)
    requires multiset(vs) == multiset(ws)
    ensures Unsummed(AccumulateNumbers(typ, vs)) == Unsummed(AccumulateNumbers(typ, ws))
  {
    hide AddNumber, Unsummed;
    if vs == [] {
      assert |multiset(ws)| == 0;
    } else {
      var front, last := vs[..|vs| - 1], vs[|vs| - 1];
      SplitLast(vs);
      var before, after := TakeOut(last, multiset(front), ws);
      AccumulateNumbersAnyOrder(typ, front, before + after);
      NumberComesLast(typ, before, last, after);
      var x := AccumulateNumbers(typ, front);
      SumsStayApart(typ, x, AccumulateNumbers(typ, before + after), x, x, last);
    }
  }

  function SumInts(vs: seq<Value>): int {
    if vs == [] then 0 else SumInts(vs[..|vs| - 1]) + vs[|vs| - 1].Int()
  }

  function FloatsOf(vs: seq<Value>): (xs: seq<uint64>)
    ensures |xs| == |vs|
  {
    seq(|vs|, i requires 0 <= i < |vs| => vs[i].Float())
  }

  ghost predicate IsIntMin(vs: seq<Value>, m: int64) {
    (exists v :: v in vs && v.Int() == m) && forall v :: v in vs ==> m <= v.Int()
  }

  ghost predicate IsIntMax(vs: seq<Value>, m: int64) {
    (exists v :: v in vs && v.Int() == m) && forall v :: v in vs ==> v.Int() <= m
  }

  ghost predicate IsFloatMin(vs: seq<Value>, m: uint64) {
    if exists v :: v in vs && v.Float() == NEG_INF then m == NEG_INF
    else if |vs| == 1 then m == vs[0].Float()
    else if exists v :: v in vs && IsNaN(v.Float()) then m == CANONICAL_NAN
    else (exists v :: v in vs && v.Float() == m) && forall v :: v in vs ==> Order(m) <= Order(v.Float())
  }

  ghost predicate IsFloatMax(vs: seq<Value>, m: uint64) {
    if exists v :: v in vs && v.Float() == POS_INF then m == POS_INF
    else if |vs| == 1 then m == vs[0].Float()
    else if exists v :: v in vs && IsNaN(v.Float()) then m == CANONICAL_NAN
    else (exists v :: v in vs && v.Float() == m) && forall v :: v in vs ==> Order(v.Float()) <= Order(m)
  }

  /** The sum of a column (modulo 2^64 for integers, in some order of additions for floats) and its
      least and greatest value. */
  ghost predicate Summarises(typ: ColumnType, m: Numbers, vs: seq<Value>) {
    && m.haveMinMax == (vs != [] && typ != TypeString)
    && (typ == TypeInt64 ==> m.sumI64 == Wrap(SumInts(vs)))
    && (typ == TypeFloat64 ==> IsSumOf(m.sumF64, FloatsOf(vs)))
    && (m.haveMinMax && typ == TypeInt64 ==> IsIntMin(vs, m.minI64) && IsIntMax(vs, m.maxI64))
    && (m.haveMinMax && typ == TypeFloat64 ==> IsFloatMin(vs, m.minF64) && IsFloatMax(vs, m.maxF64))
  }

  lemma {:induction false} NumbersMeaning(typ: ColumnType, vs: seq<Value>)
    ensures Clean(typ, AccumulateNumbers(typ, vs))
    ensures Summarises(typ, AccumulateNumbers(typ, vs), vs)
  {
    if vs == [] {
      SumOfNothing();
      assert FloatsOf(vs) == [];
    } else {
      var front, last := vs[..|vs| - 1], vs[|vs| - 1];
      NumbersMeaning(typ, front);
      assert vs == front + [last];
      SummaryExtends(typ, AccumulateNumbers(typ, front), front, last);
    }
  }

  lemma SumsExtend(front: seq<Value>, last: Value)
    ensures SumInts(front + [last]) == SumInts(front) + last.Int()
    ensures FloatsOf(front + [last]) == FloatsOf(front) + [last.Float()]
  {
    var vs := front + [last];
    assert vs[..|vs| - 1] == front;
  }

  lemma SummaryExtends(typ: ColumnType, m: Numbers, front: seq<Value>, last: Value)
    requires Clean(typ, m) && Summarises(typ, m, front)
    ensures Clean(typ, AddNumber(typ, m, last))
    ensures Summarises(typ, AddNumber(typ, m, last), front + [last])
  {
    hide MathMin, MathMax, Plus, AddI64, Wrap, IsIntMin, IsIntMax, IsFloatMin, IsFloatMax, SumInts, IsSumOf, FloatsOf;
    SumsExtend(front, last);
    if typ == TypeInt64 {
      WrapAbsorbs(SumInts(front), last.Int());
      IntExtremesExtend(front, last, m.minI64, m.maxI64);
    } else if typ == TypeFloat64 {
      SumPlusOne(m.sumF64, FloatsOf(front), last.Float());
      FloatMinExtends(front, last, m.minF64);
      FloatMaxExtends(front, last, m.maxF64);
    }
  }

  lemma MembersExtend(front: seq<Value>, last: Value)
    ensures last in front + [last]
    ensures forall v :: v in front ==> v in front + [last]
    ensures forall v :: v in front + [last] ==> v in front || v == last
    ensures front != [] ==> front[0] in front
  {
  }

  lemma IntExtremesExtend(front: seq<Value>, last: Value, lo: int64, hi: int64)
    requires front != [] ==> IsIntMin(front, lo) && IsIntMax(front, hi)
    ensures IsIntMin(front + [last], if front == [] || last.Int() < lo then last.Int() else lo)
    ensures IsIntMax(front + [last], if front == [] || last.Int() > hi then last.Int() else hi)
  {
    MembersExtend(front, last);
  }

  lemma FloatMinExtends(front: seq<Value>, last: Value, m: uint64)
    requires front != [] ==> IsFloatMin(front, m)
    ensures IsFloatMin(front + [last], if front == [] then last.Float() else MathMin(m, last.Float()))
  {
    MembersExtend(front, last);
    if front != [] {
      assert |front| == 1 ==> forall v :: v in front ==> v == front[0];
      if !IsNaN(m) && !IsNaN(last.Float()) && m != NEG_INF && last.Float() != NEG_INF {
        MinByOrder(m, last.Float());
      }
    }
  }

  lemma FloatMaxExtends(front: seq<Value>, last: Value, m: uint64)
    requires front != [] ==> IsFloatMax(front, m)
    ensures IsFloatMax(front + [last], if front == [] then last.Float() else MathMax(m, last.Float()))
  {
    MembersExtend(front, last);
    if front != [] {
      assert |front| == 1 ==> forall v :: v in front ==> v == front[0];
      if !IsNaN(m) && !IsNaN(last.Float()) && m != POS_INF && last.Float() != POS_INF {
        MaxByOrder(m, last.Float());
      }
    }
  }

  // ---------- values as samples ----------

  function RealOf(units: int): real { units as real / UnitsPerOne() as real }

  /** What a float is to a digest; the infinities are not told apart. */
  function FloatSample(x: Extended): Quantiles.Sample {
    match x
    case Finite(units) => Quantiles.Number(RealOf(units))
    case NotANumber => Quantiles.NaN
    case _ => Quantiles.Infinite
  }

  function SampleOf(typ: ColumnType, v: Value): Quantiles.Sample {
    FloatSample(Decode(if typ == TypeInt64 then FromInt(v.Int()) else v.Float()))
  }

  /** Reals that count units are quotients. */
  lemma RealOfMeaning(units: int, r: real)
    ensures RealOf(units) == r <==> r * UnitsPerOne() as real == units as real
  {
    hide UnitsPerOne;
    QuotientMeaning(units as real, UnitsPerOne() as real, r);
  }

  lemma QuotientMeaning(a: real, u: real, r: real)
    requires u > 0.0
    ensures a / u == r <==> r * u == a
  {
    var x := a / u;
    assert x * u == a;
    assert (x - r) * u == x * u - r * u;
  }

  lemma ProductOfReals(i: int, u: int)
    ensures (i * u) as real == i as real * u as real
  {
  }

  /** What a digest is offered: of a column of floats their exact values, and of integers the nearest
      floats, which are the integers themselves up to 53 bits. */
  lemma SampleMeaning(v: Value)
    ensures v.F64? && IsFinite(v.bits) ==>
      var x := SampleOf(TypeFloat64, v); x.Number? && x.v * UnitsPerOne() as real == Units(v.bits) as real
    ensures v.F64? && IsNaN(v.bits) ==> SampleOf(TypeFloat64, v).NaN?
    ensures v == F64(POS_INF) || v == F64(NEG_INF) ==> SampleOf(TypeFloat64, v).Infinite?
    ensures v.I64? ==>
      && IsFinite(FromInt(v.i))
      && SampleOf(TypeInt64, v) == Quantiles.Number(RealOf(Units(FromInt(v.i))))
      && (-TWO_TO_THE_53 <= v.i <= TWO_TO_THE_53 ==> SampleOf(TypeInt64, v) == Quantiles.Number(v.i as real))
  {
    hide UnitsPerOne, Magnitude, Round, RealOf, FromInt;
    if v.F64? {
      RealOfMeaning(Units(v.bits), RealOf(Units(v.bits)));
    }
    if v.I64? {
      IntIsFinite(v.i);
      if -TWO_TO_THE_53 <= v.i <= TWO_TO_THE_53 {
        FromIntIsExact(v.i);
        ProductOfReals(v.i, UnitsPerOne());
        RealOfMeaning(v.i * UnitsPerOne(), v.i as real);
      }
    }
  }

  function Samples(typ: ColumnType, vs: seq<Value>): (xs: seq<Quantiles.Sample>)
    ensures |xs| == |vs| && forall i :: 0 <= i < |vs| ==> xs[i] == SampleOf(typ, vs[i])
  {
    seq(|vs|, i requires 0 <= i < |vs| => SampleOf(typ, vs[i]))
  }

  // ---------- one measure ----------

  /** Numbers, an optional distinct-count sketch, and an optional digest. */
  datatype Measure = Measure(
    typ: ColumnType,
    numbers: Numbers,
    distinct: Option<HLL.Registers>,
    digest: Option<Digests.Digest>)

  function NewMeasure(typ: ColumnType, wants: Wants): Measure {
    Measure(typ, NO_NUMBERS,
            if wants.distinct then Some(HLL.EMPTY) else None,
            if wants.percentile then Some(Digests.EMPTY_DIGEST) else None)
  }

  function AddValue(m: Measure, v: Value, tools: Tools): Measure {
    Measure(m.typ, AddNumber(m.typ, m.numbers, v),
            if m.distinct.Some? then Some(HLL.AddHash(m.distinct.value, tools.hash(v))) else None,
            if m.digest.Some? then Some(Digests.Added(tools.digester, m.digest.value, SampleOf(m.typ, v))) else None)
  }

  function MergeMeasures(a: Measure, b: Measure, tools: Tools): Measure
    requires a.distinct.Some? ==> b.distinct.Some?
    requires a.digest.Some? ==> b.digest.Some?
  {
    Measure(a.typ, MergeNumbers(a.typ, a.numbers, b.numbers),
            if a.distinct.Some? then Some(HLL.Union(a.distinct.value, b.distinct.value)) else None,
            if a.digest.Some? then Some(Digests.Merged(tools.digester, a.digest.value, b.digest.value)) else None)
  }

  predicate CleanMeasure(m: Measure) { Clean(m.typ, m.numbers) }

  /** The measure is of this type and has the optional structures wanted. */
  predicate IsKind(m: Measure, typ: ColumnType, wants: Wants) {
    m.typ == typ && m.distinct.Some? == wants.distinct && m.digest.Some? == wants.percentile
  }

  predicate SameKind(a: Measure, b: Measure) {
    a.typ == b.typ && a.distinct.Some? == b.distinct.Some? && a.digest.Some? == b.digest.Some?
  }

  /** Equal but for what depends on the order of events: the state of a digest, and the rounding of
      a float sum. */
  predicate SameUpToOrder(a: Measure, b: Measure) {
    SameKind(a, b) && Unsummed(a.numbers) == Unsummed(b.numbers) && a.distinct == b.distinct
  }

  /** Adding a value to the right-hand side of a merge adds it to the merge. */
  lemma MergeThenAdd(a: Measure, b: Measure, v: Value, tools: Tools)
    requires CleanMeasure(a) && CleanMeasure(b) && SameKind(a, b)
    ensures SameUpToOrder(MergeMeasures(a, AddValue(b, v, tools), tools),
                          AddValue(MergeMeasures(a, b, tools), v, tools))
    ensures CleanMeasure(AddValue(b, v, tools)) && CleanMeasure(MergeMeasures(a, b, tools))
  {
    hide AddNumber, MergeNumbers, Unsummed, HLL.Union, HLL.AddHash, Digests.Added, Digests.Merged;
    MergeThenAddNumber(a.typ, a.numbers, b.numbers, v);
    if a.distinct.Some? {
      HLL.UnionAddHash(a.distinct.value, b.distinct.value, tools.hash(v));
    }
  }

  lemma AddValueCommutes(m: Measure, v: Value, w: Value, tools: Tools)
    ensures SameUpToOrder(AddValue(AddValue(m, v, tools), w, tools), AddValue(AddValue(m, w, tools), v, tools))
  {
    hide AddNumber, Unsummed, HLL.AddHash, Digests.Added;
    AddNumberCommutes(m.typ, m.numbers, v, w);
    if m.distinct.Some? {
      HLL.AddHashCommutes(m.distinct.value, tools.hash(v), tools.hash(w));
    }
  }

  // ---------- what a measure means ----------

  function Hashes(vs: seq<Value>, hash: Value -> uint64): seq<uint64> {
    seq(|vs|, i requires 0 <= i < |vs| => hash(vs[i]))
  }

  /** Some summary of these values: everything but a float sum is determined, and that is the sum in
      some order of additions. */
  ghost predicate AreNumbersOf(n: Numbers, typ: ColumnType, vs: seq<Value>) {
    && Unsummed(n) == Unsummed(AccumulateNumbers(typ, vs))
    && if typ == TypeFloat64 then IsSumOf(n.sumF64, FloatsOf(vs)) else n.sumF64 == 0
  }

  lemma AddedNumbers(n: Numbers, typ: ColumnType, vs: seq<Value>, v: Value)
    requires AreNumbersOf(n, typ, vs)
    ensures AreNumbersOf(AddNumber(typ, n, v), typ, vs + [v])
  {
    hide IsSumOf, Plus, MathMin, MathMax, AddI64, FloatsOf;
    var all := vs + [v];
    assert all[..|all| - 1] == vs;
    SumsStayApart(typ, n, AccumulateNumbers(typ, vs), n, n, v);
    SumsExtend(vs, v);
    if typ == TypeFloat64 {
      SumPlusOne(n.sumF64, FloatsOf(vs), v.Float());
    }
  }

  lemma MergedNumbers(a: Numbers, b: Numbers, typ: ColumnType, vs: seq<Value>, ws: seq<Value>)
    requires AreNumbersOf(a, typ, vs) && AreNumbersOf(b, typ, ws)
    ensures AreNumbersOf(MergeNumbers(typ, a, b), typ, vs + ws)
  {
    hide IsSumOf, Plus, MathMin, MathMax, AddI64, AccumulateNumbers, FloatsOf;
    AccumulateNumbersConcat(typ, vs, ws);
    SumsStayApart(typ, a, AccumulateNumbers(typ, vs), b, AccumulateNumbers(typ, ws), I64(0));
    FloatsOfBoth(vs, ws);
    if typ == TypeFloat64 {
      SumOfBoth(a.sumF64, b.sumF64, FloatsOf(vs), FloatsOf(ws));
    }
  }

  lemma FloatsOfBoth(vs: seq<Value>, ws: seq<Value>)
    ensures FloatsOf(vs + ws) == FloatsOf(vs) + FloatsOf(ws)
  {
  }

  lemma NumbersAnyOrder(n: Numbers, typ: ColumnType, vs: seq<Value>, ws: seq<Value>)
    requires AreNumbersOf(n, typ, vs) && multiset(vs) == multiset(ws)
    ensures AreNumbersOf(n, typ, ws)
  {
    hide IsSumOf, AccumulateNumbers;
    AccumulateNumbersAnyOrder(typ, vs, ws);
    if typ == TypeFloat64 {
      MappedAnyOrder(vs, ws, (v: Value) => v.Float(), FloatsOf(vs), FloatsOf(ws));
      SumInAnyOrder(n.sumF64, FloatsOf(vs), FloatsOf(ws));
    }
  }

  /** Float sums of the column need no rounding. */
  ghost predicate SumsExactly(typ: ColumnType, vs: seq<Value>) {
    typ == TypeFloat64 ==> AddsExactly(FloatsOf(vs))
  }

  /** Merging need not give what feeding every value to one accumulator gives: here the two sums
      differ by a rounding. */
  lemma MergeRoundsDifferently(k: nat) returns (vs: seq<Value>, ws: seq<Value>)
    requires k < 2045
    ensures var a, b := AccumulateNumbers(TypeFloat64, vs), AccumulateNumbers(TypeFloat64, ws);
            MergeNumbers(TypeFloat64, a, b) != AccumulateNumbers(TypeFloat64, vs + ws)
  {
    var big, one, two := FarApart(k);
    hide Plus, MathMin, MathMax;
    vs, ws := [F64(big)], [F64(one), F64(one)];
    var all := vs + ws;
    assert all[..2] == [F64(big), F64(one)] && all[..2][..1] == vs && vs[..0] == [] && ws[..1] == [F64(one)];
    assert ws[..1][..0] == [];
    var n := AddNumber(TypeFloat64, NO_NUMBERS, F64(big));
    assert AccumulateNumbers(TypeFloat64, vs) == n && n.sumF64 == big;
    assert AccumulateNumbers(TypeFloat64, all[..2]).sumF64 == big;
    assert AccumulateNumbers(TypeFloat64, all).sumF64 == big;
    assert AccumulateNumbers(TypeFloat64, ws[..1]).sumF64 == one;
    assert AccumulateNumbers(TypeFloat64, ws).sumF64 == two;
  }

  /** The measure has taken in these values: it holds their numbers, the sketch of their hashes,
      and some digest of them. */
  ghost predicate IsMeasureOf(m: Measure, typ: ColumnType, wants: Wants, vs: seq<Value>, tools: Tools) {
    && IsKind(m, typ, wants)
    && AreNumbersOf(m.numbers, typ, vs)
    && (wants.distinct ==> m.distinct == Some(HLL.Sketch(Hashes(vs, tools.hash))))
    && (wants.percentile ==> Digests.Describes(m.digest.value, Samples(typ, vs)))
  }

  lemma NewMeasureIsEmpty(typ: ColumnType, wants: Wants, tools: Tools)
    ensures IsMeasureOf(NewMeasure(typ, wants), typ, wants, [], tools)
  {
    hide Digests.Describes;
    Digests.EmptyDescribesNothing();
    SumOfNothing();
    assert FloatsOf([]) == [];
    assert Hashes([], tools.hash) == [] && Samples(typ, []) == [];
  }

  lemma AddedToMeasure(m: Measure, typ: ColumnType, wants: Wants, vs: seq<Value>, v: Value, tools: Tools)
    requires IsMeasureOf(m, typ, wants, vs, tools)
    ensures IsMeasureOf(AddValue(m, v, tools), typ, wants, vs + [v], tools)
  {
    hide Digests.Describes, Digests.Added, AddNumber, HLL.AddHash, AreNumbersOf;
    var all := vs + [v];
    AddedNumbers(m.numbers, typ, vs, v);
    assert Hashes(all, tools.hash)[..|vs|] == Hashes(vs, tools.hash);
    assert Samples(typ, all) == Samples(typ, vs) + [SampleOf(typ, v)];
    if wants.percentile {
      Digests.AddedDescribes(tools.digester, m.digest.value, Samples(typ, vs), SampleOf(typ, v));
    }
  }

  lemma MergedMeasure(a: Measure, b: Measure, typ: ColumnType, wants: Wants, vs: seq<Value>, ws: seq<Value>,
                      tools: Tools)
    requires IsMeasureOf(a, typ, wants, vs, tools) && IsMeasureOf(b, typ, wants, ws, tools)
    ensures IsMeasureOf(MergeMeasures(a, b, tools), typ, wants, vs + ws, tools)
  {
    hide Digests.Describes, Digests.Merged, MergeNumbers, HLL.Union, HLL.Sketch, AreNumbersOf;
    MergedNumbers(a.numbers, b.numbers, typ, vs, ws);
    assert Hashes(vs + ws, tools.hash) == Hashes(vs, tools.hash) + Hashes(ws, tools.hash);
    HLL.UnionIsSketchOfBoth(Hashes(vs, tools.hash), Hashes(ws, tools.hash));
    assert Samples(typ, vs + ws) == Samples(typ, vs) + Samples(typ, ws);
    if wants.percentile {
      Digests.MergedDescribes(tools.digester, a.digest.value, b.digest.value, Samples(typ, vs), Samples(typ, ws));
    }
  }

  /** What a measure has taken in has no order. */
  lemma MeasureAnyOrder(m: Measure, typ: ColumnType, wants: Wants, vs: seq<Value>, ws: seq<Value>, tools: Tools)
    requires IsMeasureOf(m, typ, wants, vs, tools) && multiset(vs) == multiset(ws)
    ensures IsMeasureOf(m, typ, wants, ws, tools)
  {
    hide Digests.Describes, HLL.Sketch, AreNumbersOf, SampleOf;
    NumbersAnyOrder(m.numbers, typ, vs, ws);
    SameHashes(vs, ws, tools.hash);
    SameHashes(ws, vs, tools.hash);
    HLL.SketchDependsOnSet(Hashes(vs, tools.hash), Hashes(ws, tools.hash));
    if wants.percentile {
      MappedAnyOrder(vs, ws, v => SampleOf(typ, v), Samples(typ, vs), Samples(typ, ws));
      Digests.DescribesAnyOrder(m.digest.value, Samples(typ, vs), Samples(typ, ws));
    }
  }

  lemma SameHashes(vs: seq<Value>, ws: seq<Value>, hash: Value -> uint64)
    requires multiset(vs) == multiset(ws)
    ensures forall h :: h in Hashes(vs, hash) ==> h in Hashes(ws, hash)
  {
    forall h | h in Hashes(vs, hash)
      ensures h in Hashes(ws, hash)
    {
      var i :| 0 <= i < |vs| && hash(vs[i]) == h;
      assert vs[i] in multiset(ws);
      var j :| 0 <= j < |ws| && ws[j] == vs[i];
      assert Hashes(ws, hash)[j] == h;
    }
  }

  /** What a measure has taken in determines it, all but the state of a digest and the rounding of a
      float sum; where no sum needs rounding, and without a digest, it is determined entirely. */
  lemma MeasureIsDetermined(a: Measure, b: Measure, typ: ColumnType, wants: Wants, vs: seq<Value>, tools: Tools)
    requires IsMeasureOf(a, typ, wants, vs, tools) && IsMeasureOf(b, typ, wants, vs, tools)
    ensures SameUpToOrder(a, b) && (!wants.percentile && SumsExactly(typ, vs) ==> a == b)
  {
    hide AccumulateNumbers, IsSumOf, AddsExactly;
    if typ == TypeFloat64 && SumsExactly(typ, vs) {
      ExactSumsAgree(a.numbers.sumF64, b.numbers.sumF64, FloatsOf(vs));
    }
  }

  function Accumulate(typ: ColumnType, wants: Wants, vs: seq<Value>, tools: Tools): Measure {
    if vs == [] then NewMeasure(typ, wants)
    else AddValue(Accumulate(typ, wants, vs[..|vs| - 1], tools), vs[|vs| - 1], tools)
  }

  /** An accumulator fed a column of values holds their summary, the sketch of their hashes, and
      a digest of exactly the numbers among them. */
  lemma {:induction false} AccumulateMeaning(typ: ColumnType, wants: Wants, vs: seq<Value>, tools: Tools)
    ensures var m := Accumulate(typ, wants, vs, tools);
            && IsMeasureOf(m, typ, wants, vs, tools)
            && CleanMeasure(m) && Summarises(typ, m.numbers, vs)
  {
    hide IsMeasureOf, AddValue, NewMeasure, Clean, Summarises;
    if vs == [] {
      NewMeasureIsEmpty(typ, wants, tools);
    } else {
      var front, last := vs[..|vs| - 1], vs[|vs| - 1];
      AccumulateMeaning(typ, wants, front, tools);
      AddedToMeasure(Accumulate(typ, wants, front, tools), typ, wants, front, last, tools);
      assert front + [last] == vs;
    }
    MeasureNumbers(Accumulate(typ, wants, vs, tools), typ, wants, vs, tools);
  }

  lemma MeasureNumbers(m: Measure, typ: ColumnType, wants: Wants, vs: seq<Value>, tools: Tools)
    requires IsMeasureOf(m, typ, wants, vs, tools)
    ensures m.typ == typ && CleanMeasure(m) && Summarises(typ, m.numbers, vs)
  {
    hide IsSumOf, IsIntMin, IsIntMax, IsFloatMin, IsFloatMax, SumInts, AccumulateNumbers, FloatsOf;
    NumbersMeaning(typ, vs);
  }
}
