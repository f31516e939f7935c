/** Typed field values, rows, columnar batches and the resolved aggregation shape. */
module Values {
  import opened Words
  import opened Floats
  import Digests

  type bytes = seq<byte>

  datatype Option<+T> = None | Some(value: T)

  datatype Result<+T, +E> = Ok(value: T) | Err(error: E)

  datatype ColumnType = TypeString | TypeInt64 | TypeFloat64

  /** One field, tagged by its type. Floats are held by bit pattern. */
  datatype Value = Str(s: bytes) | I64(i: int64) | F64(bits: uint64)
  {
    function Type(): ColumnType {
      match this
      case Str(_) => TypeString
      case I64(_) => TypeInt64
      case F64(_) => TypeFloat64
    }

    /** The numeric fields read as zero when the value is of another type. */
    function Int(): int64 { if I64? then i else 0 }

    function Float(): uint64 { if F64? then bits else 0 }
  }

  type Row = seq<Value>

  type Key = seq<Value>

  // ---------- columns and batches ----------

  /** One column of a batch; only the sequence selected by typ is meaningful. */
  datatype Column = Column(typ: ColumnType, strs: seq<bytes>, i64s: seq<int64>, f64s: seq<uint64>)
  {
    function Length(): nat {
      match typ
      case TypeString => |strs|
      case TypeInt64 => |i64s|
      case TypeFloat64 => |f64s|
    }
  }

  function ReadValue(col: Column, row: nat): (v: Value)
    requires row < col.Length()
    ensures v.Type() == col.typ
  {
    match col.typ
    case TypeString => Str(col.strs[row])
    case TypeInt64 => I64(col.i64s[row])
    case TypeFloat64 => F64(col.f64s[row])
  }

  predicate Aligned(cols: seq<Column>, numRows: nat) {
    forall i :: 0 <= i < |cols| ==> cols[i].Length() == numRows
  }

  /** row is what the columns hold at index r. */
  predicate IsRow(cols: seq<Column>, r: nat, row: Row) {
    |row| == |cols| && forall i :: 0 <= i < |cols| ==> r < cols[i].Length() && row[i] == ReadValue(cols[i], r)
  }

  function RowAt(cols: seq<Column>, numRows: nat, r: nat): (row: Row)
    requires Aligned(cols, numRows) && r < numRows
    ensures IsRow(cols, r, row)
  {
    seq(|cols|, i requires 0 <= i < |cols| => ReadValue(cols[i], r))
  }

  /** The rows a batch of aligned columns stands for. */
  function RowsOf(cols: seq<Column>, numRows: nat): (rows: seq<Row>)
    requires Aligned(cols, numRows)
    ensures |rows| == numRows && forall r :: 0 <= r < numRows ==> IsRow(cols, r, rows[r])
  {
    seq(numRows, r requires 0 <= r < numRows => RowAt(cols, numRows, r))
  }

  // ---------- what is being computed ----------

  datatype AggFunc = Sum | Min | Max | Avg | Distinct | Percentile(q: uint64)

  datatype MeasureSpec = MeasureSpec(column: string, funcs: seq<AggFunc>)

  datatype AggSpec = AggSpec(groupBy: seq<string>, measures: seq<MeasureSpec>)

  datatype Wants = Wants(distinct: bool, percentile: bool)

  predicate WantsDistinct(m: MeasureSpec) { Distinct in m.funcs }

  predicate WantsPercentile(m: MeasureSpec) {
    exists i :: 0 <= i < |m.funcs| && m.funcs[i].Percentile?
  }

  /** Library functions an aggregation calls: the seedless hash that routes values into
      distinct-count sketches, and those a digest needs. */
  datatype Tools = Tools(hash: Value -> uint64, digester: Digests.Digester)

  /** An aggregation spec resolved against a schema: column indexes and types. */
  datatype Shape = Shape(
    spec: AggSpec,
    numColumns: nat,
    groupByIdx: seq<nat>,
    groupByTypes: seq<ColumnType>,
    measureIdx: seq<nat>,
    measureTypes: seq<ColumnType>,
    tools: Tools)
  {
    predicate Valid() {
      && |groupByIdx| == |groupByTypes| == |spec.groupBy|
      && |measureIdx| == |measureTypes| == |spec.measures|
      && (forall i :: 0 <= i < |groupByIdx| ==> groupByIdx[i] < numColumns)
      && (forall i :: 0 <= i < |measureIdx| ==> measureIdx[i] < numColumns)
    }

    function KeyOf(row: Row): (key: Key)
      requires Valid() && |row| == numColumns
    {
      seq(|groupByIdx|, i requires 0 <= i < |groupByIdx| => row[groupByIdx[i]])
    }

    function MeasureValue(row: Row, i: nat): Value
      requires Valid() && |row| == numColumns && i < |measureIdx|
    {
      row[measureIdx[i]]
    }

    /** The optional structures measure i needs. */
    function WantsOf(i: nat): Wants
      requires i < |spec.measures|
    {
      Wants(WantsDistinct(spec.measures[i]), WantsPercentile(spec.measures[i]))
    }
  }

  /** Percentiles have no snapshot form. */
  predicate Distributable(spec: AggSpec) {
    forall i :: 0 <= i < |spec.measures| ==> !WantsPercentile(spec.measures[i])
  }

  lemma DistributableMeaning(spec: AggSpec)
    ensures Distributable(spec) <==>
      forall i, j :: 0 <= i < |spec.measures| && 0 <= j < |spec.measures[i].funcs| ==>
        !spec.measures[i].funcs[j].Percentile?
  {
    forall i | 0 <= i < |spec.measures|
      ensures WantsPercentile(spec.measures[i]) <==>
        exists j :: 0 <= j < |spec.measures[i].funcs| && spec.measures[i].funcs[j].Percentile?
    {
    }
  }

  // ---------- comparing specs before a merge ----------

  /** Equality of functions compares quantiles as floats, so NaN differs from itself
      and the two zeros are the same. */
  predicate SameFunc(a: AggFunc, b: AggFunc) {
    if a.Percentile? && b.Percentile?
    then !IsNaN(a.q) && !IsNaN(b.q) && Rank(a.q) == Rank(b.q)
    else a == b
  }

  predicate SameMeasure(a: MeasureSpec, b: MeasureSpec) {
    && a.column == b.column
    && |a.funcs| == |b.funcs|
    && forall j :: 0 <= j < |a.funcs| ==> SameFunc(a.funcs[j], b.funcs[j])
  }

  predicate SpecsEqual(a: AggSpec, b: AggSpec) {
    && a.groupBy == b.groupBy
    && |a.measures| == |b.measures|
    && forall i :: 0 <= i < |a.measures| ==> SameMeasure(a.measures[i], b.measures[i])
  }

  ghost predicate HasNaN(funcs: seq<AggFunc>) {
    exists j :: 0 <= j < |funcs| && funcs[j].Percentile? && IsNaN(funcs[j].q)
  }

  ghost predicate HasNaNQuantile(a: AggSpec) {
    exists i :: 0 <= i < |a.measures| && HasNaN(a.measures[i].funcs)
  }

  // ---------- what matching specs have in common ----------

  /** The function with the sign of a zero quantile dropped. */
  function Unsigned(f: AggFunc): AggFunc { if f == Percentile(NEG_ZERO) then Percentile(0) else f }

  function UnsignedFuncs(funcs: seq<AggFunc>): (r: seq<AggFunc>)
    ensures |r| == |funcs|
  {
    seq(|funcs|, j requires 0 <= j < |funcs| => Unsigned(funcs[j]))
  }

  /** The spec with the signs of zero quantiles dropped. */
  function UnsignedSpec(a: AggSpec): AggSpec {
    AggSpec(a.groupBy, seq(|a.measures|, i requires 0 <= i < |a.measures| =>
      MeasureSpec(a.measures[i].column, UnsignedFuncs(a.measures[i].funcs))))
  }

  lemma SameFuncMeaning(f: AggFunc, g: AggFunc)
    ensures SameFunc(f, g) <==> Unsigned(f) == Unsigned(g) && !(f.Percentile? && IsNaN(f.q))
  {
  }

  lemma SameMeasureMeaning(x: MeasureSpec, y: MeasureSpec)
    ensures SameMeasure(x, y) <==>
      x.column == y.column && UnsignedFuncs(x.funcs) == UnsignedFuncs(y.funcs) && !HasNaN(x.funcs)
  {
    hide SameFunc, Unsigned;
    if |x.funcs| == |y.funcs| {
      forall j | 0 <= j < |x.funcs|
        ensures SameFunc(x.funcs[j], y.funcs[j]) <==>
          UnsignedFuncs(x.funcs)[j] == UnsignedFuncs(y.funcs)[j] && !(x.funcs[j].Percentile? && IsNaN(x.funcs[j].q))
      {
        SameFuncMeaning(x.funcs[j], y.funcs[j]);
      }
      assert UnsignedFuncs(x.funcs) == UnsignedFuncs(y.funcs) <==>
        forall j :: 0 <= j < |x.funcs| ==> UnsignedFuncs(x.funcs)[j] == UnsignedFuncs(y.funcs)[j];
    }
  }

  /** Specs match exactly when they are the same but for the signs of zero quantiles, and no quantile
      is NaN. */
  lemma SpecsEqualMeaning(a: AggSpec, b: AggSpec)
    ensures SpecsEqual(a, b) <==> UnsignedSpec(a) == UnsignedSpec(b) && !HasNaNQuantile(a)
  {
    hide SameMeasure, UnsignedFuncs;
    if |a.measures| == |b.measures| {
      forall i | 0 <= i < |a.measures|
        ensures SameMeasure(a.measures[i], b.measures[i]) <==>
          UnsignedSpec(a).measures[i] == UnsignedSpec(b).measures[i] && !HasNaN(a.measures[i].funcs)
      {
        SameMeasureMeaning(a.measures[i], b.measures[i]);
      }
      assert UnsignedSpec(a).measures == UnsignedSpec(b).measures <==>
        forall i :: 0 <= i < |a.measures| ==> UnsignedSpec(a).measures[i] == UnsignedSpec(b).measures[i];
    }
  }

  /** A spec matches itself exactly when no percentile in it is NaN. */
  lemma SpecMatchesItself(a: AggSpec)
    ensures SpecsEqual(a, a) <==> !HasNaNQuantile(a)
  {
    SpecsEqualMeaning(a, a);
  }

  /** A spec that does not match itself: the suffix of a percentile function may be "nan". */
  lemma NaNSpecDiffers(column: string)
    ensures var a := AggSpec([], [MeasureSpec(column, [Percentile(CANONICAL_NAN)])]);
            !SpecsEqual(a, a)
  {
    var a := AggSpec([], [MeasureSpec(column, [Percentile(CANONICAL_NAN)])]);
    var funcs := a.measures[0].funcs;
    assert funcs[0].Percentile? && IsNaN(funcs[0].q);
    SpecMatchesItself(a);
  }

  /** Specs that match want the same optional structures. */
  lemma EqualSpecsWantTheSame(a: AggSpec, b: AggSpec, i: nat)
    requires SpecsEqual(a, b) && i < |a.measures|
    ensures WantsDistinct(a.measures[i]) == WantsDistinct(b.measures[i])
    ensures WantsPercentile(a.measures[i]) == WantsPercentile(b.measures[i])
  {
    var x, y := a.measures[i].funcs, b.measures[i].funcs;
    assert SameMeasure(a.measures[i], b.measures[i]);
    forall j | 0 <= j < |x|
      ensures SameFunc(x[j], y[j]) && (x[j] == Distinct <==> y[j] == Distinct) && x[j].Percentile? == y[j].Percentile?
    {
    }
    if Distinct in x {
      var j :| 0 <= j < |x| && x[j] == Distinct;
      assert y[j] == Distinct;
    }
    if Distinct in y {
      var j :| 0 <= j < |y| && y[j] == Distinct;
      assert x[j] == Distinct;
    }
  }
}
