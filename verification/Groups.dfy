/** Group-by as a mathematical map from key to group: adding rows, and merging maps. */
module Groups {
  import opened Words
  import opened Values
  import opened Accumulators
  import D = Digests

  datatype Group = Group(count: int64, measures: seq<Measure>)

  type GroupMap = map<Key, Group>

  /** g holds one accumulator per requested measure, of the type and kind requested. */
  predicate Fits(s: Shape, g: Group)
    requires s.Valid()
  {
    && |g.measures| == |s.measureTypes|
    && forall i :: 0 <= i < |g.measures| ==> MeasureFits(s, g.measures[i], i)
  }

  predicate MeasureFits(s: Shape, m: Measure, i: nat)
    requires s.Valid() && i < |s.measureTypes|
  {
    IsKind(m, s.measureTypes[i], s.WantsOf(i))
  }

  ghost predicate AllFit(s: Shape, m: GroupMap)
    requires s.Valid()
  {
    forall k :: k in m ==> Fits(s, m[k])
  }

  // ---------- one group ----------

  function NewGroup(s: Shape): (g: Group)
    requires s.Valid()
    ensures Fits(s, g)
  {
    Group(0, seq(|s.measureTypes|, i requires 0 <= i < |s.measureTypes| =>
      NewMeasure(s.measureTypes[i], s.WantsOf(i))))
  }

  function AddToMeasure(s: Shape, m: Measure, row: Row, i: nat): Measure
    requires s.Valid() && |row| == s.numColumns && i < |s.measureTypes|
  {
    AddValue(m, s.MeasureValue(row, i), s.tools)
  }

  function AddToGroup(s: Shape, g: Group, row: Row): (r: Group)
    requires s.Valid() && |row| == s.numColumns && Fits(s, g)
    ensures Fits(s, r)
  {
    Group(AddI64(g.count, 1),
          seq(|g.measures|, i requires 0 <= i < |g.measures| => AddToMeasure(s, g.measures[i], row, i)))
  }

  function MergeGroups(s: Shape, a: Group, b: Group): (r: Group)
    requires s.Valid() && Fits(s, a) && Fits(s, b)
    ensures Fits(s, r)
  {
    Group(AddI64(a.count, b.count),
          seq(|a.measures|, i requires 0 <= i < |a.measures| =>
            assert MeasureFits(s, a.measures[i], i) && MeasureFits(s, b.measures[i], i);
            MergeMeasures(a.measures[i], b.measures[i], s.tools)))
  }

  // ---------- maps of groups ----------

  ghost predicate RowsFit(s: Shape, rows: seq<Row>) {
    forall r :: 0 <= r < |rows| ==> |rows[r]| == s.numColumns
  }

  function GroupOf(s: Shape, m: GroupMap, key: Key): (g: Group)
    requires s.Valid() && AllFit(s, m)
    ensures Fits(s, g)
  {
    if key in m then m[key] else NewGroup(s)
  }

  function AddRow(s: Shape, m: GroupMap, row: Row): (r: GroupMap)
    requires s.Valid() && |row| == s.numColumns && AllFit(s, m)
    ensures AllFit(s, r)
  {
    m[s.KeyOf(row) := AddToGroup(s, GroupOf(s, m, s.KeyOf(row)), row)]
  }

  function AddRows(s: Shape, m: GroupMap, rows: seq<Row>): (r: GroupMap)
    requires s.Valid() && RowsFit(s, rows) && AllFit(s, m)
    ensures AllFit(s, r)
  {
    if rows == [] then m
    else AddRow(s, AddRows(s, m, rows[..|rows| - 1]), rows[|rows| - 1])
  }

  /** The group-by of a table of rows. */
  function GroupBy(s: Shape, rows: seq<Row>): (r: GroupMap)
    requires s.Valid() && RowsFit(s, rows)
    ensures AllFit(s, r)
  {
    AddRows(s, map[], rows)
  }

  function MergeMaps(s: Shape, a: GroupMap, b: GroupMap): (r: GroupMap)
    requires s.Valid() && AllFit(s, a) && AllFit(s, b)
    ensures AllFit(s, r)
  {
    map k | k in a.Keys + b.Keys ::
      if k !in a then b[k] else if k !in b then a[k] else MergeGroups(s, a[k], b[k])
  }

  lemma AddNoRows(s: Shape, m: GroupMap, rows: seq<Row>)
    requires s.Valid() && AllFit(s, m)
    ensures AddRows(s, m, rows[..0]) == m
  {
  }

  lemma AddRowsStep(s: Shape, m: GroupMap, rows: seq<Row>, r: nat)
    requires s.Valid() && RowsFit(s, rows) && AllFit(s, m) && r < |rows|
    ensures RowsFit(s, rows[..r]) && RowsFit(s, rows[..r + 1])
    ensures AddRows(s, m, rows[..r + 1]) == AddRow(s, AddRows(s, m, rows[..r]), rows[r])
  {
    hide AddRow;
    assert rows[..r + 1][..r] == rows[..r];
  }

  lemma {:induction false} AddRowsConcat(s: Shape, m: GroupMap, p: seq<Row>, q: seq<Row>)
    requires s.Valid() && RowsFit(s, p) && RowsFit(s, q) && AllFit(s, m)
    ensures RowsFit(s, p + q)
    ensures AddRows(s, m, p + q) == AddRows(s, AddRows(s, m, p), q)
  {
    hide AddRow;
    if q == [] {
      assert p + q == p;
    } else {
      AddRowsConcat(s, m, p, q[..|q| - 1]);
      assert (p + q)[..|p + q| - 1] == p + q[..|q| - 1];
    }
  }

  // ---------- reporting ----------

  /** Reporting a measure flushes its digest. */
  function Settled(m: Measure, tools: Tools): Measure {
    m.(digest := if m.digest.Some? then Some(D.Flushed(tools.digester, m.digest.value)) else None)
  }

  function SettledGroup(g: Group, tools: Tools): Group {
    Group(g.count, seq(|g.measures|, i requires 0 <= i < |g.measures| => Settled(g.measures[i], tools)))
  }

  ghost function SettledMap(s: Shape, m: GroupMap): GroupMap {
    map k | k in m :: SettledGroup(m[k], s.tools)
  }

  lemma SettledFits(s: Shape, g: Group)
    requires s.Valid() && Fits(s, g)
    ensures Fits(s, SettledGroup(g, s.tools))
  {
    forall i | 0 <= i < |g.measures|
      ensures MeasureFits(s, SettledGroup(g, s.tools).measures[i], i)
    {
      assert MeasureFits(s, g.measures[i], i);
    }
  }

  lemma SettledMapFits(s: Shape, m: GroupMap)
    requires s.Valid() && AllFit(s, m)
    ensures AllFit(s, SettledMap(s, m))
  {
    hide Fits, SettledGroup;
    forall k | k in m
      ensures Fits(s, SettledGroup(m[k], s.tools))
    {
      SettledFits(s, m[k]);
    }
  }
}
