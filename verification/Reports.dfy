/** What a report says about the rows it was made from, entry by entry. */
module Reports {
  import opened Words
  import opened Floats
  import opened Values
  import opened Quantiles
  import D = Digests
  import opened Sequences
  import opened Accumulators
  import opened Groups
  import opened Representations
  import opened Histories
  import opened States
  import opened Outputs
  import opened Results

  // ---------- the rows of a group ----------

  /** The row carries the key in the columns grouped by. */
  predicate HasKey(s: Shape, row: Row, key: Key)
    requires s.Valid() && |row| == s.numColumns
  {
    |key| == |s.groupByIdx| && forall c :: 0 <= c < |s.groupByIdx| ==> row[s.groupByIdx[c]] == key[c]
  }

  /** The rows that carry the key, each as often as it occurs. */
  ghost predicate AreRowsOf(s: Shape, rows: seq<Row>, key: Key, theirs: seq<Row>)
    requires s.Valid()
  {
    forall row: Row :: |row| == s.numColumns ==>
      multiset(theirs)[row] == if HasKey(s, row, key) then multiset(rows)[row] else 0
  }

  lemma KeyMeaning(s: Shape, row: Row, key: Key)
    requires s.Valid() && |row| == s.numColumns
    ensures s.KeyOf(row) == key <==> HasKey(s, row, key)
  {
  }

  lemma {:induction false} CountWithKey(s: Shape, rows: seq<Row>, key: Key, row: Row)
    requires s.Valid() && RowsFit(s, rows) && |row| == s.numColumns
    ensures multiset(RowsWithKey(s, rows, key))[row] == if HasKey(s, row, key) then multiset(rows)[row] else 0
  {
    hide HasKey, Shape.KeyOf;
    if rows != [] {
      var front, last := rows[..|rows| - 1], rows[|rows| - 1];
      CountWithKey(s, front, key, row);
      KeyMeaning(s, last, key);
      assert rows == front + [last];
    }
  }

  lemma RowsWithKeyMeaning(s: Shape, rows: seq<Row>, key: Key)
    requires s.Valid() && RowsFit(s, rows)
    ensures AreRowsOf(s, rows, key, RowsWithKey(s, rows, key))
  {
    hide HasKey, RowsWithKey;
    forall row: Row | |row| == s.numColumns
      ensures multiset(RowsWithKey(s, rows, key))[row] == if HasKey(s, row, key) then multiset(rows)[row] else 0
    {
      CountWithKey(s, rows, key, row);
    }
  }

  // ---------- the place of an entry ----------

  /** How many functions the first k measures ask for. */
  function FuncsBefore(measures: seq<MeasureSpec>, k: nat): nat
    requires k <= |measures|
  {
    if k == 0 then 0 else FuncsBefore(measures, k - 1) + |measures[k - 1].funcs|
  }

  lemma {:induction false} ResultsInOrder(s: Shape, g: Group, n: nat)
    requires s.Valid() && Fits(s, g) && n <= |s.spec.measures|
    ensures |MeasureResults(s, g, n)| == FuncsBefore(s.spec.measures, n)
  {
    hide Fits, ResultsOf;
    if n > 0 {
      ResultsInOrder(s, g, n - 1);
      FittingIsAnswerable(s, g, n - 1);
    }
  }

  lemma {:induction false} ResultAt(s: Shape, g: Group, n: nat, k: nat, j: nat)
    requires s.Valid() && Fits(s, g) && k < n <= |s.spec.measures| && j < |s.spec.measures[k].funcs|
    requires |g.measures| == |s.spec.measures| && Answerable(g.measures[k], s.spec.measures[k].funcs)
    ensures FuncsBefore(s.spec.measures, k) + j < |MeasureResults(s, g, n)|
    ensures var spec := s.spec.measures[k];
            MeasureResults(s, g, n)[FuncsBefore(s.spec.measures, k) + j]
            == MeasureResult(spec.column, spec.funcs[j], OutputOf(g.measures[k], g.count, spec.funcs[j], s.tools))
  {
    hide Fits, OutputOf, ResultsOf, Answerable;
    ResultsInOrder(s, g, n - 1);
    FittingIsAnswerable(s, g, n - 1);
    if k < n - 1 {
      ResultAt(s, g, n - 1, k, j);
    } else {
      ResultOf(g.measures[k], g.count, s.spec.measures[k], s.tools, j);
    }
  }

  lemma ResultOf(m: Measure, count: int64, spec: MeasureSpec, tools: Tools, j: nat)
    requires Answerable(m, spec.funcs) && j < |spec.funcs|
    ensures ResultsOf(m, count, spec, tools)[j]
            == MeasureResult(spec.column, spec.funcs[j], OutputOf(m, count, spec.funcs[j], tools))
  {
    hide OutputOf;
  }

  // ---------- the entries ----------

  /** The values of one column. */
  function ColumnOf(rows: seq<Row>, c: nat): seq<Value>
    requires forall r :: 0 <= r < |rows| ==> c < |rows[r]|
  {
    seq(|rows|, r requires 0 <= r < |rows| => rows[r][c])
  }

  /** The result x of a group of rows lists function j of measure k at its place: on the column asked
      for, with the value of the function on that column of the rows. */
  ghost predicate HasEntry(s: Shape, theirs: seq<Row>, x: GroupResult, k: nat, j: nat)
    requires s.Valid() && RowsFit(s, theirs) && k < |s.spec.measures| && j < |s.spec.measures[k].funcs|
  {
    var spec, at := s.spec.measures[k], FuncsBefore(s.spec.measures, k) + j;
    && at < |x.measures|
    && x.measures[at].column == spec.column
    && x.measures[at].func == spec.funcs[j]
    && IsAnswer(s.measureTypes[k], ColumnOf(theirs, s.measureIdx[k]), spec.funcs[j], s.tools, x.measures[at].value)
  }

  /** The result of a group of rows: their number modulo 2^64, and the functions of the measures in
      order. */
  ghost predicate IsResult(s: Shape, theirs: seq<Row>, x: GroupResult)
    requires s.Valid() && RowsFit(s, theirs)
  {
    && x.count == Wrap(|theirs|)
    && |x.measures| == FuncsBefore(s.spec.measures, |s.spec.measures|)
    && forall k, j :: 0 <= k < |s.spec.measures| && 0 <= j < |s.spec.measures[k].funcs| ==>
         HasEntry(s, theirs, x, k, j)
  }

  /** The group has the result of the rows with its key, and there are such rows. */
  ghost predicate ReportsGroup(s: Shape, rows: seq<Row>, x: GroupResult)
    requires s.Valid()
  {
    exists theirs :: theirs != [] && RowsFit(s, theirs) && AreRowsOf(s, rows, x.key, theirs) && IsResult(s, theirs, x)
  }

  ghost predicate Heads(s: Shape, row: Row, groups: seq<GroupResult>)
    requires s.Valid() && |row| == s.numColumns
  {
    exists i :: 0 <= i < |groups| && HasKey(s, row, groups[i].key)
  }

  /** Every key of the rows heads exactly one group, and every group has the result of its rows. */
  ghost predicate ReportsRows(s: Shape, rows: seq<Row>, groups: seq<GroupResult>)
    requires s.Valid() && RowsFit(s, rows)
  {
    && (forall r :: 0 <= r < |rows| ==> Heads(s, rows[r], groups))
    && (forall i, j :: 0 <= i < j < |groups| ==> groups[i].key != groups[j].key)
    && forall i :: 0 <= i < |groups| ==> ReportsGroup(s, rows, groups[i])
  }

  lemma EntryMeaning(s: Shape, m: GroupMap, rows: seq<Row>, key: Key, k: nat, j: nat, x: GroupResult)
    requires s.Valid() && Represents(s, m, rows) && key in m && RowsFit(s, rows) && Fits(s, m[key])
    requires k < |s.spec.measures| && j < |s.spec.measures[k].funcs| && x == ToResult(s, key, m[key])
    ensures HasEntry(s, RowsWithKey(s, rows, key), x, k, j)
  {
    hide Represents, RowsWithKey, Fits, OutputOf, IsAnswer, Answerable, MeasureResults;
    GroupSizes(s, m[key]);
    FittingIsAnswerable(s, m[key], k);
    ResultAt(s, m[key], |s.spec.measures|, k, j);
    OutputMeaning(s, m, rows, key, k, s.spec.measures[k].funcs[j]);
    var theirs := RowsWithKey(s, rows, key);
    assert MeasureColumn(s, theirs, k) == ColumnOf(theirs, s.measureIdx[k]);
  }

  lemma ResultMeaning(s: Shape, m: GroupMap, rows: seq<Row>, key: Key)
    requires s.Valid() && Represents(s, m, rows) && key in m && RowsFit(s, rows) && Fits(s, m[key])
    ensures RowsWithKey(s, rows, key) != [] && IsResult(s, RowsWithKey(s, rows, key), ToResult(s, key, m[key]))
  {
    hide RowsWithKey, Fits, HasEntry, AllFit, MeasureResults;
    assert Accounts(s, m, rows, key);
    ResultsInOrder(s, m[key], |s.spec.measures|);
    forall k, j | 0 <= k < |s.spec.measures| && 0 <= j < |s.spec.measures[k].funcs|
      ensures HasEntry(s, RowsWithKey(s, rows, key), ToResult(s, key, m[key]), k, j)
    {
      EntryMeaning(s, m, rows, key, k, j, ToResult(s, key, m[key]));
    }
  }

  /** Whatever the history of the aggregate, its report has one group for every key among the rows,
      in ascending order, and every entry of a group is the value of its function on its column of
      the rows with that key. */
  lemma ReportMeaning(s: Shape, groups: seq<GroupResult>, m: GroupMap, rows: seq<Row>)
    requires s.Valid() && Represents(s, m, rows) && IsReport(s, groups, m) && KeysTyped(s, m)
    ensures RowsFit(s, rows) && ReportsRows(s, rows, groups) && Ascends(groups)
  {
    hide RowsWithKey, Fits, IsResult, SortedBy, ToResult, Ascends, AreRowsOf, HasKey, IsGroupOf, KeyTyped,
         Shape.KeyOf;
    ReportAscends(s, groups, m);
    forall i | 0 <= i < |groups|
      ensures ReportsGroup(s, rows, groups[i])
    {
      ResultMeaning(s, m, rows, groups[i].key);
      RowsWithKeyMeaning(s, rows, groups[i].key);
    }
    forall r | 0 <= r < |rows|
      ensures Heads(s, rows[r], groups)
    {
      var key := s.KeyOf(rows[r]);
      assert Accounts(s, m, rows, key);
      SomeRowHas(s, rows, key);
      KeyMeaning(s, rows[r], key);
      assert KeyAmong(groups, key);
    }
  }

  /** Of two percentiles of one column the larger has the larger value, unless the column holds an
      infinity. */
  lemma PercentilesRise(s: Shape, groups: seq<GroupResult>, m: GroupMap, rows: seq<Row>, i: nat, k: nat, j: nat, l: nat)
    requires s.Valid() && Represents(s, m, rows) && Lists(s, groups, m) && i < |groups|
    requires k < |s.spec.measures| && j < |s.spec.measures[k].funcs| && l < |s.spec.measures[k].funcs|
    requires Infinite !in Offered(s, rows, groups[i].key, k)
    requires var f, g := s.spec.measures[k].funcs[j], s.spec.measures[k].funcs[l];
             f.Percentile? && g.Percentile? && IsPercentile(f.q) && IsPercentile(g.q) && Units(f.q) <= Units(g.q)
    ensures var b, es := FuncsBefore(s.spec.measures, k), groups[i].measures;
            && b + j < |es| && b + l < |es| && es[b + j].value.Estimated? && es[b + l].value.Estimated?
            && var x, y := es[b + j].value.estimate, es[b + l].value.estimate;
               (x.NaN? && y.NaN?) || (x.Number? && y.Number? && x.v <= y.v)
  {
    hide Represents, Offered, Fits, OutputOf, Answerable, MeasureResults, IsPercentile, D.NumbersIn, D.IsMin, D.IsMax,
         Units, PercentileOf;
    var key, f, g := groups[i].key, s.spec.measures[k].funcs[j], s.spec.measures[k].funcs[l];
    RepresentedFits(s, m, rows);
    GroupSizes(s, m[key]);
    FittingIsAnswerable(s, m[key], k);
    ResultAt(s, m[key], |s.spec.measures|, k, j);
    ResultAt(s, m[key], |s.spec.measures|, k, l);
    IsWanted(s, k, f);
    PercentileMeaning(s, m, rows, key, k, f.q, g.q);
    PercentileOutput(m[key].measures[k], m[key].count, f, s.tools);
    PercentileOutput(m[key].measures[k], m[key].count, g, s.tools);
  }

  lemma PercentileOutput(m: Measure, count: int64, fn: AggFunc, tools: Tools)
    requires fn.Percentile? && m.digest.Some?
    ensures OutputOf(m, count, fn, tools) == PercentileOf(tools.digester, m.digest.value, fn.q)
  {
  }
}
