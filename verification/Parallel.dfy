/** The parallel execution on one machine: chunk producers, private aggregators in the
    workers, and a final merge. Its answer is the single reader's. */
module Parallel {
  import opened Sequences
  import opened Values
  import opened Lines
  import opened Chunks
  import opened Groups
  import opened GroupAccums
  import opened Representations
  import opened Aggregators
  import opened Rows
  import opened Jobs
  import opened Shards
  import opened Pipeline
  import opened Completeness

  // ---------- merging the workers' aggregators ----------

  ghost predicate AllMapsFit(s: Shape, maps: seq<GroupMap>)
    requires s.Valid()
  {
    forall i :: 0 <= i < |maps| ==> AllFit(s, maps[i])
  }

  /** The first map with each of the others merged into it, in order. */
  function MergeInOrder(s: Shape, maps: seq<GroupMap>): (m: GroupMap)
    requires s.Valid() && AllMapsFit(s, maps) && maps != []
    ensures AllFit(s, m)
  {
    var n := |maps| - 1;
    if n == 0 then maps[0] else MergeMaps(s, MergeInOrder(s, maps[..n]), maps[n])
  }

  /** The aggregator is valid, holds this map, and lives within this footprint. */
  ghost predicate Owned(agg: Aggregator, shape: Shape, m: GroupMap, repr: set<object>)
    reads repr
  {
    && agg.table in repr && agg.table.Repr() <= repr
    && agg.table.stored.Values <= repr && Foot(agg.table.stored) <= repr
    && agg.Valid() && agg.shape == shape && agg.View() == m
  }

  /** The specs are the same value, so the only error is that of a spec that does not equal
      itself: one asking for the NaN percentile. */
  method MergeNext(final: Aggregator, other: Aggregator, ghost shape: Shape, ghost m: GroupMap, ghost o: GroupMap,
                   ghost own: set<object>, ghost their: set<object>)
    returns (err: Option<AggregateError>, ghost repr: set<object>)
    requires shape.Valid() && AllFit(shape, m) && AllFit(shape, o)
    requires Owned(final, shape, m, own) && Owned(other, shape, o, their) && own !! their
    modifies own, their
    ensures err == if HasNaNQuantile(shape.spec) then Some(SpecMismatch) else None
    ensures err.None? ==> Owned(final, shape, MergeMaps(shape, m, o), repr)
    ensures forall x :: x in repr ==> x in own || x in their || fresh(x)
  {
    hide AllFit, MergeMaps, HasNaNQuantile, SpecsEqual, Tidy, AllVals, AllParts, Aggregator.Valid, Aggregator.View,
         Shape.Valid;
    SpecMatchesItself(shape.spec);
    err := final.Merge(other);
    repr := final.Repr();
  }

  ghost function Union(reprs: seq<set<object>>): set<object> {
    set i, x | 0 <= i < |reprs| && x in reprs[i] :: x
  }

  /** Private aggregators: no two share an object. */
  ghost predicate Private(aggs: seq<Aggregator>, reprs: seq<set<object>>) {
    |aggs| == |reprs| && forall i, j :: 0 <= i < j < |reprs| ==> reprs[i] !! reprs[j]
  }

  /** Merges every aggregator into the first. */
  method MergeAll(aggs: seq<Aggregator>, ghost shape: Shape, ghost maps: seq<GroupMap>, ghost reprs: seq<set<object>>)
    returns (err: Option<AggregateError>)
    requires shape.Valid() && aggs != [] && AllMapsFit(shape, maps) && Private(aggs, reprs) && |maps| == |aggs|
    requires forall i :: 0 <= i < |aggs| ==> Owned(aggs[i], shape, maps[i], reprs[i])
    modifies Union(reprs)
    ensures err == if |aggs| > 1 && HasNaNQuantile(shape.spec) then Some(SpecMismatch) else None
    ensures err.None? ==> aggs[0].Valid() && aggs[0].shape == shape && aggs[0].View() == MergeInOrder(shape, maps)
    ensures err.None? ==> forall x :: x in aggs[0].Repr() ==> x in Union(reprs) || fresh(x)
  {
    hide Owned, AllFit, MergeMaps, MergeInOrder, HasNaNQuantile, Shape.Valid, Aggregator.Valid, Aggregator.View;
    ghost var repr := reprs[0];
    OneMap(shape, maps);
    for i := 1 to |aggs|
      invariant AllMapsFit(shape, maps[..i]) && Owned(aggs[0], shape, MergeInOrder(shape, maps[..i]), repr)
      invariant forall j :: i <= j < |aggs| ==> Owned(aggs[j], shape, maps[j], reprs[j]) && repr !! reprs[j]
      invariant i > 1 ==> !HasNaNQuantile(shape.spec)
      invariant forall x :: x in repr ==> x in Union(reprs) || fresh(x)
    {
      err, repr := MergeNext(aggs[0], aggs[i], shape, MergeInOrder(shape, maps[..i]), maps[i], repr, reprs[i]);
      if err.Some? {
        return;
      }
      OneMoreMap(shape, maps, i);
    }
    assert maps[..|maps|] == maps;
    OwnedMeaning(aggs[0], shape, MergeInOrder(shape, maps), repr);
    return None;
  }

  lemma OneMap(s: Shape, maps: seq<GroupMap>)
    requires s.Valid() && AllMapsFit(s, maps) && maps != []
    ensures AllMapsFit(s, maps[..1]) && MergeInOrder(s, maps[..1]) == maps[0]
  {
  }

  lemma OneMoreMap(s: Shape, maps: seq<GroupMap>, i: nat)
    requires s.Valid() && AllMapsFit(s, maps) && 0 < i < |maps|
    ensures AllMapsFit(s, maps[..i]) && AllMapsFit(s, maps[..i + 1])
    ensures MergeInOrder(s, maps[..i + 1]) == MergeMaps(s, MergeInOrder(s, maps[..i]), maps[i])
  {
    hide MergeMaps, AllFit;
    assert maps[..i + 1][..i] == maps[..i];
  }

  lemma OwnedMeaning(agg: Aggregator, shape: Shape, m: GroupMap, repr: set<object>)
    requires Owned(agg, shape, m, repr)
    ensures agg.Valid() && agg.shape == shape && agg.View() == m && agg.Repr() <= repr
  {
  }

  // ---------- what the producers read ----------

  /** What each line yields: a row, or None if it is bad. */
  function Outcomes(f: Format, lines: seq<bytes>): seq<Option<Row>> {
    if lines == [] then []
    else [match f.ParseLine(lines[0]) case Ok(row) => Some(row) case Err(_) => None] + Outcomes(f, lines[1..])
  }

  lemma {:induction false} OutcomesMeaning(f: Format, lines: seq<bytes>)
    ensures Goods(Outcomes(f, lines)) == f.GoodRows(lines) && Bads(Outcomes(f, lines)) == f.CountBad(lines)
  {
    hide Format.ParseLine;
    if lines != [] {
      OutcomesMeaning(f, lines[1..]);
      var outcomes := Outcomes(f, lines);
      assert outcomes[1..] == Outcomes(f, lines[1..]);
      assert [] + f.GoodRows(lines[1..]) == f.GoodRows(lines[1..]);
    }
  }

  /** What the producers of the first n chunks will read. */
  function Inputs(job: Job, data: bytes, chunks: seq<Chunk>, n: nat): (inputs: seq<seq<Option<Row>>>)
    requires Tiles(chunks, |data|) && n <= |chunks|
    ensures |inputs| == n
  {
    if n == 0 then []
    else
      TilesInOrder(chunks, |data|, n - 1, n - 1);
      Inputs(job, data, chunks, n - 1)
      + [Outcomes(job.format, job.DataLines(Slice(data, chunks[n - 1]), DropsHeader(job, n - 1)))]
  }

  lemma {:induction false} InputsMeaning(job: Job, data: bytes, chunks: seq<Chunk>, n: nat)
    requires job.Valid() && Tiles(chunks, |data|) && n <= |chunks|
    ensures GoodsOfAll(Inputs(job, data, chunks, n)) == RowsUpTo(job, data, chunks, n)
    ensures BadsOfAll(Inputs(job, data, chunks, n)) == BadsUpTo(job, data, chunks, n)
  {
    hide Goods, Bads, Outcomes, Tiles, LinesOf, Slice, Format.GoodRows, Format.CountBad;
    if n > 0 {
      InputsMeaning(job, data, chunks, n - 1);
      TilesInOrder(chunks, |data|, n - 1, n - 1);
      OutcomesMeaning(job.format, job.DataLines(Slice(data, chunks[n - 1]), DropsHeader(job, n - 1)));
      var inputs := Inputs(job, data, chunks, n);
      assert inputs[..n - 1] == Inputs(job, data, chunks, n - 1);
    }
  }

  // ---------- what the workers fold ----------

  ghost predicate WorkersFit(s: Shape, ws: seq<Worker>) {
    forall w :: 0 <= w < |ws| ==> RowsFit(s, ws[w].folded)
  }

  /** Each worker's aggregator after its rows. */
  function MapsOf(s: Shape, ws: seq<Worker>): (maps: seq<GroupMap>)
    requires s.Valid() && WorkersFit(s, ws)
    ensures |maps| == |ws| && AllMapsFit(s, maps)
    ensures forall w :: 0 <= w < |ws| ==> maps[w] == GroupBy(s, ws[w].folded)
  {
    seq(|ws|, w requires 0 <= w < |ws| => GroupBy(s, ws[w].folded))
  }

  /** Merging the workers' maps makes an aggregate of all the rows they folded. */
  lemma {:induction false} MergedRepresents(s: Shape, ws: seq<Worker>)
    requires s.Valid() && WorkersFit(s, ws) && ws != []
    ensures Represents(s, MergeInOrder(s, MapsOf(s, ws)), FoldedRows(ws))
  {
    hide RowsFit, GroupBy, MergeMaps, AllFit, Represents;
    var n := |ws| - 1;
    GroupByMeaning(s, ws[n].folded);
    if n == 0 {
      assert FoldedRows(ws[..0]) == [];
      assert FoldedRows(ws) == [] + ws[0].folded == ws[0].folded;
    } else {
      MergedRepresents(s, ws[..n]);
      assert MapsOf(s, ws)[..n] == MapsOf(s, ws[..n]);
      MergeRepresents(s, MergeInOrder(s, MapsOf(s, ws[..n])), GroupBy(s, ws[n].folded),
                      FoldedRows(ws[..n]), ws[n].folded);
    }
  }

  /** And of any arrangement of them; where order leaves no trace it is their group-by. */
  lemma MergedRows(s: Shape, ws: seq<Worker>, rows: seq<Row>)
    requires s.Valid() && WorkersFit(s, ws) && ws != [] && multiset(FoldedRows(ws)) == multiset(rows)
    ensures RowsFit(s, rows) && |FoldedRows(ws)| == |rows|
    ensures Represents(s, MergeInOrder(s, MapsOf(s, ws)), rows)
    ensures Determined(s, rows) ==> MergeInOrder(s, MapsOf(s, ws)) == GroupBy(s, rows)
  {
    hide GroupBy, FoldedRows, MapsOf, MergeInOrder, Represents, Determined;
    assert |multiset(FoldedRows(ws))| == |multiset(rows)|;
    var m := MergeInOrder(s, MapsOf(s, ws));
    MergedRepresents(s, ws);
    RepresentsAnyOrder(s, m, FoldedRows(ws), rows);
    RepresentedFits(s, m, rows);
    GroupByMeaning(s, rows);
    RepresentationsAgree(s, m, GroupBy(s, rows), rows);
  }

  lemma {:induction false} FoldedHas(ws: seq<Worker>, w: nat, r: Row)
    requires w < |ws| && r in ws[w].folded
    ensures r in FoldedRows(ws)
  {
    if w < |ws| - 1 {
      FoldedHas(ws[..|ws| - 1], w, r);
    }
  }

  lemma WorkersFoldFittingRows(s: Shape, ws: seq<Worker>, rows: seq<Row>)
    requires RowsFit(s, rows) && multiset(FoldedRows(ws)) == multiset(rows)
    ensures WorkersFit(s, ws)
  {
    hide FoldedRows;
    forall w, i | 0 <= w < |ws| && 0 <= i < |ws[w].folded|
      ensures |ws[w].folded[i]| == s.numColumns
    {
      var r := ws[w].folded[i];
      FoldedHas(ws, w, r);
      assert r in multiset(FoldedRows(ws));
      assert r in rows;
    }
  }

  // ---------- the parallel answer ----------

  /** However the goroutines were scheduled, a run over the chunks of a file that reports
      success, and was not cancelled from outside unless one reader read it all, gives an aggregate
      of the file's rows once the workers' maps are merged, with the single reader's row count and
      skips. Where order leaves no trace it is the single reader's answer. */
  lemma ParallelEqualsSingle(job: Job, data: bytes, chunks: seq<Chunk>, c: Config, s: State, steps: seq<Step>)
    requires job.Valid() && Planned(data, chunks)
    requires Initial(c, Inputs(job, data, chunks, |chunks|), s) && Runs(c, s, steps)
    requires var t := After(c, s, steps); Done(t) && ReportsSuccess(t) && (!t.sh.outside || |chunks| == 1)
    ensures var t := After(c, s, steps);
            && t.ws != [] && WorkersFit(job.shape, t.ws)
            && Total(t.ws, RowCount()) == |job.RowsIn(data, job.hasHeader)|
            && t.sh.skipped == job.BadIn(data, job.hasHeader)
            && var merged := MergeInOrder(job.shape, MapsOf(job.shape, t.ws));
               && Represents(job.shape, merged, job.RowsIn(data, job.hasHeader))
               && (Determined(job.shape, job.RowsIn(data, job.hasHeader)) ==> merged == job.Answer(data))
  {
    hide Enabled, Apply, Sound, Blamed, ClosedFirst, Total, FoldedRows, GoodsOfAll, BadsOfAll, RowsFit, GroupBy, MapsOf,
         LinesOf, Format.GoodRows, Format.CountBad, Tiles, NextNewline, MergeInOrder, AllMapsFit, WorkersFit,
         ReportsSuccess, Done, Represents, Determined;
    var inputs := Inputs(job, data, chunks, |chunks|);
    var t := After(c, s, steps);
    FinishedRun(c, inputs, s, steps);
    InitiallySound(c, inputs, s);
    AlwaysSound(c, s, steps);
    InputsMeaning(job, data, chunks, |chunks|);
    PiecesHoldTheFile(job, data, chunks);
    var rows := job.RowsIn(data, job.hasHeader);
    WorkersFoldFittingRows(job.shape, t.ws, rows);
    MergedRows(job.shape, t.ws, rows);
  }
}
