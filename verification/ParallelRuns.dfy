/** RunParallel on real aggregators: batches reach the workers in any assignment, and the
    merged result holds the groups of all rows. */
module ParallelRuns {
  import opened Sequences
  import opened Values
  import opened ColumnBatches
  import opened Groups
  import opened Representations
  import opened GroupTables
  import opened Aggregators
  import opened Ingest
  import opened Jobs
  import opened Pipeline
  import opened Completeness
  import opened Parallel

  /** Fewer than one worker means one. */
  function Workers(n: int): (k: nat)
    ensures k >= 1 && k >= n && (k == 1 || k == n)
  {
    if n < 1 then 1 else n
  }

  /** One private, empty aggregator for each worker, under its own hash functions. */
  method NewAggregators(shape: Shape, hashers: seq<Hasher>)
    returns (aggs: seq<Aggregator>, ghost reprs: seq<set<object>>, ghost all: set<object>)
    requires shape.Valid()
    ensures |aggs| == |hashers| && Private(aggs, reprs) && fresh(all)
    ensures forall w :: 0 <= w < |aggs| ==> Owned(aggs[w], shape, map[], reprs[w]) && reprs[w] <= all
  {
    hide Aggregator.Valid, Aggregator.View;
    aggs, reprs, all := [], [], {};
    for i := 0 to |hashers|
      invariant |aggs| == i && Private(aggs, reprs)
      invariant forall w :: 0 <= w < i ==> Owned(aggs[w], shape, map[], reprs[w]) && reprs[w] <= all
      invariant fresh(all)
    {
      var agg, repr := NewAggregator(shape, hashers[i]);
      aggs, reprs, all := aggs + [agg], reprs + [repr], all + repr;
    }
  }

  method NewAggregator(shape: Shape, hasher: Hasher) returns (agg: Aggregator, ghost repr: set<object>)
    requires shape.Valid()
    ensures Owned(agg, shape, map[], repr) && fresh(agg) && fresh(repr) && agg !in repr
  {
    hide Aggregator.Valid, Aggregator.View;
    agg := new Aggregator(shape, hasher);
    repr := agg.Repr();
  }

  /** Folds one batch into a worker's private aggregator. */
  method FoldInto(agg: Aggregator, batch: Batch, ghost shape: Shape, ghost folded: seq<Row>, ghost own: set<object>)
    returns (err: Option<AggregateError>, ghost repr: set<object>)
    requires shape.Valid() && RowsFit(shape, folded) && Owned(agg, shape, GroupBy(shape, folded), own)
    requires batch.Valid() && batch !in own
    modifies own
    ensures err == if |batch.cols| != shape.numColumns then Some(ColumnCountMismatch) else None
    ensures err.None? ==>
      RowsFit(shape, folded + batch.Rows()) && Owned(agg, shape, GroupBy(shape, folded + batch.Rows()), repr)
    ensures forall x :: x in repr ==> x in own || fresh(x)
  {
    hide RowsFit, AddRows, RowsOf, AllFit, Aggregator.View, GroupTable.Valid, Hasher.OfKey;
    ghost var rows := batch.Rows();
    err := agg.AddBatch(batch);
    repr := agg.Repr();
    if err.None? {
      FoldMore(shape, folded, rows);
    }
  }

  lemma FoldMore(s: Shape, p: seq<Row>, q: seq<Row>)
    requires s.Valid() && RowsFit(s, p) && RowsFit(s, q)
    ensures RowsFit(s, p + q) && GroupBy(s, p + q) == AddRows(s, GroupBy(s, p), q)
  {
    hide RowsFit, AddRows;
    AddRowsConcat(s, map[], p, q);
  }

  /** The workers after worker w has folded more rows. */
  function Folded(ws: seq<Worker>, w: nat, rows: seq<Row>): seq<Worker>
    requires w < |ws|
  {
    ws[w := Worker(ws[w].folded + rows, ws[w].count + |rows|, ws[w].st)]
  }

  lemma {:induction false} FoldedTogether(ws: seq<Worker>, w: nat, rows: seq<Row>)
    requires w < |ws|
    ensures multiset(FoldedRows(Folded(ws, w, rows))) == multiset(FoldedRows(ws)) + multiset(rows)
  {
    hide FoldedRows;
    var n, more := |ws| - 1, Folded(ws, w, rows);
    LastFolded(ws);
    LastFolded(more);
    if w == n {
      assert more[..n] == ws[..n];
    } else {
      FoldedTogether(ws[..n], w, rows);
      assert more[..n] == Folded(ws[..n], w, rows);
    }
  }

  lemma LastFolded(ws: seq<Worker>)
    requires ws != []
    ensures multiset(FoldedRows(ws)) == multiset(FoldedRows(ws[..|ws| - 1])) + multiset(ws[|ws| - 1].folded)
  {
  }

  lemma {:induction false} NothingFoldedYet(n: nat)
    ensures FoldedRows(seq(n, _ => Worker([], 0, Finished))) == []
  {
    if n > 0 {
      NothingFoldedYet(n - 1);
      assert seq(n, _ => Worker([], 0, Finished))[..n - 1] == seq(n - 1, _ => Worker([], 0, Finished));
    }
  }

  /** The batches hold these rows. */
  ghost predicate Hold(batches: seq<Batch>, groups: seq<seq<Row>>)
    reads batches
  {
    |batches| == |groups| && forall k :: 0 <= k < |batches| ==> batches[k].Valid() && batches[k].Rows() == groups[k]
  }

  /** One worker receives one batch. */
  method Receive(aggs: seq<Aggregator>, w: nat, batch: Batch, ghost shape: Shape, ghost ws: seq<Worker>,
                 ghost reprs: seq<set<object>>)
    returns (err: Option<AggregateError>, ghost repr: set<object>)
    requires shape.Valid() && w < |aggs| == |ws| && WorkersFit(shape, ws) && Private(aggs, reprs)
    requires forall v :: 0 <= v < |aggs| ==> Owned(aggs[v], shape, GroupBy(shape, ws[v].folded), reprs[v])
    requires batch.Valid() && forall v :: 0 <= v < |reprs| ==> batch !in reprs[v]
    modifies reprs[w]
    ensures err == if |batch.cols| != shape.numColumns then Some(ColumnCountMismatch) else None
    ensures err.None? ==>
      && WorkersFit(shape, Folded(ws, w, batch.Rows())) && Private(aggs, reprs[w := repr])
      && forall v :: 0 <= v < |aggs| ==>
        Owned(aggs[v], shape, GroupBy(shape, Folded(ws, w, batch.Rows())[v].folded), reprs[w := repr][v])
    ensures forall x :: x in repr ==> x in reprs[w] || fresh(x)
  {
    hide Owned, RowsFit, GroupBy, RowsOf;
    err, repr := FoldInto(aggs[w], batch, shape, ws[w].folded, reprs[w]);
  }

  /** The workers drain the channel until it is closed or one of them fails. */
  method Drain(shape: Shape, aggs: seq<Aggregator>, batches: seq<Batch>, receiver: seq<nat>,
               ghost groups: seq<seq<Row>>, ghost start: seq<set<object>>, ghost all: set<object>)
    returns (rowCounts: seq<nat>, err: Option<AggregateError>, ghost ws: seq<Worker>, ghost reprs: seq<set<object>>)
    requires shape.Valid() && aggs != [] && Private(aggs, start) && Hold(batches, groups)
    requires forall v :: 0 <= v < |aggs| ==> Owned(aggs[v], shape, map[], start[v]) && start[v] <= all
    requires |receiver| == |batches| && forall k :: 0 <= k < |receiver| ==> receiver[k] < |aggs|
    requires forall k :: 0 <= k < |batches| ==> batches[k] !in all
    modifies all
    ensures err.None? <==> forall k :: 0 <= k < |batches| ==> |batches[k].cols| == shape.numColumns
    ensures err.None? ==>
      && |rowCounts| == |ws| == |aggs| && WorkersFit(shape, ws) && Private(aggs, reprs)
      && (forall v :: 0 <= v < |aggs| ==> Owned(aggs[v], shape, GroupBy(shape, ws[v].folded), reprs[v]))
      && (forall v :: 0 <= v < |aggs| ==> rowCounts[v] == ws[v].count == |ws[v].folded|)
      && multiset(FoldedRows(ws)) == multiset(Flatten(groups))
      && forall v, x :: 0 <= v < |reprs| && x in reprs[v] ==> x in all || fresh(x)
  {
    hide Owned, RowsFit, GroupBy, RowsOf, Flatten, FoldedRows, Batch.Rows;
    var n := |aggs|;
    ws, reprs := seq(n, _ => Worker([], 0, Finished)), start;
    rowCounts := seq(n, _ => 0);
    StartFolding(shape, n);
    FlattenNone();
    for k := 0 to |batches|
      invariant |ws| == |rowCounts| == n && WorkersFit(shape, ws) && Private(aggs, reprs)
      invariant forall v :: 0 <= v < n ==> Owned(aggs[v], shape, GroupBy(shape, ws[v].folded), reprs[v])
      invariant forall v :: 0 <= v < n ==> rowCounts[v] == ws[v].count == |ws[v].folded|
      invariant forall v, x :: 0 <= v < n && x in reprs[v] ==> x in all || fresh(x)
      invariant multiset(FoldedRows(ws)) == multiset(Flatten(groups[..k]))
      invariant forall j :: 0 <= j < k ==> |batches[j].cols| == shape.numColumns
      invariant Hold(batches, groups)
    {
      var w, batch := receiver[k], batches[k];
      ghost var repr;
      err, repr := Receive(aggs, w, batch, shape, ws, reprs);
      if err.Some? {
        return;
      }
      OneMoreBatch(ws, w, groups, k);
      rowCounts := rowCounts[w := rowCounts[w] + batch.numRows];
      ws, reprs := Folded(ws, w, groups[k]), reprs[w := repr];
    }
    assert groups[..|groups|] == groups;
    err := None;
  }

  lemma OneMoreBatch(ws: seq<Worker>, w: nat, groups: seq<seq<Row>>, k: nat)
    requires w < |ws| && k < |groups| && multiset(FoldedRows(ws)) == multiset(Flatten(groups[..k]))
    ensures multiset(FoldedRows(Folded(ws, w, groups[k]))) == multiset(Flatten(groups[..k + 1]))
  {
    hide FoldedRows, Flatten;
    FoldedTogether(ws, w, groups[k]);
    FlattenStep(groups, k);
  }

  /** RunParallel over the batches of a channel: receiver says which worker takes which batch. */
  method RunParallel(shape: Shape, batches: seq<Batch>, workers: int, receiver: seq<nat>, hashers: seq<Hasher>,
                     ghost groups: seq<seq<Row>>)
    returns (r: Result<(Aggregator, nat), AggregateError>)
    requires shape.Valid() && Hold(batches, groups) && |hashers| == Workers(workers)
    requires |receiver| == |batches| && forall k :: 0 <= k < |receiver| ==> receiver[k] < Workers(workers)
    ensures r.Ok? <==>
      && (forall k :: 0 <= k < |batches| ==> |batches[k].cols| == shape.numColumns)
      && (Workers(workers) == 1 || !HasNaNQuantile(shape.spec))
    ensures r.Ok? ==>
      && r.value.0.Valid() && fresh(r.value.0.Repr()) && r.value.0.shape == shape && r.value.1 == |Flatten(groups)|
      && Represents(shape, r.value.0.View(), Flatten(groups))
      && (Determined(shape, Flatten(groups)) ==> r.value.0.View() == GroupBy(shape, Flatten(groups)))
  {
    hide Owned, RowsFit, GroupBy, RowsOf, HasNaNQuantile, Flatten, FoldedRows, MapsOf, MergeInOrder, Total, Represents,
         Determined, Aggregator.Valid, Aggregator.View, Aggregator.Repr, WorkersFit, Shape.Valid;
    var aggs, start, all := NewAggregators(shape, hashers);
    var rowCounts, err, ws, reprs := Drain(shape, aggs, batches, receiver, groups, start, all);
    if err.Some? {
      return Err(err.value);
    }
    var rows := SumOf(rowCounts, ws);
    assert forall x :: x in Union(reprs) ==> x in all || fresh(x);
    var mergeErr := MergeAll(aggs, shape, MapsOf(shape, ws), reprs);
    if mergeErr.Some? {
      return Err(mergeErr.value);
    }
    MergedRows(shape, ws, Flatten(groups));
    return Ok((aggs[0], rows));
  }

  lemma StartFolding(s: Shape, n: nat)
    requires s.Valid()
    ensures var ws := seq(n, _ => Worker([], 0, Finished));
            WorkersFit(s, ws) && FoldedRows(ws) == [] && GroupBy(s, []) == map[]
  {
    NothingFoldedYet(n);
  }

  method SumOf(rowCounts: seq<nat>, ghost ws: seq<Worker>) returns (rows: nat)
    requires |rowCounts| == |ws| && forall v :: 0 <= v < |ws| ==> rowCounts[v] == ws[v].count == |ws[v].folded|
    ensures rows == |FoldedRows(ws)|
  {
    rows := 0;
    for v := 0 to |rowCounts|
      invariant rows == |FoldedRows(ws[..v])|
    {
      rows := rows + rowCounts[v];
      assert ws[..v + 1][..v] == ws[..v];
    }
    assert ws[..|ws|] == ws;
  }
}
