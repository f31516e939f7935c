/** One aggregation job over one file, and its single-reader execution: the reference that
    the parallel and the distributed executions are compared with. */
module Jobs {
  import opened Values
  import opened Lines
  import opened Groups
  import opened GroupAccums
  import opened ColumnBatches
  import opened Aggregators
  import opened Rows
  import opened Ingest

  const DEFAULT_BATCH: nat := 4096

  /** The columns are given explicitly, and the shape was resolved against them. */
  datatype Job = Job(
    format: Format,
    shape: Shape,
    hasHeader: bool,
    onError: ErrorPolicy,
    batchSize: int,
    bufferSize: int)
  {
    predicate Valid() {
      && shape.Valid() && shape.numColumns == |format.types|
      && (forall i :: 0 <= i < |shape.groupByIdx| ==> format.types[shape.groupByIdx[i]] == shape.groupByTypes[i])
      && (forall i :: 0 <= i < |shape.measureIdx| ==> format.types[shape.measureIdx[i]] == shape.measureTypes[i])
    }

    function Batching(): (n: nat)
      ensures n > 0 && (n == batchSize || (batchSize <= 0 && n == DEFAULT_BATCH))
    {
      if batchSize <= 0 then DEFAULT_BATCH else batchSize
    }

    /** The lines of some content that should hold rows. */
    function DataLines(data: bytes, skipHeader: bool): seq<bytes> {
      DropHeader(LinesOf(data), skipHeader)
    }

    function RowsIn(data: bytes, skipHeader: bool): (rows: seq<Row>)
      requires Valid()
      ensures RowsFit(shape, rows)
    {
      format.GoodRows(DataLines(data, skipHeader))
    }

    function BadIn(data: bytes, skipHeader: bool): nat {
      format.CountBad(DataLines(data, skipHeader))
    }

    /** Under the skip policy every content can be read; otherwise only one without bad rows. */
    predicate Readable(data: bytes, skipHeader: bool) {
      onError.SkipBadRows? || BadIn(data, skipHeader) == 0
    }

    /** The answer for a whole file. */
    function Answer(data: bytes): (m: GroupMap)
      requires Valid()
      ensures AllFit(shape, m)
    {
      GroupBy(shape, RowsIn(data, hasHeader))
    }
  }

  /** Parses a source on one goroutine into batches. */
  method ReadSource(job: Job, data: bytes, skipHeader: bool, bp: BatchPool)
    returns (batches: seq<Batch>, skipped: nat, err: Option<RowResult>)
    requires job.Valid() && bp.Valid() && bp.types == job.format.types && bp.idle == {}
    modifies bp
    ensures err.None? <==> job.Readable(data, skipHeader)
    ensures err.None? ==>
      && Holding(batches, job.format.types, Batches(job.RowsIn(data, skipHeader), job.Batching()))
      && skipped == job.BadIn(data, skipHeader)
    ensures err.Some? ==>
      var lines := job.DataLines(data, skipHeader);
      var i := job.format.FirstBad(lines);
      i < |lines| && err.value == RowFailed(i + 1, job.format.ParseLine(lines[i]).error)
    ensures bp.Valid() && forall b :: b in batches || b in bp.idle ==> fresh(b)
    ensures forall b :: b in batches ==> b !in bp.idle
    ensures forall i, j :: 0 <= i < j < |batches| ==> batches[i] != batches[j]
  {
    hide Batches, Typed, LinesOf, Holding, BatchPool.Valid;
    var lr := new LineReader(data, job.bufferSize);
    var rp := new RowParser(lr, job.format, skipHeader, job.onError);
    batches, err := DrainChunk(rp, bp, job.Batching());
    skipped := |rp.skipped|;
  }

  /** Reads a source beside an aggregator, which it leaves alone. */
  method ReadBeside(agg: Aggregator, job: Job, data: bytes, skipHeader: bool, ghost m: GroupMap,
                    ghost repr: set<object>)
    returns (bp: BatchPool, batches: seq<Batch>, skipped: nat, err: Option<RowResult>)
    requires job.Valid() && agg.Valid() && agg.View() == m && agg.Repr() == repr
    ensures agg.Valid() && agg.View() == m && agg.Repr() == repr
    ensures err.None? <==> job.Readable(data, skipHeader)
    ensures err.None? ==>
      && Holding(batches, job.format.types, Batches(job.RowsIn(data, skipHeader), job.Batching()))
      && skipped == job.BadIn(data, skipHeader)
    ensures err.Some? ==>
      var lines := job.DataLines(data, skipHeader);
      var i := job.format.FirstBad(lines);
      i < |lines| && err.value == RowFailed(i + 1, job.format.ParseLine(lines[i]).error)
    ensures fresh(bp) && bp.Valid() && bp.types == job.format.types && bp !in repr
    ensures forall b :: b in batches || b in bp.idle ==> b !in repr
    ensures forall b :: b in batches ==> b !in bp.idle
    ensures forall i, j :: 0 <= i < j < |batches| ==> batches[i] != batches[j]
  {
    hide Batches, Holding, Aggregator.View, Aggregator.Valid, BatchPool.Valid, Job.DataLines, Job.BadIn, Job.RowsIn,
         Job.Readable, Format.FirstBad, Job.Valid, Tidy, AllParts;
    FootExists(agg.table.stored);
    bp := new BatchPool(job.format.types);
    batches, skipped, err := ReadSource(job, data, skipHeader, bp);
  }

  /** Reads a source and folds every batch of it into the aggregator. */
  method FoldSource(agg: Aggregator, job: Job, data: bytes, skipHeader: bool)
    returns (rows: nat, skipped: nat, err: Option<RowResult>)
    requires job.Valid() && agg.Valid() && agg.shape == job.shape
    modifies agg.Repr()
    ensures err.None? <==> job.Readable(data, skipHeader)
    ensures err.None? ==>
      && agg.View() == AddRows(job.shape, old(agg.View()), job.RowsIn(data, skipHeader))
      && rows == |job.RowsIn(data, skipHeader)| && skipped == job.BadIn(data, skipHeader)
    ensures err.Some? ==>
      var lines := job.DataLines(data, skipHeader);
      var i := job.format.FirstBad(lines);
      i < |lines| && err.value == RowFailed(i + 1, job.format.ParseLine(lines[i]).error)
    ensures agg.Valid() && forall x :: x in agg.Repr() ==> x in old(agg.Repr()) || fresh(x)
  {
    hide AddRows, RowsFit, Batches, Holding, Flatten, Aggregator.View, Aggregator.Valid, Aggregator.Repr,
         BatchPool.Valid, Job.DataLines, Job.BadIn, Job.RowsIn, Job.Readable, Format.FirstBad, Job.Valid;
    ghost var good, repr := job.RowsIn(data, skipHeader), agg.Repr();
    var bp, batches;
    bp, batches, skipped, err := ReadBeside(agg, job, data, skipHeader, agg.View(), repr);
    rows := 0;
    if err.None? {
      BatchesMeaning(good, job.Batching());
      rows := FoldBatches(agg, job, batches, bp, Batches(good, job.Batching()));
    }
  }

  /** Folds one batch, and releases it. */
  method AddAndRelease(agg: Aggregator, batch: Batch, bp: BatchPool, ghost rows: seq<Row>)
    requires agg.Valid() && batch.Valid() && batch.Rows() == rows && |batch.cols| == agg.shape.numColumns
    requires bp.Valid() && batch !in bp.idle && Typed(batch.cols, bp.types)
    requires batch !in agg.Repr() && bp !in agg.Repr() && forall b :: b in bp.idle ==> b !in agg.Repr()
    modifies agg.Repr(), bp
    ensures RowsFit(agg.shape, rows) && AllFit(agg.shape, old(agg.View()))
    ensures agg.Valid() && agg.View() == AddRows(agg.shape, old(agg.View()), rows)
    ensures bp.Valid() && bp.idle == old(bp.idle) + {batch}
    ensures forall x :: x in agg.Repr() ==> x in old(agg.Repr()) || fresh(x)
  {
    hide AddRows, RowsFit, RowsOf, AllFit, Typed, Aggregator.Valid, Aggregator.View, Tidy, AllParts;
    agg.ViewFits();
    var e := agg.AddBatch(batch);
    FootExists(agg.table.stored);
    bp.Put(batch);
  }

  /** Folds every batch received, and releases it. */
  method FoldBatches(agg: Aggregator, job: Job, batches: seq<Batch>, bp: BatchPool, ghost groups: seq<seq<Row>>)
    returns (rows: nat)
    requires job.Valid() && agg.Valid() && agg.shape == job.shape
    requires Holding(batches, job.format.types, groups) && RowsFit(job.shape, Flatten(groups))
    requires forall b :: b in batches ==> b !in agg.Repr() && b !in bp.idle
    requires forall i, j :: 0 <= i < j < |batches| ==> batches[i] != batches[j]
    requires bp.Valid() && bp.types == job.format.types && bp !in agg.Repr()
    requires forall b :: b in bp.idle ==> b !in agg.Repr()
    modifies agg.Repr(), bp
    ensures agg.View() == AddRows(job.shape, old(agg.View()), Flatten(groups)) && rows == |Flatten(groups)|
    ensures agg.Valid() && forall x :: x in agg.Repr() ==> x in old(agg.Repr()) || fresh(x)
    ensures bp.Valid() && forall b :: b in bp.idle <==> b in old(bp.idle) || b in batches
  {
    hide AddRows, RowsFit, Flatten, RowsOf, Aggregator.View, Aggregator.Valid, Aggregator.Repr, BatchPool.Valid;
    ghost var m := agg.View();
    rows := 0;
    agg.ViewFits();
    FlattenNone();
    PrefixFits(job.shape, groups, 0);
    AddNoRows(job.shape, m, []);
    for i := 0 to |batches|
      invariant agg.Valid() && RowsFit(job.shape, Flatten(groups[..i]))
      invariant agg.View() == AddRows(job.shape, m, Flatten(groups[..i])) && rows == |Flatten(groups[..i])|
      invariant forall b :: b in batches ==> b !in agg.Repr()
      invariant Holding(batches, job.format.types, groups)
      invariant forall x :: x in agg.Repr() ==> x in old(agg.Repr()) || fresh(x)
      invariant bp !in agg.Repr() && bp.Valid()
      invariant forall j :: 0 <= j < |batches| ==> (batches[j] in bp.idle <==> j < i)
      invariant forall b :: b in bp.idle ==> b in old(bp.idle) || b in batches
      invariant forall b :: b in old(bp.idle) ==> b in bp.idle
    {
      AddAndRelease(agg, batches[i], bp, groups[i]);
      rows := rows + batches[i].numRows;
      FlattenStep(groups, i);
      PrefixFits(job.shape, groups, i + 1);
      AddRowsConcat(job.shape, m, Flatten(groups[..i]), groups[i]);
    }
    assert groups[..|groups|] == groups;
  }

  lemma PartsFit(s: Shape, a: seq<Row>, b: seq<Row>)
    requires RowsFit(s, a + b)
    ensures RowsFit(s, a) && RowsFit(s, b)
  {
    assert forall r :: 0 <= r < |a| ==> (a + b)[r] == a[r];
    assert forall r :: 0 <= r < |b| ==> (a + b)[|a| + r] == b[r];
  }

  lemma FlattenStep(groups: seq<seq<Row>>, i: nat)
    requires i < |groups|
    ensures Flatten(groups[..i + 1]) == Flatten(groups[..i]) + groups[i]
  {
    hide Flatten;
    FlattenSnoc(groups[..i], groups[i]);
    assert groups[..i + 1] == groups[..i] + [groups[i]];
  }

  lemma PrefixFits(s: Shape, groups: seq<seq<Row>>, i: nat)
    requires RowsFit(s, Flatten(groups)) && i <= |groups|
    ensures RowsFit(s, Flatten(groups[..i]))
    ensures i > 0 ==> RowsFit(s, groups[i - 1])
  {
    hide RowsFit, Flatten;
    assert groups == groups[..i] + groups[i..];
    FlattenConcat(groups[..i], groups[i..]);
    PartsFit(s, Flatten(groups[..i]), Flatten(groups[i..]));
    if i > 0 {
      FlattenStep(groups, i - 1);
      PartsFit(s, Flatten(groups[..i - 1]), groups[i - 1]);
    }
  }

  lemma {:induction false} FlattenConcat(a: seq<seq<Row>>, b: seq<seq<Row>>)
    ensures Flatten(a + b) == Flatten(a) + Flatten(b)
  {
    if a == [] {
      assert a + b == b;
    } else {
      assert (a + b)[1..] == a[1..] + b;
      FlattenConcat(a[1..], b);
    }
  }
}
