/** From the bytes of a file to its sorted report, by one reader, by goroutines and by worker
    processes: the reports are the same. */
module EndToEnd {
  import opened Values
  import opened ColumnBatches
  import opened Groups
  import opened Representations
  import opened States
  import opened Aggregators
  import opened Chunks
  import opened Ingest
  import opened Jobs
  import opened Shards
  import Pipeline
  import Completeness
  import Liveness
  import opened Parallel
  import opened ParallelRuns
  import opened Distribution
  import opened Coordination
  import opened Outputs
  import opened Results
  import opened Reports
  import opened Lines
  import opened Tables

  lemma AggregateIsTyped(job: Job, data: bytes, m: GroupMap)
    requires job.Valid() && Represents(job.shape, m, job.RowsIn(data, job.hasHeader))
    ensures KeysTyped(job.shape, m)
  {
    hide GroupBy, Represents, KeyTyped, RowsTyped, Job.DataLines, RowsFit;
    var rows := job.RowsIn(data, job.hasHeader);
    GoodRowsAreTyped(job.format, job.DataLines(data, job.hasHeader));
    GroupByKeysTyped(job, rows);
    GroupByMeaning(job.shape, rows);
    RepresentationsAgree(job.shape, GroupBy(job.shape, rows), m, rows);
  }

  /** Two keys of the file tie, so that its report has no one order. */
  ghost predicate Ties(job: Job, data: bytes)
    requires job.Valid()
  {
    RowsTie(job.shape, job.RowsIn(data, job.hasHeader))
  }

  /** A report of some aggregate of the file's rows. */
  ghost predicate ReportsFile(job: Job, data: bytes, groups: seq<GroupResult>, m: GroupMap)
    requires job.Valid()
  {
    Represents(job.shape, m, job.RowsIn(data, job.hasHeader)) && IsReport(job.shape, groups, m)
  }

  /** Reports an aggregator that has taken in the file. */
  method ReportAll(agg: Aggregator, job: Job, data: bytes, ghost m: GroupMap) returns (groups: seq<GroupResult>)
    requires job.Valid() && agg.Valid() && agg.shape == job.shape && agg.View() == m
    requires Represents(job.shape, m, job.RowsIn(data, job.hasHeader))
    modifies agg.Repr()
    ensures ReportsFile(job, data, groups, m)
  {
    hide Represents, Aggregator.Valid, Aggregator.View, Aggregator.Repr, IsReport, KeysTyped;
    AggregateIsTyped(job, data, m);
    groups := Report(agg);
  }

  /** One reader. */
  method ReportSingle(job: Job, data: bytes, hasher: Hasher) returns (r: Result<seq<GroupResult>, RowResult>)
    requires job.Valid()
    ensures r.Ok? <==> job.Readable(data, job.hasHeader)
    ensures r.Ok? ==> ReportsFile(job, data, r.value, job.Answer(data))
  {
    hide Represents, Aggregator.Valid, Aggregator.View, Aggregator.Repr, IsReport, AddRows, Job.RowsIn, Job.BadIn,
         Job.Readable, ReportsFile, Job.Valid;
    ValidShape(job);
    var agg := new Aggregator(job.shape, hasher);
    var rows, skipped, err := FoldSource(agg, job, data, job.hasHeader);
    if err.Some? {
      return Err(err.value);
    }
    GroupByMeaning(job.shape, job.RowsIn(data, job.hasHeader));
    var groups := ReportAll(agg, job, data, job.Answer(data));
    return Ok(groups);
  }

  /** A coordinator and its workers. */
  method ReportDistributed(job: Job, data: bytes, shards: seq<Shard>, order: seq<nat>, hashers: seq<Hasher>,
                           own: Hasher)
    returns (r: Result<seq<GroupResult>, DistributeError>, ghost m: GroupMap)
    requires job.Valid() && PlannedShards(data, job.hasHeader, shards) && |hashers| == |shards|
    requires (forall k :: 0 <= k < |order| ==> order[k] < |shards|) && forall i :: 0 <= i < |shards| ==> i in order
    ensures r.Ok? <==> Distributable(job.shape.spec) && job.Readable(data, job.hasHeader)
    ensures r.Ok? ==> ReportsFile(job, data, r.value, m)
  {
    hide Represents, Aggregator.Valid, Aggregator.View, Aggregator.Repr, IsReport, GroupBy, Job.RowsIn, Job.BadIn,
         Job.Readable, ReportsFile, Job.Valid, PlannedShards, Distributable, Determined;
    ValidShape(job);
    m := map[];
    var run := RunDistributed(job, data, shards, order, hashers, own);
    if run.Err? {
      return Err(run.error), m;
    }
    m := run.value.0.View();
    var groups := ReportAll(run.value.0, job, data, m);
    return Ok(groups), m;
  }

  /** Workers of one process, which receive the file's rows in batches, in any order. */
  method ReportParallel(job: Job, data: bytes, batches: seq<Batch>, workers: int, receiver: seq<nat>,
                        hashers: seq<Hasher>, ghost groups: seq<seq<Row>>)
    returns (r: Result<seq<GroupResult>, AggregateError>, ghost m: GroupMap)
    requires job.Valid() && Hold(batches, groups)
    requires multiset(Flatten(groups)) == multiset(job.RowsIn(data, job.hasHeader))
    requires |hashers| == Workers(workers)
    requires |receiver| == |batches| && forall k :: 0 <= k < |receiver| ==> receiver[k] < Workers(workers)
    ensures r.Ok? <==>
      && (forall k :: 0 <= k < |batches| ==> |batches[k].cols| == job.shape.numColumns)
      && (Workers(workers) == 1 || !HasNaNQuantile(job.shape.spec))
    ensures r.Ok? ==> ReportsFile(job, data, r.value, m)
  {
    hide Represents, Aggregator.Valid, Aggregator.View, Aggregator.Repr, IsReport, GroupBy, Job.RowsIn, ReportsFile,
         Job.Valid, Flatten, Hold, HasNaNQuantile, Determined;
    ValidShape(job);
    m := map[];
    var run := RunParallel(job.shape, batches, workers, receiver, hashers, groups);
    if run.Err? {
      return Err(run.error), m;
    }
    m := run.value.0.View();
    RepresentsAnyOrder(job.shape, m, Flatten(groups), job.RowsIn(data, job.hasHeader));
    var report := ReportAll(run.value.0, job, data, m);
    return Ok(report), m;
  }

  /** Any two reports of a file without ties, whoever made them, differ at most in the values of
      percentiles and the rounding of float sums and averages, and not at all where order leaves no
      trace. */
  lemma ReportsOfAFile(job: Job, data: bytes, p: seq<GroupResult>, q: seq<GroupResult>, a: GroupMap, b: GroupMap)
    requires job.Valid() && ReportsFile(job, data, p, a) && ReportsFile(job, data, q, b) && !Ties(job, data)
    ensures |p| == |q| && forall i :: 0 <= i < |p| ==> ResultsAgree(p[i], q[i])
    ensures Determined(job.shape, job.RowsIn(data, job.hasHeader)) ==> p == q
  {
    hide Represents, IsReport, RowsTie, KeysTyped, Job.RowsIn, ResultsAgree, Determined;
    AggregateIsTyped(job, data, a);
    ReportsAgree(job.shape, a, b, job.RowsIn(data, job.hasHeader), p, q);
  }

  /** The coordinator's report is the single reader's, line by line, but for the rounding of float
      sums and averages. */
  method DistributedReportsAlike(job: Job, data: bytes, shards: seq<Shard>, order: seq<nat>, hashers: seq<Hasher>,
                                 own: Hasher, alone: Hasher)
    returns (p: Result<seq<GroupResult>, DistributeError>, q: Result<seq<GroupResult>, RowResult>)
    requires job.Valid() && PlannedShards(data, job.hasHeader, shards) && |hashers| == |shards|
    requires (forall k :: 0 <= k < |order| ==> order[k] < |shards|) && forall i :: 0 <= i < |shards| ==> i in order
    ensures p.Ok? <==> Distributable(job.shape.spec) && job.Readable(data, job.hasHeader)
    ensures p.Ok? ==> q.Ok?
    ensures p.Ok? && !Ties(job, data) ==>
      && |p.value| == |q.value| && (forall i :: 0 <= i < |p.value| ==> ResultsAgree(p.value[i], q.value[i]))
      && (Determined(job.shape, job.RowsIn(data, job.hasHeader)) ==> p.value == q.value)
  {
    hide ReportsFile, Ties, Job.Readable, Distributable, PlannedShards, Job.Valid, GroupBy, Job.RowsIn, ResultsAgree,
         Determined;
    ghost var m;
    p, m := ReportDistributed(job, data, shards, order, hashers, own);
    q := ReportSingle(job, data, alone);
    if p.Ok? && !Ties(job, data) {
      ReportsOfAFile(job, data, p.value, q.value, m, job.Answer(data));
    }
  }

  // ---------- what a file's report says ----------

  /** Whoever made it, a report of a file has one group for every key among the file's rows, in
      ascending order, with the result of the rows with that key. */
  lemma ReportOfFile(job: Job, data: bytes, groups: seq<GroupResult>, m: GroupMap)
    requires job.Valid() && ReportsFile(job, data, groups, m)
    ensures ReportsRows(job.shape, job.RowsIn(data, job.hasHeader), groups) && Ascends(groups)
  {
    hide Represents, IsReport, KeysTyped, Job.RowsIn, ReportsRows, Ascends, AllFit;
    AggregateIsTyped(job, data, m);
    ReportMeaning(job.shape, groups, m, job.RowsIn(data, job.hasHeader));
  }

  /** The report of a printed table is one of the table's rows: parsing, whoever does it, loses
      nothing and adds nothing. */
  lemma ReportOfTable(job: Job, header: bytes, lines: seq<bytes>, table: seq<seq<bytes>>, quoted: seq<seq<bool>>,
                      rows: seq<Row>, front: seq<bytes>, crlf: seq<bool>, last: bytes,
                      groups: seq<GroupResult>, m: GroupMap)
    requires job.Valid() && PrintsTable(job.format, lines, table, quoted) && IsPlainLine(header)
    requires |rows| == |table| && forall i :: 0 <= i < |rows| ==> ReadsAs(job.format, table[i], rows[i])
    requires |front| == |crlf| && front + (if last == [] then [] else [last])
             == (if job.hasHeader then [header] else []) + lines
    requires ReportsFile(job, PrintLines(front, crlf) + last, groups, m)
    ensures RowsFit(job.shape, rows) && ReportsRows(job.shape, rows, groups) && Ascends(groups)
  {
    hide PrintsTable, ReadsAs, IsPlainLine, PrintLines, ReportsFile, ReportsRows, Ascends, Job.RowsIn, Job.BadIn,
         Job.Valid;
    PrintedTableReads(job, header, lines, table, quoted, rows, front, crlf, last);
    ReportOfFile(job, PrintLines(front, crlf) + last, groups, m);
  }

  // ---------- the goroutines get there ----------

  function ConfigOf(job: Job): Pipeline.Config { Pipeline.Config(job.Batching(), !job.onError.SkipBadRows?) }

  lemma PlanTiles(data: bytes, chunks: seq<Chunk>)
    requires Planned(data, chunks)
    ensures Tiles(chunks, |data|)
  {
    hide Tiles;
  }

  /** Some schedule of the goroutines brings every run to its end, with success exactly when the
      file can be read; its answer is then the single reader's. */
  lemma AnswerIsReached(job: Job, data: bytes, chunks: seq<Chunk>, workers: int)
    returns (s: Pipeline.State, steps: seq<Pipeline.Step>)
    requires job.Valid() && Planned(data, chunks)
    ensures Pipeline.Initial(ConfigOf(job), Inputs(job, data, chunks, |chunks|), s) && |s.ws| == Workers(workers)
    ensures Pipeline.Runs(ConfigOf(job), s, steps)
    ensures var t := Pipeline.After(ConfigOf(job), s, steps);
            && Completeness.Done(t) && (Completeness.ReportsSuccess(t) <==> job.Readable(data, job.hasHeader))
            && (Completeness.ReportsSuccess(t) ==>
                  && t.ws != [] && WorkersFit(job.shape, t.ws)
                  && Represents(job.shape, MergeInOrder(job.shape, MapsOf(job.shape, t.ws)),
                                job.RowsIn(data, job.hasHeader)))
  {
    hide Pipeline.Runs, Pipeline.After, Completeness.Done, Completeness.ReportsSuccess, Represents, MergeInOrder,
         MapsOf, WorkersFit, Inputs, Planned, Job.RowsIn, Job.BadIn, Job.Valid, Tiles;
    PlanTiles(data, chunks);
    var c, inputs := ConfigOf(job), Inputs(job, data, chunks, |chunks|);
    s := Pipeline.State(
      seq(|inputs|, i requires 0 <= i < |inputs| => Pipeline.Producer(inputs[i], Pipeline.Opening)),
      seq(Workers(workers), _ => Pipeline.Worker([], 0, Pipeline.Receiving)),
      Pipeline.Shared(0, map[], multiset{}, false, false, false, 0, multiset{}));
    steps := Liveness.FinishedRunExists(c, inputs, s);
    InputsMeaning(job, data, chunks, |chunks|);
    PiecesHoldTheFile(job, data, chunks);
    if Completeness.ReportsSuccess(Pipeline.After(c, s, steps)) {
      ParallelEqualsSingle(job, data, chunks, c, s, steps);
    }
  }
}
