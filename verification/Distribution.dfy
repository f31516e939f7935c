/** The distributed execution: a coordinator gives each worker a shard of the file, collects
    snapshots of their groups, and merges them in shard order. */
module Distribution {
  import opened Values
  import opened Lines
  import opened Chunks
  import opened Groups
  import opened GroupAccums
  import opened Representations
  import opened States
  import opened Snapshots
  import opened Aggregators
  import opened Rows
  import opened Ingest
  import opened Jobs
  import opened Shards

  datatype Shard = Shard(addr: string, offset: int, length: int, skipHeader: bool)

  datatype ShardResult = ShardResult(groups: seq<GroupState>, rows: nat, skipped: nat)

  datatype DistributeError =
    | NoWorkers
    | NotDistributable
    | IngestFailed(cause: RowResult)
    | CallFailed

  // ---------- planning ----------

  function RangeOf(shard: Shard): Chunk { Chunk(shard.offset, shard.length) }

  function RangesOf(shards: seq<Shard>): (chunks: seq<Chunk>)
    ensures |chunks| == |shards| && forall i :: 0 <= i < |shards| ==> chunks[i] == RangeOf(shards[i])
  {
    seq(|shards|, i requires 0 <= i < |shards| => RangeOf(shards[i]))
  }

  /** The shards divide the file between lines, and only the first may drop a header. */
  predicate PlannedShards(data: bytes, hasHeader: bool, shards: seq<Shard>) {
    && Planned(data, RangesOf(shards))
    && forall i :: 0 <= i < |shards| ==> shards[i].skipHeader == (hasHeader && i == 0)
  }

  /** The bytes a shard's worker reads. */
  function ContentOf(data: bytes, shards: seq<Shard>, i: nat): bytes
    requires Planned(data, RangesOf(shards)) && i < |shards|
  {
    TilesInOrder(RangesOf(shards), |data|, i, i);
    Slice(data, RangesOf(shards)[i])
  }

  method PlanShards(data: bytes, workers: seq<string>, hasHeader: bool, window: nat)
    returns (r: Result<seq<Shard>, DistributeError>)
    requires window > 0
    ensures r == Err(NoWorkers) <==> workers == []
    ensures workers != [] ==>
      && r.Ok? && PlannedShards(data, hasHeader, r.value)
      && |r.value| == (if data == [] then 1 else |workers|)
      && forall i :: 0 <= i < |r.value| ==> r.value[i].addr == workers[i]
  {
    hide Planned;
    if |workers| == 0 {
      return Err(NoWorkers);
    }
    var aligned := PlanAligned(data, |workers|, window);
    var shards: seq<Shard> := [];
    for i := 0 to |aligned|
      invariant |shards| == i
      invariant forall j :: 0 <= j < i ==>
        shards[j] == Shard(workers[j], aligned[j].offset, aligned[j].length, hasHeader && j == 0)
    {
      shards := shards + [Shard(workers[i], aligned[i].offset, aligned[i].length, hasHeader && i == 0)];
    }
    assert RangesOf(shards) == aligned;
    return Ok(shards);
  }

  // ---------- one worker ----------

  /** The worker's answer holds every group, row and skip of its content. */
  ghost predicate Answers(job: Job, content: bytes, skipHeader: bool, r: ShardResult)
    requires job.Valid()
  {
    && Exports(r.groups, GroupBy(job.shape, job.RowsIn(content, skipHeader)))
    && r.rows == |job.RowsIn(content, skipHeader)|
    && r.skipped == job.BadIn(content, skipHeader)
  }

  method RunShard(job: Job, content: bytes, skipHeader: bool, hasher: Hasher)
    returns (r: Result<ShardResult, DistributeError>)
    requires job.Valid()
    ensures r.Ok? <==> Distributable(job.shape.spec) && job.Readable(content, skipHeader)
    ensures r.Ok? ==> Answers(job, content, skipHeader, r.value)
    ensures !Distributable(job.shape.spec) ==> r == Err(NotDistributable)
  {
    hide Aggregator.Valid, AddRows, Exports, Job.RowsIn, Job.BadIn, Aggregator.View, Aggregator.Repr, Job.Valid,
         Job.Readable, Distributable, ContentsOf, ArraysOf;
    if !Distributable(job.shape.spec) {
      return Err(NotDistributable);
    }
    ValidShape(job);
    var agg := new Aggregator(job.shape, hasher);
    var rows, skipped, err := FoldSource(agg, job, content, skipHeader);
    if err.Some? {
      return Err(IngestFailed(err.value));
    }
    var groups := ExportMessage(agg, agg.View());
    return Ok(ShardResult(groups, rows, skipped));
  }

  /** The groups of an aggregator as a message. */
  method ExportMessage(agg: Aggregator, ghost m: GroupMap) returns (groups: seq<GroupState>)
    requires agg.Valid() && agg.View() == m
    ensures Exports(groups, m)
  {
    hide Aggregator.Valid, Aggregator.View, Exports, ContentsOf, ArraysOf, Tidy, AllParts;
    FootExists(agg.table.stored);
    var snaps := agg.ExportState();
    assert agg.View() == m;
    ArraysExist(snaps);
    groups := Pack(snaps);
  }

  lemma ValidShape(job: Job)
    requires job.Valid()
    ensures job.shape.Valid()
  {
  }

  // ---------- merging the answers ----------

  ghost predicate AllAnswersFit(s: Shape, results: seq<ShardResult>)
    requires s.Valid()
  {
    forall i :: 0 <= i < |results| ==> AllStatesFit(s, results[i].groups)
  }

  /** The groups after merging the first n answers in shard order. */
  ghost function Merged(s: Shape, results: seq<ShardResult>, n: nat): (m: GroupMap)
    requires s.Valid() && Distributable(s.spec) && AllAnswersFit(s, results) && n <= |results|
    ensures AllFit(s, m)
  {
    if n == 0 then map[] else MergeStates(s, Merged(s, results, n - 1), results[n - 1].groups)
  }

  function RowsTotal(results: seq<ShardResult>, n: nat): nat
    requires n <= |results|
  {
    if n == 0 then 0 else RowsTotal(results, n - 1) + results[n - 1].rows
  }

  function SkippedTotal(results: seq<ShardResult>, n: nat): nat
    requires n <= |results|
  {
    if n == 0 then 0 else SkippedTotal(results, n - 1) + results[n - 1].skipped
  }

  /** Folds one answer into the aggregator. */
  method MergeAnswer(final: Aggregator, groups: seq<GroupState>) returns (err: Option<AggregateError>)
    requires final.Valid() && Distributable(final.shape.spec)
    modifies final.Repr()
    ensures final.shape.Valid() && AllFit(final.shape, old(final.View()))
    ensures err.None? <==> AllStatesFit(final.shape, groups)
    ensures err.None? ==> final.View() == MergeStates(final.shape, old(final.View()), groups)
    ensures final.Valid() && forall x :: x in final.Repr() ==> x in old(final.Repr()) || fresh(x)
  {
    hide Aggregator.Valid, Aggregator.View, AllStatesFit, MergeStates, ContentsOf, ArraysOf, Distributable, AllFit,
         Shape.Valid, Tidy, AllParts;
    final.ViewFits();
    FootExists(final.table.stored);
    ghost var m, was := final.View(), final.Repr();
    var snaps := Unpack(groups);
    assert final.Valid() && final.View() == m && final.Repr() == was;
    err := final.MergeState(snaps);
  }

  /** Folds every answer, in shard order, into an empty aggregator. */
  method MergeResults(final: Aggregator, results: seq<ShardResult>)
    returns (rows: nat, skipped: nat, err: Option<AggregateError>)
    requires final.Valid() && final.View() == map[] && Distributable(final.shape.spec)
    modifies final.Repr()
    ensures final.shape.Valid() && (err.None? <==> AllAnswersFit(final.shape, results))
    ensures err.None? ==>
      && final.View() == Merged(final.shape, results, |results|)
      && rows == RowsTotal(results, |results|) && skipped == SkippedTotal(results, |results|)
    ensures final.Valid() && forall x :: x in final.Repr() ==> x in old(final.Repr()) || fresh(x)
  {
    hide Aggregator.Valid, Aggregator.View, Aggregator.Repr, AllStatesFit, MergeStates, Distributable, AllFit,
         Shape.Valid;
    rows, skipped := 0, 0;
    final.ViewFits();
    for i := 0 to |results|
      invariant final.Valid() && rows == RowsTotal(results, i) && skipped == SkippedTotal(results, i)
      invariant AllAnswersFit(final.shape, results[..i])
      invariant final.View() == Merged(final.shape, results[..i], i)
      invariant forall x :: x in final.Repr() ==> x in old(final.Repr()) || fresh(x)
    {
      err := MergeAnswer(final, results[i].groups);
      if err.Some? {
        return;
      }
      rows, skipped := rows + results[i].rows, skipped + results[i].skipped;
      MergedPrefix(final.shape, results[..i + 1], i);
      assert results[..i + 1][..i] == results[..i];
    }
    assert results[..|results|] == results;
    return rows, skipped, None;
  }

  lemma {:induction false} MergedPrefix(s: Shape, results: seq<ShardResult>, n: nat)
    requires s.Valid() && Distributable(s.spec) && AllAnswersFit(s, results) && n <= |results|
    ensures AllAnswersFit(s, results[..n]) && Merged(s, results[..n], n) == Merged(s, results, n)
    decreases n
  {
    hide MergeStates, AllStatesFit;
    if n > 0 {
      MergedPrefix(s, results, n - 1);
      MergedPrefix(s, results[..n], n - 1);
      assert results[..n][..n - 1] == results[..n - 1];
    }
  }

  // ---------- the groups of typed rows have typed keys ----------

  predicate RowTyped(types: seq<ColumnType>, row: Row) {
    |row| == |types| && forall i :: 0 <= i < |types| ==> row[i].Type() == types[i]
  }

  predicate RowsTyped(types: seq<ColumnType>, rows: seq<Row>) {
    forall r :: 0 <= r < |rows| ==> RowTyped(types, rows[r])
  }

  lemma {:induction false} GoodRowsAreTyped(f: Format, lines: seq<bytes>)
    ensures RowsTyped(f.types, f.GoodRows(lines))
  {
    hide Format.FieldsOf, Format.ParseFields;
    if lines != [] {
      GoodRowsAreTyped(f, lines[1..]);
    }
  }

  lemma KeyIsTyped(job: Job, row: Row)
    requires job.Valid() && RowTyped(job.format.types, row)
    ensures |row| == job.shape.numColumns && KeyTyped(job.shape, job.shape.KeyOf(row))
  {
  }

  lemma {:induction false} GroupByKeysTyped(job: Job, rows: seq<Row>)
    requires job.Valid() && RowsFit(job.shape, rows) && RowsTyped(job.format.types, rows)
    ensures KeysTyped(job.shape, GroupBy(job.shape, rows))
  {
    hide KeyTyped, Shape.KeyOf, AddToGroup, NewGroup, Job.Valid, Shape.Valid, RowTyped;
    ValidShape(job);
    if rows != [] {
      GroupByKeysTyped(job, rows[..|rows| - 1]);
      KeyIsTyped(job, rows[|rows| - 1]);
    }
  }

  // ---------- the distributed answer ----------

  /** Every result is its worker's answer for its own shard. */
  ghost predicate AllAnswer(job: Job, data: bytes, shards: seq<Shard>, results: seq<ShardResult>)
    requires job.Valid() && PlannedShards(data, job.hasHeader, shards)
  {
    && |results| == |shards|
    && forall i :: 0 <= i < |shards| ==> Answers(job, ContentOf(data, shards, i), shards[i].skipHeader, results[i])
  }

  lemma AnswerOf(job: Job, data: bytes, shards: seq<Shard>, results: seq<ShardResult>, i: nat)
    requires job.Valid() && PlannedShards(data, job.hasHeader, shards) && AllAnswer(job, data, shards, results)
    requires i < |shards|
    ensures var rows := PieceRows(job, data, RangesOf(shards), i);
            && RowsFit(job.shape, rows) && Exports(results[i].groups, GroupBy(job.shape, rows))
            && KeysTyped(job.shape, GroupBy(job.shape, rows))
            && results[i].rows == |rows| && results[i].skipped == PieceBads(job, data, RangesOf(shards), i)
  {
    hide Exports, GroupBy, Tiles, KeysTyped, RowsTyped, Format.GoodRows, Format.CountBad, LinesOf;
    TilesInOrder(RangesOf(shards), |data|, i, i);
    var content := ContentOf(data, shards, i);
    GoodRowsAreTyped(job.format, job.DataLines(content, shards[i].skipHeader));
    GroupByKeysTyped(job, job.RowsIn(content, shards[i].skipHeader));
  }

  /** The merged answers are an aggregate of the rows of their shards. */
  lemma {:induction false} MergedRepresentsRows(job: Job, data: bytes, shards: seq<Shard>, results: seq<ShardResult>,
                                                n: nat)
    requires job.Valid() && Distributable(job.shape.spec) && PlannedShards(data, job.hasHeader, shards)
    requires AllAnswer(job, data, shards, results) && n <= |shards|
    ensures AllAnswersFit(job.shape, results[..n])
    ensures Represents(job.shape, Merged(job.shape, results[..n], n), RowsUpTo(job, data, RangesOf(shards), n))
    ensures RowsTotal(results, n) == |RowsUpTo(job, data, RangesOf(shards), n)|
    ensures SkippedTotal(results, n) == BadsUpTo(job, data, RangesOf(shards), n)
  {
    hide Exports, GroupBy, Tiles, KeysTyped, PieceRows, PieceBads, MergeStates, MergeMaps, Answers, RowsFit, Merged,
         AllAnswersFit, StateFits, AllFit, NextNewline, Represents, Distributable;
    if n == 0 {
      NothingRepresented(job.shape);
      NothingMerged(job.shape, results);
    } else {
      var chunks := RangesOf(shards);
      MergedRepresentsRows(job, data, shards, results, n - 1);
      AnswerOf(job, data, shards, results, n - 1);
      var front, piece := RowsUpTo(job, data, chunks, n - 1), PieceRows(job, data, chunks, n - 1);
      var merged := Merged(job.shape, results[..n - 1], n - 1);
      RepresentedFits(job.shape, merged, front);
      GroupByMeaning(job.shape, piece);
      MergeStatesIsMergeMaps(job.shape, merged, results[n - 1].groups, GroupBy(job.shape, piece));
      MergeRepresents(job.shape, merged, GroupBy(job.shape, piece), front, piece);
      OneMoreAnswer(job.shape, results, n);
    }
  }

  lemma NothingMerged(s: Shape, results: seq<ShardResult>)
    requires s.Valid() && Distributable(s.spec)
    ensures AllAnswersFit(s, results[..0]) && Merged(s, results[..0], 0) == map[]
  {
  }

  lemma OneMoreAnswer(s: Shape, results: seq<ShardResult>, n: nat)
    requires s.Valid() && Distributable(s.spec) && 0 < n <= |results|
    requires AllAnswersFit(s, results[..n - 1]) && AllStatesFit(s, results[n - 1].groups)
    ensures AllAnswersFit(s, results[..n])
    ensures Merged(s, results[..n], n)
            == MergeStates(s, Merged(s, results[..n - 1], n - 1), results[n - 1].groups)
  {
    hide MergeStates, AllStatesFit, Distributable, Shape.Valid;
    assert forall i :: 0 <= i < n - 1 ==> results[..n][i] == results[..n - 1][i];
    assert results[..n][..n - 1] == results[..n - 1];
    MergedPrefix(s, results[..n], n - 1);
  }

  /** Distributed equals single-reader: whatever the content, the number of workers and each
      worker's hash seed, if every shard is answered then merging the answers in shard order
      gives an aggregate of the whole file's rows, with the row count and skip count of reading it
      at once. Where order leaves no trace it is the single reader's answer. */
  lemma DistributedEqualsSingle(job: Job, data: bytes, shards: seq<Shard>, results: seq<ShardResult>)
    requires job.Valid() && Distributable(job.shape.spec) && PlannedShards(data, job.hasHeader, shards)
    requires AllAnswer(job, data, shards, results)
    ensures AllAnswersFit(job.shape, results)
    ensures var m, rows := Merged(job.shape, results, |results|), job.RowsIn(data, job.hasHeader);
            && Represents(job.shape, m, rows)
            && (Determined(job.shape, rows) ==> m == job.Answer(data))
            && RowsTotal(results, |results|) == |rows|
            && SkippedTotal(results, |results|) == job.BadIn(data, job.hasHeader)
  {
    hide Merged, GroupBy, Job.RowsIn, Job.BadIn, Planned, AllAnswersFit, Represents, Determined;
    assert |results| == |shards|;
    MergedRepresentsRows(job, data, shards, results, |shards|);
    PiecesHoldTheFile(job, data, RangesOf(shards));
    assert results[..|results|] == results;
    var m, rows := Merged(job.shape, results, |results|), job.RowsIn(data, job.hasHeader);
    GroupByMeaning(job.shape, rows);
    RepresentationsAgree(job.shape, m, GroupBy(job.shape, rows), rows);
  }

  lemma {:induction false} NoBadsUpTo(job: Job, data: bytes, chunks: seq<Chunk>, n: nat)
    requires Tiles(chunks, |data|) && n <= |chunks|
    ensures BadsUpTo(job, data, chunks, n) == 0 <==> forall i :: 0 <= i < n ==> PieceBads(job, data, chunks, i) == 0
  {
    hide PieceBads, Tiles;
    if n > 0 {
      NoBadsUpTo(job, data, chunks, n - 1);
    }
  }

  /** Every shard can be read exactly when the whole file can. */
  lemma ReadableInPieces(job: Job, data: bytes, shards: seq<Shard>)
    requires job.Valid() && PlannedShards(data, job.hasHeader, shards)
    ensures (forall i :: 0 <= i < |shards| ==> job.Readable(ContentOf(data, shards, i), shards[i].skipHeader))
            <==> job.Readable(data, job.hasHeader)
  {
    hide Job.BadIn, Tiles, NextNewline;
    var chunks := RangesOf(shards);
    NoBadsUpTo(job, data, chunks, |chunks|);
    PiecesHoldTheFile(job, data, chunks);
    forall i | 0 <= i < |shards|
      ensures job.BadIn(ContentOf(data, shards, i), shards[i].skipHeader) == PieceBads(job, data, chunks, i)
    {
      TilesInOrder(chunks, |data|, i, i);
    }
  }
}
