/** The pieces of a file that separate readers take, and why together they hold the rows of
    the whole file. */
module Shards {
  import opened Values
  import opened Lines
  import opened Chunks
  import opened Rows
  import opened Ingest
  import opened Jobs

  /** Chunks as planned for a file: they split no line, and the first holds the first line. */
  predicate Planned(data: bytes, chunks: seq<Chunk>) {
    Chunks.Aligned(data, chunks) && chunks[0].End() >= NextNewline(data, 0)
  }

  /** Divides a file for n readers. */
  method PlanAligned(data: bytes, n: int, window: nat) returns (chunks: seq<Chunk>)
    requires window > 0
    ensures Planned(data, chunks)
    ensures |chunks| == if data == [] || n < 1 then 1 else n
  {
    hide NextNewline, AlignedChunk, Tiles, Chunks.Aligned, Planned;
    var naive := PlanChunks(|data|, n);
    chunks := AlignChunks(data, naive, window);
    AlignedIsPlanned(data, naive, chunks);
  }

  lemma AlignedIsPlanned(data: bytes, naive: seq<Chunk>, chunks: seq<Chunk>)
    requires Tiles(naive, |data|) && Chunks.Aligned(data, chunks) && |chunks| == |naive|
    requires forall i :: 0 <= i < |chunks| ==> chunks[i] == AlignedChunk(data, naive, i)
    ensures Planned(data, chunks)
  {
    hide NextNewline, Boundary, Chunks.Aligned;
    FirstChunkHoldsFirstLine(data, naive);
    BoundaryEnds(data, naive);
    assert chunks[0] == AlignedChunk(data, naive, 0);
  }

  /** Whether the reader of chunk i must drop a header. */
  predicate DropsHeader(job: Job, i: nat) { job.hasHeader && i == 0 }

  function PieceRows(job: Job, data: bytes, chunks: seq<Chunk>, i: nat): seq<Row>
    requires job.Valid() && Tiles(chunks, |data|) && i < |chunks|
  {
    TilesInOrder(chunks, |data|, i, i);
    job.RowsIn(Slice(data, chunks[i]), DropsHeader(job, i))
  }

  function PieceBads(job: Job, data: bytes, chunks: seq<Chunk>, i: nat): nat
    requires Tiles(chunks, |data|) && i < |chunks|
  {
    TilesInOrder(chunks, |data|, i, i);
    job.BadIn(Slice(data, chunks[i]), DropsHeader(job, i))
  }

  function RowsUpTo(job: Job, data: bytes, chunks: seq<Chunk>, n: nat): seq<Row>
    requires job.Valid() && Tiles(chunks, |data|) && n <= |chunks|
  {
    if n == 0 then [] else RowsUpTo(job, data, chunks, n - 1) + PieceRows(job, data, chunks, n - 1)
  }

  function BadsUpTo(job: Job, data: bytes, chunks: seq<Chunk>, n: nat): nat
    requires Tiles(chunks, |data|) && n <= |chunks|
  {
    if n == 0 then 0 else BadsUpTo(job, data, chunks, n - 1) + PieceBads(job, data, chunks, n - 1)
  }

  /** Content without a line in the first piece has no line at all. */
  lemma FirstPieceHasFirstLine(data: bytes, chunks: seq<Chunk>)
    requires Planned(data, chunks)
    ensures 0 <= chunks[0].offset <= chunks[0].End() <= |data|
    ensures LinesOf(Slice(data, chunks[0])) == [] ==> data == []
  {
    hide LinesOf;
    TilesInOrder(chunks, |data|, 0, 0);
    if data != [] {
      NextNewlineMeaning(data, 0);
      FirstLine(Slice(data, chunks[0]));
    }
  }

  lemma {:induction false} RowsOfPieces(job: Job, data: bytes, chunks: seq<Chunk>, n: nat)
    requires job.Valid() && Planned(data, chunks) && 0 < n <= |chunks|
    ensures RowsUpTo(job, data, chunks, n)
         == job.format.GoodRows(DropHeader(ChunkLines(data, chunks, n), job.hasHeader))
    ensures BadsUpTo(job, data, chunks, n)
         == job.format.CountBad(DropHeader(ChunkLines(data, chunks, n), job.hasHeader))
  {
    hide LinesOf, NextNewline, Format.GoodRows, Format.CountBad, Tiles;
    var f := job.format;
    TilesInOrder(chunks, |data|, n - 1, n - 1);
    var lines := LinesOf(Slice(data, chunks[n - 1]));
    if n == 1 {
      assert ChunkLines(data, chunks, 1) == [] + lines == lines;
      assert RowsUpTo(job, data, chunks, 1) == [] + PieceRows(job, data, chunks, 0) == PieceRows(job, data, chunks, 0);
    } else {
      RowsOfPieces(job, data, chunks, n - 1);
      var front := ChunkLines(data, chunks, n - 1);
      f.GoodRowsConcat(DropHeader(front, job.hasHeader), lines);
      HeaderIsInFront(job, data, chunks, n - 1, lines);
    }
  }

  lemma HeaderIsInFront(job: Job, data: bytes, chunks: seq<Chunk>, n: nat, lines: seq<bytes>)
    requires Planned(data, chunks) && 0 < n < |chunks|
    requires 0 <= chunks[n].offset <= chunks[n].End() <= |data| && lines == LinesOf(Slice(data, chunks[n]))
    ensures DropHeader(ChunkLines(data, chunks, n) + lines, job.hasHeader)
            == DropHeader(ChunkLines(data, chunks, n), job.hasHeader) + lines
  {
    hide LinesOf, NextNewline;
    var front := ChunkLines(data, chunks, n);
    if front == [] {
      FrontHasFirstLine(data, chunks, n);
      NoLines();
      assert lines == [];
    } else {
      assert (front + lines)[1..] == front[1..] + lines;
    }
  }

  lemma {:induction false} FrontHasFirstLine(data: bytes, chunks: seq<Chunk>, n: nat)
    requires Planned(data, chunks) && 0 < n <= |chunks|
    ensures ChunkLines(data, chunks, n) == [] ==> data == []
  {
    hide LinesOf, NextNewline;
    if n == 1 {
      FirstPieceHasFirstLine(data, chunks);
    } else {
      FrontHasFirstLine(data, chunks, n - 1);
    }
  }

  /** The pieces hold the rows and the bad lines of the file, with its header dropped once. */
  lemma PiecesHoldTheFile(job: Job, data: bytes, chunks: seq<Chunk>)
    requires job.Valid() && Planned(data, chunks)
    ensures RowsUpTo(job, data, chunks, |chunks|) == job.RowsIn(data, job.hasHeader)
    ensures BadsUpTo(job, data, chunks, |chunks|) == job.BadIn(data, job.hasHeader)
  {
    hide LinesOf, NextNewline, Format.GoodRows, Format.CountBad;
    RowsOfPieces(job, data, chunks, |chunks|);
    ShardsPreserveLines(data, chunks);
  }
}
