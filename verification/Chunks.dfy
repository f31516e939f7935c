/** Dividing a file into byte ranges that can be read independently: naive equal ranges,
    then each boundary moved forward to just past a newline. */
module Chunks {
  import opened Words
  import opened Values
  import opened Lines

  datatype Chunk = Chunk(offset: int, length: int)
  {
    function End(): int { offset + length }
  }

  /** The chunks cover [0, size) in order, without gaps or overlaps; some may be empty. */
  predicate Tiles(chunks: seq<Chunk>, size: int) {
    && chunks != []
    && chunks[0].offset == 0 && chunks[|chunks| - 1].End() == size
    && (forall i :: 0 <= i < |chunks| ==> chunks[i].length >= 0)
    && (forall i :: 0 <= i < |chunks| - 1 ==> chunks[i + 1].offset == chunks[i].End())
  }

  lemma {:induction false} TilesInOrder(chunks: seq<Chunk>, size: int, i: nat, j: nat)
    requires Tiles(chunks, size) && i <= j < |chunks|
    ensures 0 <= chunks[i].offset <= chunks[j].offset <= chunks[j].End() <= size
    ensures chunks[i].End() <= chunks[j].End()
    decreases j - i
  {
    if i < j {
      TilesInOrder(chunks, size, i, j - 1);
      assert chunks[j].offset == chunks[j - 1].End();
      TilesInOrder(chunks, size, j, j);
    } else if j + 1 < |chunks| {
      AfterInOrder(chunks, size, j);
      BeforeInOrder(chunks, size, j);
    } else {
      BeforeInOrder(chunks, size, j);
    }
  }

  lemma {:induction false} AfterInOrder(chunks: seq<Chunk>, size: int, i: nat)
    requires Tiles(chunks, size) && i < |chunks|
    ensures chunks[i].End() <= size
    decreases |chunks| - i
  {
    if i + 1 < |chunks| {
      AfterInOrder(chunks, size, i + 1);
      assert chunks[i + 1].offset == chunks[i].End();
    }
  }

  lemma {:induction false} BeforeInOrder(chunks: seq<Chunk>, size: int, i: nat)
    requires Tiles(chunks, size) && i < |chunks|
    ensures 0 <= chunks[i].offset
  {
    if i > 0 {
      BeforeInOrder(chunks, size, i - 1);
      assert chunks[i].offset == chunks[i - 1].End();
    }
  }

  // ---------- planning ----------

  /** n roughly equal ranges; a count below 1 means 1, and an empty file gets one empty range. */
  method PlanChunks(size: int, n: int) returns (chunks: seq<Chunk>)
    ensures size >= 0 ==> Tiles(chunks, size)
    ensures |chunks| == if size <= 0 || n < 1 then 1 else n
    ensures size > 0 ==> forall i :: 0 <= i < |chunks| - 1 ==> chunks[i].length == size / |chunks|
    ensures size < 0 ==> chunks == [Chunk(0, 0)]
  {
    var parts: nat := if n < 1 then 1 else n;
    if size <= 0 {
      return [Chunk(0, 0)];
    }
    var base := size / parts;
    DivisionFits(size, parts);
    chunks := [];
    var offset := 0;
    for i := 0 to parts
      invariant |chunks| == i
      invariant i < parts ==> offset == i * base <= size
      invariant i > 0 ==> chunks[0].offset == 0 && chunks[i - 1].End() == offset
      invariant i == 0 ==> offset == 0
      invariant i == parts ==> offset == size
      invariant forall j :: 0 <= j < i ==> chunks[j].length >= 0 && (j < parts - 1 ==> chunks[j].length == base)
      invariant forall j :: 0 <= j < i - 1 ==> chunks[j + 1].offset == chunks[j].End()
    {
      var length := base;
      if i == parts - 1 {
        length := size - offset;
      } else {
        NextOffset(i, base, parts, size);
      }
      chunks := chunks + [Chunk(offset, length)];
      offset := offset + length;
    }
  }

  lemma DivisionFits(size: int, parts: nat)
    requires size > 0 && parts > 0
    ensures 0 <= size / parts && parts * (size / parts) <= size
  {
  }

  lemma NextOffset(i: nat, base: nat, parts: nat, size: int)
    requires i + 1 < parts && parts * base <= size
    ensures (i + 1) * base == i * base + base && (i + 1) * base <= size
  {
    MultipleGap(base, i + 1, parts);
    assert base * parts == parts * base && base * (i + 1) == (i + 1) * base;
  }

  // ---------- aligning ----------

  /** The windowed search finds the same place whatever the window size. */
  method FindNextNewline(data: bytes, from: int, window: nat) returns (end: int)
    requires 0 <= from && window > 0
    ensures end == if from >= |data| then |data| else NextNewline(data, from)
  {
    var size := |data|;
    if from >= size {
      return size;
    }
    var pos := from;
    while pos < size
      invariant from <= pos
      invariant forall j :: from <= j < pos && j < size ==> data[j] != NEWLINE
    {
      var length := if size - pos < window then size - pos else window;
      var idx := IndexByte(data[pos..pos + length], NEWLINE);
      if idx >= 0 {
        assert forall j :: pos <= j < pos + idx ==> data[j] == data[pos..pos + length][j - pos];
        NextNewlineUnique(data, from, pos + idx + 1);
        return pos + idx + 1;
      }
      assert forall j :: pos <= j < pos + length ==> data[j] == data[pos..pos + length][j - pos];
      pos := pos + window;
    }
    NextNewlineUnique(data, from, size);
    return size;
  }

  method IndexByte(data: bytes, b: byte) returns (idx: int)
    ensures -1 <= idx < |data|
    ensures idx >= 0 ==> data[idx] == b
    ensures forall j :: 0 <= j < (if idx < 0 then |data| else idx) ==> data[j] != b
  {
    for i := 0 to |data|
      invariant forall j :: 0 <= j < i ==> data[j] != b
    {
      if data[i] == b {
        return i;
      }
    }
    return -1;
  }

  function AlignedEnd(data: bytes, from: int): int
    requires 0 <= from
  {
    if from >= |data| then |data| else NextNewline(data, from)
  }

  lemma AlignedEndMonotone(data: bytes, p: int, q: int)
    requires 0 <= p <= q
    ensures 0 <= AlignedEnd(data, p) <= AlignedEnd(data, q) <= |data|
    ensures IsCut(data, AlignedEnd(data, p))
  {
    if p < |data| {
      NextNewlineMeaning(data, p);
    }
    if q < |data| {
      NextNewlineMonotone(data, p, q);
    }
  }

  /** Chunks that tile the data and split no line. */
  predicate Aligned(data: bytes, chunks: seq<Chunk>) {
    && Tiles(chunks, |data|)
    && forall i :: 0 <= i < |chunks| ==> chunks[i].offset >= 0 && IsCut(data, chunks[i].offset)
  }

  /** Where aligned chunk i starts: the naive boundary moved past the next newline. */
  function Boundary(data: bytes, chunks: seq<Chunk>, i: nat): int
    requires Tiles(chunks, |data|) && i <= |chunks|
  {
    if i == 0 then 0
    else if i == |chunks| then |data|
    else
      TilesInOrder(chunks, |data|, 0, i - 1);
      AlignedEnd(data, chunks[i - 1].End())
  }

  function AlignedChunk(data: bytes, chunks: seq<Chunk>, i: nat): Chunk
    requires Tiles(chunks, |data|) && i < |chunks|
  {
    Chunk(Boundary(data, chunks, i), Boundary(data, chunks, i + 1) - Boundary(data, chunks, i))
  }

  lemma BoundariesRise(data: bytes, chunks: seq<Chunk>, i: nat)
    requires Tiles(chunks, |data|) && i < |chunks|
    ensures 0 <= Boundary(data, chunks, i) <= Boundary(data, chunks, i + 1) <= |data|
    ensures IsCut(data, Boundary(data, chunks, i))
  {
    hide AlignedEnd;
    if i > 0 {
      TilesInOrder(chunks, |data|, i - 1, i);
      AlignedEndMonotone(data, chunks[i - 1].End(), chunks[i].End());
    }
    if i + 1 < |chunks| {
      TilesInOrder(chunks, |data|, 0, i);
      AlignedEndMonotone(data, chunks[i].End(), chunks[i].End());
    }
  }

  /** The aligned chunks still tile the file, one for one, and no boundary splits a line. */
  method AlignChunks(data: bytes, chunks: seq<Chunk>, window: nat) returns (aligned: seq<Chunk>)
    requires window > 0 && Tiles(chunks, |data|)
    ensures Aligned(data, aligned) && |aligned| == |chunks|
    ensures forall i :: 0 <= i < |chunks| ==> aligned[i] == AlignedChunk(data, chunks, i)
  {
    hide AlignedEnd, Boundary, Aligned, AlignedChunk;
    if |chunks| <= 1 {
      OneChunkIsAligned(data, chunks);
      AlignedChunksSplitNoLine(data, chunks, chunks);
      return chunks;
    }
    aligned := [];
    var start := chunks[0].offset;
    FirstBoundary(data, chunks);
    for i := 0 to |chunks|
      invariant |aligned| == i && start == Boundary(data, chunks, i)
      invariant forall j :: 0 <= j < i ==> aligned[j] == AlignedChunk(data, chunks, j)
    {
      var end := |data|;
      if i < |chunks| - 1 {
        TilesInOrder(chunks, |data|, 0, i);
        end := FindNextNewline(data, chunks[i].offset + chunks[i].length, window);
        InnerBoundary(data, chunks, i);
      } else {
        BoundaryEnds(data, chunks);
      }
      BetweenBoundaries(data, chunks, i);
      aligned := aligned + [Chunk(start, end - start)];
      start := end;
    }
    AlignedChunksSplitNoLine(data, chunks, aligned);
  }

  lemma AlignedChunksSplitNoLine(data: bytes, chunks: seq<Chunk>, aligned: seq<Chunk>)
    requires Tiles(chunks, |data|) && |aligned| == |chunks|
    requires forall i :: 0 <= i < |chunks| ==> aligned[i] == AlignedChunk(data, chunks, i)
    ensures Aligned(data, aligned)
  {
    hide Boundary;
    BoundaryEnds(data, chunks);
    forall i | 0 <= i < |chunks|
      ensures aligned[i].length >= 0 && aligned[i].offset >= 0 && IsCut(data, aligned[i].offset)
    {
      BoundariesRise(data, chunks, i);
    }
  }

  lemma OneChunkIsAligned(data: bytes, chunks: seq<Chunk>)
    requires Tiles(chunks, |data|) && |chunks| <= 1
    ensures |chunks| == 1 && chunks[0] == AlignedChunk(data, chunks, 0)
  {
  }

  lemma FirstBoundary(data: bytes, chunks: seq<Chunk>)
    requires Tiles(chunks, |data|)
    ensures chunks[0].offset == Boundary(data, chunks, 0)
  {
  }

  lemma BetweenBoundaries(data: bytes, chunks: seq<Chunk>, i: nat)
    requires Tiles(chunks, |data|) && i < |chunks|
    ensures AlignedChunk(data, chunks, i)
         == Chunk(Boundary(data, chunks, i), Boundary(data, chunks, i + 1) - Boundary(data, chunks, i))
  {
    hide Boundary;
  }

  lemma BoundaryEnds(data: bytes, chunks: seq<Chunk>)
    requires Tiles(chunks, |data|)
    ensures Boundary(data, chunks, 0) == 0 && Boundary(data, chunks, |chunks|) == |data|
  {
  }

  lemma InnerBoundary(data: bytes, chunks: seq<Chunk>, i: nat)
    requires Tiles(chunks, |data|) && i + 1 < |chunks|
    ensures chunks[i].End() >= 0
    ensures Boundary(data, chunks, i + 1) ==
            if chunks[i].End() >= |data| then |data| else NextNewline(data, chunks[i].End())
  {
    TilesInOrder(chunks, |data|, 0, i);
  }

  /** A boundary inside the file is moved just past the next newline, if there is one, and to the end
      of the file otherwise. */
  lemma BoundaryMeaning(data: bytes, chunks: seq<Chunk>, i: nat)
    requires Tiles(chunks, |data|) && 0 < i < |chunks|
    ensures var from, to := chunks[i - 1].End(), Boundary(data, chunks, i);
            && 0 <= from <= to <= |data|
            && (from < |data| ==> from < to && NEWLINE !in data[from..to - 1])
            && (to < |data| ==> data[to - 1] == NEWLINE)
  {
    hide NextNewline;
    TilesInOrder(chunks, |data|, i - 1, i - 1);
    NextNewlineMeaning(data, chunks[i - 1].End());
  }

  predicate StartsPastNewline(data: bytes, c: Chunk)
    requires 0 <= c.offset <= |data|
  {
    c.offset > 0 && data[c.offset - 1] == NEWLINE
  }

  /** An aligned chunk after the first starts just past a newline exactly when there is a
      newline at or after its naive boundary, or the file ends with one. */
  lemma StartsAfterNewline(data: bytes, chunks: seq<Chunk>, i: nat)
    requires Tiles(chunks, |data|) && 0 < i < |chunks|
    ensures 0 <= chunks[i - 1].End() <= |data| && 0 <= AlignedChunk(data, chunks, i).offset <= |data|
    ensures StartsPastNewline(data, AlignedChunk(data, chunks, i))
            <==> NEWLINE in data[chunks[i - 1].End()..] || (data != [] && data[|data| - 1] == NEWLINE)
  {
    hide NextNewline;
    var from := chunks[i - 1].End();
    TilesInOrder(chunks, |data|, i - 1, i - 1);
    TilesInOrder(chunks, |data|, 0, i - 1);
    if from < |data| {
      NextNewlineMeaning(data, from);
      var end := NextNewline(data, from);
      if data[end - 1] == NEWLINE {
        assert data[from..][end - 1 - from] == NEWLINE;
      }
    }
  }

  /** Such a chunk: dividing one unterminated line between two readers leaves the second an empty
      chunk that follows no newline. */
  lemma SomeChunkFollowsNoNewline()
    ensures var data: bytes, chunks := [97, 98], [Chunk(0, 1), Chunk(1, 1)];
            && Tiles(chunks, |data|)
            && AlignedChunk(data, chunks, 1) == Chunk(2, 0) && data[1] != NEWLINE
  {
    var data: bytes, chunks := [97, 98], [Chunk(0, 1), Chunk(1, 1)];
    TilesInOrder(chunks, |data|, 0, 0);
    NextNewlineUnique(data, 1, 2);
    BoundaryEnds(data, chunks);
  }

  // ---------- the lines of the chunks are the lines of the file ----------

  function Slice(data: bytes, c: Chunk): bytes
    requires 0 <= c.offset <= c.End() <= |data|
  {
    data[c.offset..c.End()]
  }

  function ChunkLines(data: bytes, chunks: seq<Chunk>, n: nat): seq<bytes>
    requires Tiles(chunks, |data|) && n <= |chunks|
  {
    if n == 0 then []
    else
      TilesInOrder(chunks, |data|, n - 1, n - 1);
      ChunkLines(data, chunks, n - 1) + LinesOf(Slice(data, chunks[n - 1]))
  }

  lemma {:induction false} ChunkLinesPrefix(data: bytes, chunks: seq<Chunk>, n: nat)
    requires Aligned(data, chunks) && 0 < n <= |chunks|
    ensures 0 <= chunks[n - 1].End() <= |data|
    ensures ChunkLines(data, chunks, n) == LinesOf(data[..chunks[n - 1].End()])
  {
    hide LinesOf;
    var c := chunks[n - 1];
    TilesInOrder(chunks, |data|, n - 1, n - 1);
    var front := data[..c.End()];
    assert Slice(data, c) == front[c.offset..];
    if n == 1 {
      assert front[c.offset..] == front;
    } else {
      ChunkLinesPrefix(data, chunks, n - 1);
      assert c.offset == chunks[n - 2].End();
      assert front[..c.offset] == data[..c.offset];
      LinesSplitAtCut(front, c.offset);
    }
  }

  /** However the file was chunked, the chunks' line lists joined in order are the file's. */
  lemma ShardsPreserveLines(data: bytes, chunks: seq<Chunk>)
    requires Aligned(data, chunks)
    ensures ChunkLines(data, chunks, |chunks|) == LinesOf(data)
  {
    hide LinesOf;
    ChunkLinesPrefix(data, chunks, |chunks|);
    assert data[..|data|] == data;
  }

  /** The whole first line, hence a header, is in the first chunk. */
  lemma FirstChunkHoldsFirstLine(data: bytes, chunks: seq<Chunk>)
    requires Tiles(chunks, |data|)
    ensures Boundary(data, chunks, 1) >= NextNewline(data, 0)
  {
    if |chunks| > 1 {
      TilesInOrder(chunks, |data|, 0, 0);
      AlignedEndMonotone(data, 0, chunks[0].End());
    }
  }
}
