/** One chunk's producer: parse rows one at a time, and hand them on in batches. */
module Ingest {
  import opened Sequences
  import opened Values
  import opened Lines
  import opened Fields
  import opened ColumnBatches
  import opened Rows

  datatype RowResult = RowOK | RowSkipped | RowEOF | RowFailed(lineNo: int, e: RowError)

  class RowParser {
    const format: Format
    const lr: LineReader
    const skipHeader: bool
    const onError: ErrorPolicy
    var lineNo: int
    var headerHandled: bool
    /** The calls made to the skipped-row callback. */
    var skipped: seq<(int, RowError)>

    ghost predicate Valid()
      reads this, lr
    {
      lr.Valid()
    }

    /** The data lines not parsed yet: all that are left, less a header still to be dropped. */
    ghost function Pending(): seq<bytes>
      requires Valid()
      reads this, lr
    {
      DropHeader(LinesOf(lr.Rest()), skipHeader && !headerHandled)
    }

    constructor (lr: LineReader, format: Format, skipHeader: bool, onError: ErrorPolicy)
      requires lr.Valid()
      ensures Valid() && Pending() == DropHeader(LinesOf(lr.Rest()), skipHeader)
      ensures this.lr == lr && this.format == format && this.onError == onError && skipped == [] && lineNo == 0
    {
      this.lr, this.format, this.skipHeader, this.onError := lr, format, skipHeader, onError;
      lineNo, headerHandled, skipped := 0, false, [];
    }

    method HandleHeader() returns (eof: bool)
      requires Valid() && !headerHandled
      modifies this`headerHandled, lr
      ensures Valid() && headerHandled && Pending() == old(Pending())
      ensures eof ==> Pending() == []
    {
      hide LinesOf;
      headerHandled := true;
      if !skipHeader {
        return false;
      }
      ghost var lines := LinesOf(lr.Rest());
      NoLines();
      var line := lr.ReadLine();
      return line.None?;
    }

    /** Parses the next data line into the batch: all of its values, or none of them. */
    method Next(batch: Batch) returns (res: RowResult)
      requires Valid() && batch.Valid() && Typed(batch.cols, format.types)
      modifies this, lr, batch
      ensures Valid() && batch.Valid() && Typed(batch.cols, format.types)
      ensures old(Pending()) == [] ==>
        && res == RowEOF && Pending() == [] && lineNo == old(lineNo)
        && skipped == old(skipped) && batch.Rows() == old(batch.Rows())
      ensures old(Pending()) != [] ==>
        && Pending() == old(Pending())[1..]
        && lineNo == old(lineNo) + 1
        && match format.ParseLine(old(Pending())[0]) {
             case Ok(row) => res == RowOK && skipped == old(skipped) && batch.Rows() == old(batch.Rows()) + [row]
             case Err(e) =>
               && batch.Rows() == old(batch.Rows())
               && (onError.FailOnBadRow? ==> res == RowFailed(lineNo, e) && skipped == old(skipped))
               && (onError.SkipBadRows? ==> res == RowSkipped && skipped == old(skipped) + [(lineNo, e)])
           }
    {
      hide LinesOf, RowsOf, Typed, Format.ParseLine;
      if !headerHandled {
        var eof := HandleHeader();
        if eof {
          return RowEOF;
        }
      }
      NoLines();
      ghost var pending := LinesOf(lr.Rest());
      var line := lr.ReadLine();
      if line.None? {
        return RowEOF;
      }
      assert pending[0] == line.value && pending[1..] == LinesOf(lr.Rest());
      lineNo := lineNo + 1;
      var parsed := ParseRow(format, line.value);
      match parsed {
        case Err(e) =>
          res := HandleRowError(e);
        case Ok(row) =>
          AppendRow(batch, row, format.types);
          res := RowOK;
      }
    }

    method HandleRowError(e: RowError) returns (res: RowResult)
      modifies this`skipped
      ensures onError.FailOnBadRow? ==> res == RowFailed(lineNo, e) && skipped == old(skipped)
      ensures onError.SkipBadRows? ==> res == RowSkipped && skipped == old(skipped) + [(lineNo, e)]
    {
      if onError == FailOnBadRow {
        return RowFailed(lineNo, e);
      }
      skipped := skipped + [(lineNo, e)];
      return RowSkipped;
    }
  }

  function DropHeader(lines: seq<bytes>, skip: bool): seq<bytes> {
    if skip && lines != [] then lines[1..] else lines
  }

  /** Splits a line and parses every field into a scratch row before anything is committed. */
  method ParseRow(format: Format, line: bytes) returns (r: Result<Row, RowError>)
    ensures r == format.ParseLine(line)
  {
    hide Split, SplitQuoted;
    var fields: seq<bytes>;
    if format.quoteAware {
      var split := SplitFieldsQuoted(line, format.DelimiterOrDefault());
      match split {
        case Err(e) => return Err(BadQuoting(e));
        case Ok(fs) => fields := fs;
      }
    } else {
      fields := SplitFields(line, format.DelimiterOrDefault());
    }
    if |fields| != |format.types| {
      return Err(WrongFieldCount);
    }
    var values: Row := [];
    for i := 0 to |fields|
      invariant format.ParseFields(fields, i) == Ok(values)
    {
      var v := format.ParseField(format.types[i], fields[i]);
      if v.None? {
        FirstBadField(format, fields, i, |fields|);
        return Err(BadField(i));
      }
      values := values + [v.value];
    }
    return Ok(values);
  }

  lemma {:induction false} FirstBadField(format: Format, fields: seq<bytes>, i: nat, n: nat)
    requires i < n <= |fields| == |format.types|
    requires format.ParseFields(fields, i).Ok? && format.ParseField(format.types[i], fields[i]).None?
    ensures format.ParseFields(fields, n) == Err(BadField(i))
  {
    if i + 1 < n {
      FirstBadField(format, fields, i, n - 1);
    }
  }

  // ---------- batching ----------

  /** Rows in groups of n, the last group possibly smaller. */
  function Batches(rows: seq<Row>, n: nat): seq<seq<Row>>
    requires n > 0
  {
    if rows == [] then []
    else if |rows| <= n then [rows]
    else [rows[..n]] + Batches(rows[n..], n)
  }

  function Flatten(groups: seq<seq<Row>>): seq<Row> {
    if groups == [] then [] else groups[0] + Flatten(groups[1..])
  }

  /** Batching loses and reorders nothing; batches are nonempty, and full but for the last. */
  lemma {:induction false} BatchesMeaning(rows: seq<Row>, n: nat)
    requires n > 0
    ensures Flatten(Batches(rows, n)) == rows
    ensures forall i :: 0 <= i < |Batches(rows, n)| ==> 0 < |Batches(rows, n)[i]| <= n
    ensures forall i :: 0 <= i < |Batches(rows, n)| - 1 ==> |Batches(rows, n)[i]| == n
  {
    if rows == [] {
    } else if |rows| <= n {
      assert Flatten([rows]) == rows + Flatten([]);
    } else {
      BatchesMeaning(rows[n..], n);
      assert rows == rows[..n] + rows[n..];
    }
  }

  lemma BatchesCons(first: seq<Row>, rest: seq<Row>, n: nat)
    requires n > 0 && |first| == n
    ensures Batches(first + rest, n) == [first] + Batches(rest, n)
  {
    if rest == [] {
      assert first + rest == first && [first] + [] == [first];
    } else {
      assert (first + rest)[..n] == first && (first + rest)[n..] == rest;
    }
  }

  /** Full groups followed by less than a full one are what batching makes of their rows. */
  lemma {:induction false} FullBatches(full: seq<seq<Row>>, last: seq<Row>, n: nat)
    requires n > 0 && |last| < n
    requires forall i :: 0 <= i < |full| ==> |full[i]| == n
    ensures Batches(Flatten(full) + last, n) == full + (if last == [] then [] else [last])
  {
    if full == [] {
      assert Flatten(full) + last == last;
    } else {
      hide Batches;
      var tail := if last == [] then [] else [last];
      FullBatches(full[1..], last, n);
      ConcatAssociates(full[0], Flatten(full[1..]), last);
      BatchesCons(full[0], Flatten(full[1..]) + last, n);
      SplitFirst(full);
      ConcatAssociates([full[0]], full[1..], tail);
    }
  }

  lemma {:induction false} FlattenSnoc(groups: seq<seq<Row>>, last: seq<Row>)
    ensures Flatten(groups + [last]) == Flatten(groups) + last
  {
    if groups == [] {
      assert groups + [last] == [last];
      assert Flatten([last]) == last + Flatten([]);
    } else {
      assert (groups + [last])[1..] == groups[1..] + [last];
      FlattenSnoc(groups[1..], last);
    }
  }

  /** The batches have these column types and stand for these groups of rows. */
  ghost predicate Holding(out: seq<Batch>, types: seq<ColumnType>, groups: seq<seq<Row>>)
    reads out
  {
    && |out| == |groups|
    && forall i :: 0 <= i < |out| ==> out[i].Valid() && Typed(out[i].cols, types) && out[i].Rows() == groups[i]
  }

  /** Where a drain's batches are: each is emitted once, or idle in the pool. */
  ghost predicate Accounted(before: set<Batch>, out: seq<Batch>, idle: set<Batch>) {
    && (forall i, j :: 0 <= i < j < |out| ==> out[i] != out[j])
    && (forall b :: b in out ==> b !in idle)
    && (forall b :: b in before ==> b in out || b in idle)
  }

  lemma NothingEmitted(before: set<Batch>, idle: set<Batch>, batch: Batch)
    requires idle == before - {batch}
    ensures Accounted(before, [], idle + {batch})
  {
  }

  lemma LastEmitted(before: set<Batch>, out: seq<Batch>, idle: set<Batch>, batch: Batch)
    requires batch !in out && batch !in idle && Accounted(before, out, idle + {batch})
    ensures Accounted(before, out + [batch], idle)
  {
  }

  /** Emits a full batch and takes the next one to fill; batches already emitted are untouched. */
  method Emit(bp: BatchPool, out: seq<Batch>, batch: Batch, ghost groups: seq<seq<Row>>, ghost before: set<Batch>)
    returns (more: seq<Batch>, next: Batch)
    requires bp.Valid() && Holding(out, bp.types, groups)
    requires batch !in out && batch !in bp.idle && Accounted(before, out, bp.idle + {batch})
    requires batch.Valid() && Typed(batch.cols, bp.types)
    modifies bp, bp.idle
    ensures more == out + [batch] && Holding(more, bp.types, groups + [old(batch.Rows())])
    ensures bp.Valid() && next !in more && next !in bp.idle && Accounted(before, more, bp.idle + {next})
    ensures next.Valid() && Typed(next.cols, bp.types) && next.Rows() == []
    ensures (fresh(next) || next in old(bp.idle)) && bp.idle <= old(bp.idle)
  {
    hide BatchPool.Valid, Typed, RowsOf, Holding;
    more := out + [batch];
    HoldingSnoc(out, bp.types, groups, batch, batch.Rows());
    next := bp.Get();
  }

  /** Emits the last batch, or puts it back if it is empty. */
  method EmitLast(bp: BatchPool, out: seq<Batch>, batch: Batch, ghost batchSize: nat, ghost groups: seq<seq<Row>>,
                  ghost before: set<Batch>)
    returns (all: seq<Batch>)
    requires bp.Valid() && Holding(out, bp.types, groups)
    requires batch !in out && batch !in bp.idle && Accounted(before, out, bp.idle + {batch})
    requires batch.Valid() && Typed(batch.cols, bp.types) && batch.numRows < batchSize
    requires forall i :: 0 <= i < |groups| ==> |groups[i]| == batchSize
    modifies bp
    ensures Holding(all, bp.types, Batches(Flatten(groups) + batch.Rows(), batchSize))
    ensures bp.Valid() && Accounted(before, all, bp.idle)
    ensures forall b :: b in all || b in bp.idle ==> b in out || b == batch || b in old(bp.idle)
  {
    hide Typed, RowsOf, Batches, Flatten, Holding, BatchPool.Valid, Accounted;
    FullBatches(groups, batch.Rows(), batchSize);
    if batch.numRows > 0 {
      HoldingSnoc(out, bp.types, groups, batch, batch.Rows());
      LastEmitted(before, out, bp.idle, batch);
      all := out + [batch];
    } else {
      assert groups + [] == groups;
      bp.Put(batch);
      all := out;
    }
  }

  /** How far a parser has come through these lines, with these rows parsed. */
  ghost predicate Reached(rp: RowParser, lines: seq<bytes>, rows: seq<Row>, lineNo: int)
    requires rp.Valid()
    reads rp, rp.lr
  {
    && rp.format.Drained(lines, rows, |rp.skipped|, rp.Pending())
    && (rp.onError.FailOnBadRow? ==> rp.skipped == [])
    && rp.lineNo == lineNo + |lines| - |rp.Pending()|
  }

  lemma NothingReached(rp: RowParser, lines: seq<bytes>)
    requires rp.Valid() && rp.skipped == [] && rp.Pending() == lines
    ensures Reached(rp, lines, [], rp.lineNo)
  {
    hide Format.ParseLine;
    rp.format.DrainStart(lines);
  }

  /** One turn of the drain: a row more in the batch, or a line skipped, or the end, or the
      first bad line, at which the drain must stop. */
  method NextRow(rp: RowParser, batch: Batch, ghost lines: seq<bytes>, ghost front: seq<Row>, ghost lineNo: int)
    returns (res: RowResult)
    requires rp.Valid() && batch.Valid() && Typed(batch.cols, rp.format.types)
    requires Reached(rp, lines, front + batch.Rows(), lineNo)
    modifies rp, rp.lr, batch
    ensures rp.Valid() && batch.Valid() && Typed(batch.cols, rp.format.types)
    ensures !res.RowFailed? ==> Reached(rp, lines, front + batch.Rows(), lineNo)
    ensures res.RowOK? ==> batch.numRows == old(batch.numRows) + 1 && |rp.Pending()| < |old(rp.Pending())|
    ensures res.RowSkipped? ==> batch.numRows == old(batch.numRows) && |rp.Pending()| < |old(rp.Pending())|
    ensures res.RowEOF? ==> batch.Rows() == old(batch.Rows()) && (rp.onError.FailOnBadRow? ==> rp.skipped == [])
    ensures res.RowEOF? ==>
      rp.format.GoodRows(lines) == front + batch.Rows() && rp.format.CountBad(lines) == |rp.skipped|
    ensures res.RowFailed? ==>
      var i := rp.format.FirstBad(lines);
      && rp.onError.FailOnBadRow? && rp.format.CountBad(lines) > 0
      && i < |lines| && res == RowFailed(lineNo + i + 1, rp.format.ParseLine(lines[i]).error)
  {
    hide Typed, RowsOf, Format.ParseLine, Format.GoodRows, Format.CountBad, Format.FirstBad, Format.Drained, LinesOf;
    ghost var f, left, rows := rp.format, rp.Pending(), batch.Rows();
    if left != [] {
      f.DrainStep(lines, front + rows, |rp.skipped|, left);
      if f.ParseLine(left[0]).Ok? {
        ConcatAssociates(front, rows, [f.ParseLine(left[0]).value]);
      }
    } else {
      f.DrainEnd(lines, front + rows, |rp.skipped|);
    }
    res := rp.Next(batch);
  }

  /** What holds between two turns of the drain: full batches are out, and the rest of the rows
      parsed so far are in the batch being filled. */
  ghost predicate Draining(rp: RowParser, bp: BatchPool, out: seq<Batch>, batch: Batch, batchSize: nat,
                           groups: seq<seq<Row>>, lines: seq<bytes>, lineNo: int, before: set<Batch>)
    reads rp, rp.lr, bp, bp.idle, out, batch
  {
    && rp.Valid() && bp.Valid() && bp.types == rp.format.types
    && batch.Valid() && Typed(batch.cols, bp.types) && batch.numRows < batchSize
    && (forall i :: 0 <= i < |groups| ==> |groups[i]| == batchSize)
    && Holding(out, bp.types, groups)
    && batch !in out && batch !in bp.idle && Accounted(before, out, bp.idle + {batch})
    && Reached(rp, lines, Flatten(groups) + batch.Rows(), lineNo)
  }

  /** One turn of the loop, up to the next time round or the end. */
  method Turn(rp: RowParser, bp: BatchPool, out: seq<Batch>, batch: Batch, batchSize: nat,
              ghost groups: seq<seq<Row>>, ghost lines: seq<bytes>, ghost lineNo: int, ghost before: set<Batch>)
    returns (res: RowResult, more: seq<Batch>, next: Batch, ghost filled: seq<seq<Row>>)
    requires batchSize > 0 && Draining(rp, bp, out, batch, batchSize, groups, lines, lineNo, before)
    modifies rp, rp.lr, batch, bp, bp.idle
    ensures res.RowOK? || res.RowSkipped? ==>
      && Draining(rp, bp, more, next, batchSize, filled, lines, lineNo, before)
      && |rp.Pending()| < |old(rp.Pending())|
    ensures res.RowEOF? || res.RowFailed? ==>
      && rp.Valid() && more == out && next == batch && filled == groups && bp.idle == old(bp.idle) && bp.Valid()
      && batch.Valid() && Typed(batch.cols, bp.types)
    ensures res.RowEOF? ==>
      && Holding(out, bp.types, groups) && batch.numRows < batchSize && (rp.onError.FailOnBadRow? ==> rp.skipped == [])
      && rp.format.GoodRows(lines) == Flatten(groups) + batch.Rows() && rp.format.CountBad(lines) == |rp.skipped|
    ensures res.RowFailed? ==>
      var i := rp.format.FirstBad(lines);
      && rp.onError.FailOnBadRow? && rp.format.CountBad(lines) > 0
      && i < |lines| && res == RowFailed(lineNo + i + 1, rp.format.ParseLine(lines[i]).error)
    ensures forall b :: b in more || b == next || b in bp.idle ==>
      fresh(b) || b in out || b == batch || b in old(bp.idle)
  {
    hide Typed, RowsOf, Format.ParseLine, Format.GoodRows, Format.CountBad, Format.FirstBad, LinesOf, Flatten, Holding,
         BatchPool.Valid, Reached, Accounted, RowParser.Valid, RowParser.Pending, Batch.Rows;
    more, next, filled := out, batch, groups;
    res := NextRow(rp, batch, lines, Flatten(groups), lineNo);
    if res.RowOK? && batch.numRows >= batchSize {
      ghost var full := batch.Rows();
      FlattenSnoc(groups, full);
      more, next := Emit(bp, out, batch, groups, before);
      filled := groups + [full];
      assert Flatten(filled) + [] == Flatten(filled);
    }
  }

  lemma StartDraining(rp: RowParser, bp: BatchPool, batch: Batch, batchSize: nat, before: set<Batch>)
    requires rp.Valid() && bp.Valid() && bp.types == rp.format.types && rp.skipped == [] && batchSize > 0
    requires batch.Valid() && Typed(batch.cols, bp.types) && batch.Rows() == []
    requires batch !in bp.idle && bp.idle == before - {batch}
    ensures Draining(rp, bp, [], batch, batchSize, [], rp.Pending(), rp.lineNo, before)
  {
    hide Typed, RowsOf, BatchPool.Valid, Reached, Accounted, RowParser.Valid, RowParser.Pending;
    FlattenNone();
    NothingReached(rp, rp.Pending());
    NothingEmitted(before, bp.idle, batch);
    assert Flatten([]) + batch.Rows() == [];
  }

  /** Reads every row of the chunk and emits them in batches of batchSize; when bad rows are
      not to be skipped, stops at the first. Every batch taken from the pool is emitted once or
      put back, also on failure. */
  method DrainChunk(rp: RowParser, bp: BatchPool, batchSize: nat) returns (out: seq<Batch>, err: Option<RowResult>)
    requires rp.Valid() && batchSize > 0 && rp.skipped == []
    requires bp.Valid() && bp.types == rp.format.types
    modifies rp, rp.lr, bp, bp.idle
    ensures err.None? <==> rp.onError.SkipBadRows? || rp.format.CountBad(old(rp.Pending())) == 0
    ensures err.None? ==> Holding(out, rp.format.types, Batches(rp.format.GoodRows(old(rp.Pending())), batchSize))
    ensures err.None? ==> |rp.skipped| == rp.format.CountBad(old(rp.Pending()))
    ensures err.Some? ==>
      var lines, i := old(rp.Pending()), rp.format.FirstBad(old(rp.Pending()));
      i < |lines| && err.value == RowFailed(old(rp.lineNo) + i + 1, rp.format.ParseLine(lines[i]).error)
    ensures forall b :: b in out || b in bp.idle ==> fresh(b) || b in old(bp.idle)
    ensures bp.Valid() && Accounted(old(bp.idle), out, bp.idle)
  {
    hide Typed, RowsOf, Format.ParseLine, Format.GoodRows, Format.CountBad, Format.FirstBad, LinesOf, Batches, Flatten,
         Holding, BatchPool.Valid, Reached, RowParser.Valid, RowParser.Pending, Draining, Accounted, Batch.Rows;
    ghost var lines, lineNo, before := rp.Pending(), rp.lineNo, bp.idle;
    ghost var groups: seq<seq<Row>> := [];
    out := [];
    var batch := bp.Get();
    StartDraining(rp, bp, batch, batchSize, before);
    while true
      invariant Draining(rp, bp, out, batch, batchSize, groups, lines, lineNo, before) && rp.Valid()
      invariant forall b :: b in out || b == batch || b in bp.idle ==> fresh(b) || b in before
      decreases |rp.Pending()|
    {
      WhileDraining(rp, bp, out, batch, batchSize, groups, lines, lineNo, before);
      var res;
      res, out, batch, groups := Turn(rp, bp, out, batch, batchSize, groups, lines, lineNo, before);
      match res {
        case RowFailed(_, _) =>
          bp.Put(batch);
          return out, Some(res);
        case RowEOF =>
          out := EmitLast(bp, out, batch, batchSize, groups, before);
          return out, None;
        case RowOK =>
          WhileDraining(rp, bp, out, batch, batchSize, groups, lines, lineNo, before);
        case RowSkipped =>
          WhileDraining(rp, bp, out, batch, batchSize, groups, lines, lineNo, before);
      }
    }
  }

  lemma WhileDraining(rp: RowParser, bp: BatchPool, out: seq<Batch>, batch: Batch, batchSize: nat,
                      groups: seq<seq<Row>>, lines: seq<bytes>, lineNo: int, before: set<Batch>)
    requires Draining(rp, bp, out, batch, batchSize, groups, lines, lineNo, before)
    ensures rp.Valid() && bp.types == rp.format.types && batch !in out && batch !in bp.idle
    ensures Accounted(before, out, bp.idle + {batch}) && forall i :: 0 <= i < |groups| ==> |groups[i]| == batchSize
  {
  }

  lemma FlattenNone()
    ensures Flatten([]) == []
  {
  }

  lemma HoldingSnoc(out: seq<Batch>, types: seq<ColumnType>, groups: seq<seq<Row>>, batch: Batch, rows: seq<Row>)
    requires Holding(out, types, groups) && batch.Valid() && Typed(batch.cols, types) && batch.Rows() == rows
    ensures Holding(out + [batch], types, groups + [rows])
  {
  }
}
