/** Tables as files: what is written line by line and field by field is what a job reads. */
module Tables {
  import opened Values
  import opened Lines
  import opened Rows
  import opened Jobs

  /** Each line prints its fields, and can stand as a line of its own. */
  ghost predicate PrintsTable(f: Format, lines: seq<bytes>, table: seq<seq<bytes>>, quoted: seq<seq<bool>>) {
    && |lines| == |table| == |quoted|
    && forall i :: 0 <= i < |lines| ==> f.Prints(lines[i], table[i], quoted[i]) && IsPlainLine(lines[i])
  }

  /** The row holds these fields, each read at the type of its column. */
  ghost predicate ReadsAs(f: Format, fields: seq<bytes>, row: Row) {
    && |fields| == |row| == |f.types|
    && forall c :: 0 <= c < |f.types| ==> f.IsFieldValue(f.types[c], fields[c], row[c])
  }

  lemma PrintedLineReads(f: Format, line: bytes, fields: seq<bytes>, quoted: seq<bool>, row: Row)
    requires f.Prints(line, fields, quoted) && ReadsAs(f, fields, row)
    ensures f.ParseLine(line) == Ok(row)
  {
    hide Format.Prints, Format.ParseLine, Format.IsFieldValue;
    f.ParseLineMeaning(line, fields, quoted, row);
  }

  lemma {:induction false} PrintedLinesRead(f: Format, lines: seq<bytes>, table: seq<seq<bytes>>,
                                            quoted: seq<seq<bool>>, rows: seq<Row>)
    requires PrintsTable(f, lines, table, quoted) && |rows| == |table|
    requires forall i :: 0 <= i < |rows| ==> ReadsAs(f, table[i], rows[i])
    ensures f.GoodRows(lines) == rows && f.CountBad(lines) == 0
  {
    hide Format.Prints, Format.ParseLine, ReadsAs, IsPlainLine;
    if lines != [] {
      PrintedLineReads(f, lines[0], table[0], quoted[0], rows[0]);
      PrintedLinesRead(f, lines[1..], table[1..], quoted[1..], rows[1..]);
      assert rows == [rows[0]] + rows[1..];
    }
  }

  /** Reading inverts writing: a file of a header, if there is to be one, and a table, with any legal
      quoting and line ends, gives the table's rows in order, and no bad line. The last line need
      not be terminated. */
  lemma PrintedTableReads(job: Job, header: bytes, lines: seq<bytes>, table: seq<seq<bytes>>, quoted: seq<seq<bool>>,
                          rows: seq<Row>, front: seq<bytes>, crlf: seq<bool>, last: bytes)
    requires job.Valid() && PrintsTable(job.format, lines, table, quoted) && IsPlainLine(header)
    requires |rows| == |table| && forall i :: 0 <= i < |rows| ==> ReadsAs(job.format, table[i], rows[i])
    requires |front| == |crlf| && front + (if last == [] then [] else [last])
             == (if job.hasHeader then [header] else []) + lines
    ensures var data := PrintLines(front, crlf) + last;
            && job.RowsIn(data, job.hasHeader) == rows
            && job.BadIn(data, job.hasHeader) == 0
  {
    hide Format.Prints, ReadsAs, LinesOf, PrintLines, Format.GoodRows, Format.CountBad, IsPlainLine, Job.Valid;
    var data, whole := PrintLines(front, crlf) + last, (if job.hasHeader then [header] else []) + lines;
    assert forall i :: 0 <= i < |whole| ==> IsPlainLine(whole[i]);
    NothingIsPlain();
    assert last != [] ==> last == whole[|front|];
    assert forall i :: 0 <= i < |front| ==> front[i] == whole[i];
    LinesInvertPrinting(front, crlf, last);
    assert LinesOf(data) == whole;
    assert job.hasHeader ==> whole[1..] == lines;
    assert !job.hasHeader ==> whole == lines;
    PrintedLinesRead(job.format, lines, table, quoted, rows);
  }

  lemma NothingIsPlain()
    ensures IsPlainLine([])
  {
  }
}
