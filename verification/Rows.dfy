/** From bytes to typed rows: the line reader over a fixed-size read buffer, and the row
    parser that appends good rows to a batch. */
module Rows {
  import opened Words
  import opened Sequences
  import opened Values
  import opened Lines
  import opened Fields

  const MIN_BUFFER: nat := 16
  const DEFAULT_BUFFER: nat := 1048576

  // ---------- the line reader ----------

  datatype ReadStatus = Found | BufferFull | EndOfFile

  /** Reads the bytes of one chunk through a buffer of a fixed size. */
  class LineReader {
    const data: bytes
    const bufSize: nat
    var pos: nat

    ghost predicate Valid()
      reads this
    {
      pos <= |data| && bufSize >= MIN_BUFFER
    }

    ghost function Rest(): bytes
      requires Valid()
      reads this
    {
      data[pos..]
    }

    constructor (data: bytes, size: int)
      ensures Valid() && Rest() == data
    {
      this.data := data;
      bufSize := if size <= 0 then DEFAULT_BUFFER else if size < MIN_BUFFER then MIN_BUFFER else size;
      pos := 0;
    }

    /** The buffered reader's ReadSlice: bytes through the next newline, if it lies within one
        buffer; else a full buffer; else whatever is left. */
    method ReadSlice() returns (chunk: bytes, status: ReadStatus)
      requires Valid()
      modifies this
      ensures Valid() && old(pos) <= pos && chunk == data[old(pos)..pos]
      ensures status == Found ==> old(pos) < pos == NextNewline(data, old(pos)) && data[pos - 1] == NEWLINE
      ensures status != Found ==> forall j :: old(pos) <= j < pos ==> data[j] != NEWLINE
      ensures status == BufferFull ==> pos == old(pos) + bufSize
      ensures status == EndOfFile ==> pos == |data|
    {
      var i := pos;
      while i < |data| && i < pos + bufSize && data[i] != NEWLINE
        invariant pos <= i <= |data| && i <= pos + bufSize
        invariant forall j :: pos <= j < i ==> data[j] != NEWLINE
      {
        i := i + 1;
      }
      if i < |data| && i < pos + bufSize {
        NextNewlineUnique(data, pos, i + 1);
        chunk, status, pos := data[pos..i + 1], Found, i + 1;
      } else if i == pos + bufSize {
        chunk, status, pos := data[pos..i], BufferFull, i;
      } else {
        chunk, status, pos := data[pos..i], EndOfFile, i;
      }
    }

    /** The bytes through the next newline, or all that is left, gathered slice by slice. */
    method ReadRaw() returns (buf: bytes)
      requires Valid()
      modifies this
      ensures Valid() && pos == NextNewline(data, old(pos)) && buf == data[old(pos)..pos]
    {
      hide NextNewline;
      buf := [];
      ghost var start := pos;
      while true
        invariant Valid() && start <= pos && buf == data[start..pos]
        invariant forall j :: start <= j < pos ==> data[j] != NEWLINE
        decreases |data| - pos
      {
        ghost var before := pos;
        var chunk, status := ReadSlice();
        AdjacentSlices(data, start, before, pos);
        buf := buf + chunk;
        if status == Found {
          NextNewlineMeaning(data, before);
          NextNewlineUnique(data, start, pos);
          return;
        }
        if status == EndOfFile {
          NextNewlineUnique(data, start, pos);
          return;
        }
      }
    }

    static lemma AdjacentSlices(s: bytes, a: nat, b: nat, c: nat)
      requires a <= b <= c <= |s|
      ensures s[a..c] == s[a..b] + s[b..c]
    {
    }

    /** The next line without its terminator; None once the data is used up. The line does not
        depend on the buffer size. */
    method ReadLine() returns (line: Option<bytes>)
      requires Valid()
      modifies this
      ensures Valid()
      ensures old(Rest()) == [] ==> line == None && Rest() == []
      ensures old(Rest()) != [] ==> line.Some? && LinesOf(old(Rest())) == [line.value] + LinesOf(Rest())
    {
      hide NextNewline;
      ghost var start, rest := pos, Rest();
      var buf := ReadRaw();
      NextNewlineMeaning(data, start);
      if |buf| == 0 {
        return None;
      }
      RestLines(start, pos);
      var trimmed := buf;
      if |trimmed| > 0 && trimmed[|trimmed| - 1] == NEWLINE {
        trimmed := trimmed[..|trimmed| - 1];
      }
      if |trimmed| > 0 && trimmed[|trimmed| - 1] == CARRIAGE_RETURN {
        trimmed := trimmed[..|trimmed| - 1];
      }
      return Some(trimmed);
    }

    lemma RestLines(start: nat, end: nat)
      requires start < end <= |data| && end == NextNewline(data, start)
      ensures LinesOf(data[start..]) == [TrimEol(data[start..end])] + LinesOf(data[end..])
    {
      hide LinesOf, TrimEol, NextNewline;
      var rest := data[start..];
      NextNewlineMeaning(data, start);
      NextNewlineUnique(rest, 0, end - start);
      FirstLine(rest);
      assert rest[..end - start] == data[start..end] && rest[end - start..] == data[end..];
    }
  }

  // ---------- what a line means ----------

  const COMMA: byte := 44

  datatype ErrorPolicy = SkipBadRows | FailOnBadRow

  datatype RowError = BadQuoting(e: QuoteError) | WrongFieldCount | BadField(column: nat)

  /** How lines become rows: delimiter and quoting, one type per column, and the number
      parsers, which are partial. */
  datatype Format = Format(
    delimiter: byte,
    quoteAware: bool,
    types: seq<ColumnType>,
    parseInt: bytes -> Option<int64>,
    parseFloat: bytes -> Option<uint64>)
  {
    function DelimiterOrDefault(): (d: byte)
      ensures d != 0 && (d == delimiter || (delimiter == 0 && d == COMMA))
    {
      if delimiter == 0 then COMMA else delimiter
    }

    function FieldsOf(line: bytes): Result<seq<bytes>, QuoteError> {
      if quoteAware then SplitQuoted(line, DelimiterOrDefault()) else Ok(Split(line, DelimiterOrDefault()))
    }

    function ParseField(t: ColumnType, field: bytes): (r: Option<Value>)
      ensures r.Some? ==> r.value.Type() == t
    {
      match t
      case TypeString => Some(Str(field))
      case TypeInt64 =>
        (match parseInt(field) case None => None case Some(i) => Some(I64(i)))
      case TypeFloat64 =>
        (match parseFloat(field) case None => None case Some(bits) => Some(F64(bits)))
    }

    /** The values of the first n fields, or the first field that does not parse. */
    function ParseFields(fields: seq<bytes>, n: nat): (r: Result<Row, RowError>)
      requires n <= |fields| == |types|
      ensures r.Ok? ==> |r.value| == n && forall i :: 0 <= i < n ==> r.value[i].Type() == types[i]
    {
      if n == 0 then Ok([])
      else
        match ParseFields(fields, n - 1)
        case Err(e) => Err(e)
        case Ok(row) =>
          match ParseField(types[n - 1], fields[n - 1])
          case None => Err(BadField(n - 1))
          case Some(v) => Ok(row + [v])
    }

    function ParseLine(line: bytes): (r: Result<Row, RowError>)
      ensures r.Ok? ==> |r.value| == |types| && forall i :: 0 <= i < |types| ==> r.value[i].Type() == types[i]
    {
      match FieldsOf(line)
      case Err(e) => Err(BadQuoting(e))
      case Ok(fields) =>
        if |fields| != |types| then Err(WrongFieldCount) else ParseFields(fields, |fields|)
    }

    // ---------- what a parsed row holds ----------

    /** The line is these fields as written: joined by the delimiter, each quoted or not where
        quoting is understood, and free of the delimiter where it is not. */
    ghost predicate Prints(line: bytes, fields: seq<bytes>, quoted: seq<bool>) {
      var delim := DelimiterOrDefault();
      && fields != []
      && if quoteAware then
           delim != QUOTE && LegallyQuoted(fields, quoted, delim) && line == JoinQuoted(fields, quoted, delim)
         else line == Join(fields, delim) && DelimiterFree(fields, delim)
    }

    lemma PrintedFields(line: bytes, fields: seq<bytes>, quoted: seq<bool>)
      requires Prints(line, fields, quoted)
      ensures FieldsOf(line) == Ok(fields)
    {
      hide Split, Join, SplitQuoted, JoinQuoted, MustQuote;
      if quoteAware {
        SplitQuotedInvertsQuoting(fields, quoted, DelimiterOrDefault());
      } else {
        SplitInvertsJoin(fields, DelimiterOrDefault());
      }
    }

    /** Every line prints some fields, unless its quoting is broken. */
    lemma LineIsPrinted(line: bytes) returns (fields: seq<bytes>, quoted: seq<bool>)
      requires quoteAware ==> DelimiterOrDefault() != QUOTE
      requires ParseLine(line).Ok? || !ParseLine(line).error.BadQuoting?
      ensures Prints(line, fields, quoted)
    {
      hide Split, Join, SplitQuoted, JoinQuoted, LegallyQuoted, DelimiterFree, ParseFields;
      fields, quoted := FieldsOf(line).value, [];
      if quoteAware {
        quoted := QuotingInvertsSplitQuoted(line, DelimiterOrDefault());
      } else {
        JoinInvertsSplit(line, DelimiterOrDefault());
      }
    }

    /** The value is this field read at this type. */
    predicate IsFieldValue(t: ColumnType, field: bytes, v: Value) {
      match t
      case TypeString => v == Str(field)
      case TypeInt64 => v.I64? && parseInt(field) == Some(v.i)
      case TypeFloat64 => v.F64? && parseFloat(field) == Some(v.bits)
    }

    predicate Unreadable(t: ColumnType, field: bytes) {
      (t.TypeInt64? && parseInt(field).None?) || (t.TypeFloat64? && parseFloat(field).None?)
    }

    lemma FieldMeaning(t: ColumnType, field: bytes)
      ensures ParseField(t, field).None? <==> Unreadable(t, field)
      ensures forall v :: ParseField(t, field) == Some(v) <==> IsFieldValue(t, field, v)
    {
    }

    /** Field c cannot be read, and every field before it can. */
    predicate FailsFirst(fields: seq<bytes>, c: nat) {
      && c < |fields| <= |types| && Unreadable(types[c], fields[c])
      && forall i :: 0 <= i < c ==> !Unreadable(types[i], fields[i])
    }

    lemma {:induction false} ParseFieldsMeaning(fields: seq<bytes>, n: nat)
      requires n <= |fields| == |types|
      ensures match ParseFields(fields, n)
              case Ok(row) =>
                forall i :: 0 <= i < n ==> !Unreadable(types[i], fields[i]) && IsFieldValue(types[i], fields[i], row[i])
              case Err(e) => e.BadField? && e.column < n && FailsFirst(fields, e.column)
    {
      hide ParseField, IsFieldValue, Unreadable;
      if n > 0 {
        ParseFieldsMeaning(fields, n - 1);
        FieldMeaning(types[n - 1], fields[n - 1]);
      }
    }

    lemma OneValue(t: ColumnType, field: bytes, v: Value, w: Value)
      requires IsFieldValue(t, field, v)
      ensures !Unreadable(t, field) && (IsFieldValue(t, field, w) ==> v == w)
    {
    }

    /** A line that prints some fields parses to exactly the row of their values: a string as it
        stands, and numbers as the number parsers read them. It fails on a wrong number of fields,
        and else on the first number that cannot be read. */
    lemma ParseLineMeaning(line: bytes, fields: seq<bytes>, quoted: seq<bool>, row: Row)
      requires Prints(line, fields, quoted)
      ensures |fields| != |types| ==> ParseLine(line) == Err(WrongFieldCount)
      ensures |fields| == |types| ==>
        && (ParseLine(line) == Ok(row) <==>
              |row| == |types| && forall i :: 0 <= i < |types| ==> IsFieldValue(types[i], fields[i], row[i]))
        && (ParseLine(line).Err? <==> exists i :: 0 <= i < |types| && Unreadable(types[i], fields[i]))
        && (ParseLine(line).Err? ==>
              ParseLine(line).error.BadField? && FailsFirst(fields, ParseLine(line).error.column))
    {
      hide FieldsOf, ParseFields, Prints, IsFieldValue, Unreadable;
      PrintedFields(line, fields, quoted);
      if |fields| == |types| {
        ParseFieldsMeaning(fields, |fields|);
        if |row| == |types| && forall i :: 0 <= i < |types| ==> IsFieldValue(types[i], fields[i], row[i]) {
          forall i | 0 <= i < |types|
            ensures !Unreadable(types[i], fields[i])
            ensures ParseLine(line).Ok? ==> ParseLine(line).value[i] == row[i]
          {
            OneValue(types[i], fields[i], row[i], if ParseLine(line).Ok? then ParseLine(line).value[i] else row[i]);
          }
          assert ParseLine(line).Ok? ==> ParseLine(line).value == row;
        }
      }
    }

    /** The rows of the lines that parse, in order. */
    function GoodRows(lines: seq<bytes>): (rows: seq<Row>)
      ensures forall i :: 0 <= i < |rows| ==> |rows[i]| == |types|
    {
      if lines == [] then []
      else
        match ParseLine(lines[0])
        case Ok(row) => [row] + GoodRows(lines[1..])
        case Err(_) => GoodRows(lines[1..])
    }

    function CountBad(lines: seq<bytes>): nat {
      if lines == [] then 0 else (if ParseLine(lines[0]).Err? then 1 else 0) + CountBad(lines[1..])
    }

    /** The index of the first line that does not parse, or the number of lines. */
    function FirstBad(lines: seq<bytes>): (i: nat)
      ensures i <= |lines|
      ensures i < |lines| ==> ParseLine(lines[i]).Err?
    {
      if lines == [] || ParseLine(lines[0]).Err? then 0 else 1 + FirstBad(lines[1..])
    }

    lemma {:induction false} FirstBadMeaning(lines: seq<bytes>)
      ensures forall j :: 0 <= j < FirstBad(lines) ==> ParseLine(lines[j]).Ok?
    {
      hide ParseLine;
      if lines != [] && ParseLine(lines[0]).Ok? {
        FirstBadMeaning(lines[1..]);
      }
    }

    /** How far a drain has come: these rows parsed and this many lines rejected, of so many. */
    ghost predicate Drained(lines: seq<bytes>, rows: seq<Row>, bad: nat, left: seq<bytes>) {
      && GoodRows(lines) == rows + GoodRows(left)
      && CountBad(lines) == bad + CountBad(left)
      && |left| <= |lines|
      && (bad == 0 ==> FirstBad(lines) == |lines| - |left| + FirstBad(left))
      && left == lines[|lines| - |left|..]
    }

    lemma DrainStart(lines: seq<bytes>)
      ensures Drained(lines, [], 0, lines)
    {
      hide ParseLine;
    }

    lemma DrainStep(lines: seq<bytes>, rows: seq<Row>, bad: nat, left: seq<bytes>)
      requires Drained(lines, rows, bad, left) && left != []
      ensures ParseLine(left[0]).Ok? ==> Drained(lines, rows + [ParseLine(left[0]).value], bad, left[1..])
      ensures ParseLine(left[0]).Err? ==> Drained(lines, rows, bad + 1, left[1..])
      ensures ParseLine(left[0]).Err? ==> CountBad(lines) > 0
      ensures ParseLine(left[0]).Err? && bad == 0 ==>
        FirstBad(lines) == |lines| - |left| && left[0] == lines[|lines| - |left|]
    {
      hide ParseLine;
      if ParseLine(left[0]).Ok? {
        ConcatAssociates(rows, [ParseLine(left[0]).value], GoodRows(left[1..]));
      }
    }

    lemma DrainEnd(lines: seq<bytes>, rows: seq<Row>, bad: nat)
      requires Drained(lines, rows, bad, [])
      ensures GoodRows(lines) == rows && CountBad(lines) == bad
    {
      hide ParseLine;
      assert rows + [] == rows;
    }

    lemma {:induction false} GoodRowsConcat(a: seq<bytes>, b: seq<bytes>)
      ensures GoodRows(a + b) == GoodRows(a) + GoodRows(b)
      ensures CountBad(a + b) == CountBad(a) + CountBad(b)
    {
      hide ParseLine;
      if a == [] {
        assert a + b == b;
      } else {
        assert (a + b)[1..] == a[1..] + b;
        GoodRowsConcat(a[1..], b);
      }
    }
  }
}
