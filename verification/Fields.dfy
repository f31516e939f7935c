/** Splitting a line into fields, plainly or with double-quote quoting in the manner of
    section 2 of RFC 4180, and the joins that each split inverts. */
module Fields {
  import opened Words
  import opened Values
  import opened Sequences

  const QUOTE: byte := 34

  // ---------- plain splitting ----------

  function IndexOf(line: bytes, b: byte): (i: nat)
    ensures i <= |line|
    ensures i < |line| ==> line[i] == b
    ensures forall j :: 0 <= j < i ==> line[j] != b
  {
    if line == [] || line[0] == b then 0 else 1 + IndexOf(line[1..], b)
  }

  function Split(line: bytes, delim: byte): (fields: seq<bytes>)
    ensures fields != []
    decreases |line|
  {
    var i := IndexOf(line, delim);
    if i == |line| then [line] else [line[..i]] + Split(line[i + 1..], delim)
  }

  function Join(fields: seq<bytes>, delim: byte): bytes
    requires fields != []
  {
    if |fields| == 1 then fields[0] else fields[0] + [delim] + Join(fields[1..], delim)
  }

  method SplitFields(line: bytes, delim: byte) returns (dst: seq<bytes>)
    ensures dst == Split(line, delim)
  {
    dst := [];
    var rest, offset := line, 0;
    while true
      invariant 0 <= offset <= |line| && rest == line[offset..]
      invariant dst + Split(rest, delim) == Split(line, delim)
      decreases |line| - offset
    {
      var idx := IndexOf(rest, delim);
      if idx == |rest| {
        dst := dst + [line[offset..]];
        return;
      }
      assert line[offset..offset + idx] == rest[..idx];
      ConcatAssociates(dst, [rest[..idx]], Split(rest[idx + 1..], delim));
      dst := dst + [line[offset..offset + idx]];
      rest := rest[idx + 1..];
      offset := offset + idx + 1;
    }
  }

  predicate DelimiterFree(fields: seq<bytes>, delim: byte) {
    forall i :: 0 <= i < |fields| ==> delim !in fields[i]
  }

  lemma {:induction false} IndexOfFree(field: bytes, delim: byte, rest: bytes)
    requires delim !in field
    ensures IndexOf(field, delim) == |field|
    ensures IndexOf(field + [delim] + rest, delim) == |field|
  {
    if field != [] {
      assert field == [field[0]] + field[1..];
      IndexOfFree(field[1..], delim, rest);
      assert (field + [delim] + rest)[1..] == field[1..] + [delim] + rest;
    }
  }

  /** Splitting and joining delimiter-free fields are inverse both ways. */
  lemma {:induction false} SplitInvertsJoin(fields: seq<bytes>, delim: byte)
    requires fields != [] && DelimiterFree(fields, delim)
    ensures Split(Join(fields, delim), delim) == fields
  {
    hide IndexOf;
    if |fields| == 1 {
      IndexOfFree(fields[0], delim, []);
      assert fields == [fields[0]];
    } else {
      var rest := Join(fields[1..], delim);
      IndexOfFree(fields[0], delim, rest);
      SplitInvertsJoin(fields[1..], delim);
      var line := fields[0] + [delim] + rest;
      assert line[..|fields[0]|] == fields[0] && line[|fields[0]| + 1..] == rest;
    }
  }

  lemma {:induction false} JoinInvertsSplit(line: bytes, delim: byte)
    ensures Join(Split(line, delim), delim) == line && DelimiterFree(Split(line, delim), delim)
    decreases |line|
  {
    var i := IndexOf(line, delim);
    if i < |line| {
      JoinInvertsSplit(line[i + 1..], delim);
      assert line == line[..i] + [delim] + line[i + 1..];
      assert Split(line, delim)[1..] == Split(line[i + 1..], delim);
    }
  }

  // ---------- quoted splitting ----------

  datatype QuoteError = UnterminatedQuote | UnexpectedAfterQuote

  /** The content of a quoted field whose opening quote is past, and the bytes after its
      closing quote; None if it never closes. A doubled quote stands for one. */
  function ScanQuoted(rest: bytes): (r: Option<(bytes, bytes)>)
    ensures r.Some? ==> |r.value.1| < |rest|
    decreases |rest|
  {
    if rest == [] then None
    else if rest[0] == QUOTE then
      if |rest| > 1 && rest[1] == QUOTE then
        match ScanQuoted(rest[2..])
        case None => None
        case Some((field, after)) => Some(([QUOTE] + field, after))
      else Some(([], rest[1..]))
    else
      match ScanQuoted(rest[1..])
      case None => None
      case Some((field, after)) => Some(([rest[0]] + field, after))
  }

  function Prepend(field: bytes, r: Result<seq<bytes>, QuoteError>): Result<seq<bytes>, QuoteError> {
    match r
    case Ok(fields) => Ok([field] + fields)
    case Err(e) => Err(e)
  }

  function SplitQuoted(line: bytes, delim: byte): Result<seq<bytes>, QuoteError>
    decreases |line|
  {
    if line != [] && line[0] == QUOTE then
      match ScanQuoted(line[1..])
      case None => Err(UnterminatedQuote)
      case Some((field, after)) =>
        if after == [] then Ok([field])
        else if after[0] == delim then Prepend(field, SplitQuoted(after[1..], delim))
        else Err(UnexpectedAfterQuote)
    else
      var i := IndexOf(line, delim);
      if i == |line| then Ok([line]) else Prepend(line[..i], SplitQuoted(line[i + 1..], delim))
  }

  /** Fields already split off go in front of what the rest of the line splits into. */
  function PrependAll(fields: seq<bytes>, r: Result<seq<bytes>, QuoteError>): Result<seq<bytes>, QuoteError> {
    match r
    case Ok(more) => Ok(fields + more)
    case Err(e) => Err(e)
  }

  lemma PrependAllSnoc(fields: seq<bytes>, field: bytes, r: Result<seq<bytes>, QuoteError>)
    ensures PrependAll(fields, Prepend(field, r)) == PrependAll(fields + [field], r)
  {
    if r.Ok? {
      ConcatAssociates(fields, [field], r.value);
    }
  }

  lemma PrependNothing(r: Result<seq<bytes>, QuoteError>)
    ensures PrependAll([], r) == r
  {
    if r.Ok? {
      assert [] + r.value == r.value;
    }
  }

  lemma PrependAllEnds(fields: seq<bytes>, last: bytes, e: QuoteError)
    ensures PrependAll(fields, Ok([last])) == Ok(fields + [last])
    ensures PrependAll(fields, Err(e)) == Err(e)
  {
  }

  /** Content already read goes in front of what a scan of the rest finds. */
  function Extend(field: bytes, r: Option<(bytes, bytes)>): Option<(bytes, bytes)> {
    match r
    case None => None
    case Some((more, after)) => Some((field + more, after))
  }

  /** Reads a quoted field whose opening quote is just before start. */
  method ReadQuoted(line: bytes, start: nat) returns (field: bytes, i: nat, closed: bool)
    requires start <= |line|
    ensures closed <==> ScanQuoted(line[start..]).Some?
    ensures closed ==> start < i <= |line| && ScanQuoted(line[start..]).value == (field, line[i..])
  {
    hide ScanQuoted, Extend;
    field, i := [], start;
    ExtendNothing(ScanQuoted(line[start..]));
    while true
      invariant start <= i <= |line|
      invariant ScanQuoted(line[start..]) == Extend(field, ScanQuoted(line[i..]))
      decreases |line| - i
    {
      if i >= |line| {
        ScanRunsOut(line, field);
        return field, i, false;
      }
      if line[i] == QUOTE {
        if i + 1 < |line| && line[i + 1] == QUOTE {
          ScanStep(line, i, 2, field);
          field := field + [QUOTE];
          i := i + 2;
          continue;
        }
        ScanEnds(line, i, field);
        i := i + 1;
        return field, i, true;
      }
      ScanStep(line, i, 1, field);
      field := field + [line[i]];
      i := i + 1;
    }
  }

  lemma ExtendNothing(r: Option<(bytes, bytes)>)
    ensures Extend([], r) == r
  {
    if r.Some? {
      assert [] + r.value.0 == r.value.0;
    }
  }

  lemma ScanRunsOut(line: bytes, field: bytes)
    ensures Extend(field, ScanQuoted(line[|line|..])) == None
  {
  }

  lemma ScanEnds(line: bytes, i: nat, field: bytes)
    requires i < |line| && line[i] == QUOTE && (i + 1 < |line| ==> line[i + 1] != QUOTE)
    ensures Extend(field, ScanQuoted(line[i..])) == Some((field, line[i + 1..]))
  {
    assert line[i..][1..] == line[i + 1..];
    assert ScanQuoted(line[i..]) == Some(([], line[i + 1..]));
    assert field + [] == field;
  }

  lemma ScanStep(line: bytes, i: nat, width: nat, field: bytes)
    requires 1 <= width <= 2 && i + width <= |line|
    requires width == 2 <==> line[i] == QUOTE
    requires width == 2 ==> line[i + 1] == QUOTE
    ensures Extend(field, ScanQuoted(line[i..])) == Extend(field + [line[i]], ScanQuoted(line[i + width..]))
  {
    assert line[i..][width..] == line[i + width..];
    var r := ScanQuoted(line[i + width..]);
    if r.Some? {
      ConcatAssociates(field, [line[i]], r.value.0);
    }
  }

  lemma QuotedFieldFirst(line: bytes, i: nat, delim: byte, field: bytes, next: nat)
    requires i < |line| && line[i] == QUOTE
    requires ScanQuoted(line[i + 1..]).Some? ==>
      next <= |line| && ScanQuoted(line[i + 1..]).value == (field, line[next..])
    ensures SplitQuoted(line[i..], delim) ==
      if ScanQuoted(line[i + 1..]).None? then Err(UnterminatedQuote)
      else if next == |line| then Ok([field])
      else if line[next] == delim then Prepend(field, SplitQuoted(line[next + 1..], delim))
      else Err(UnexpectedAfterQuote)
  {
    hide ScanQuoted, Prepend;
    assert line[i..][1..] == line[i + 1..];
    if ScanQuoted(line[i + 1..]).Some? && next < |line| {
      assert line[next..][1..] == line[next + 1..];
    }
  }

  lemma PlainFieldFirst(line: bytes, i: nat, delim: byte)
    requires i <= |line| && (i < |line| ==> line[i] != QUOTE)
    ensures var k := IndexOf(line[i..], delim);
            SplitQuoted(line[i..], delim) ==
              if i + k == |line| then Ok([line[i..]])
              else Prepend(line[i..i + k], SplitQuoted(line[i + k + 1..], delim))
  {
    hide ScanQuoted, Prepend, IndexOf;
    var k := IndexOf(line[i..], delim);
    if i + k < |line| {
      assert line[i..][..k] == line[i..i + k] && line[i..][k + 1..] == line[i + k + 1..];
    }
  }

  method SplitFieldsQuoted(line: bytes, delim: byte) returns (r: Result<seq<bytes>, QuoteError>)
    ensures r == SplitQuoted(line, delim)
  {
    hide ScanQuoted, IndexOf, Prepend, PrependAll, SplitQuoted;
    var dst: seq<bytes> := [];
    var i := 0;
    PrependNothing(SplitQuoted(line, delim));
    assert line[0..] == line;
    while true
      invariant 0 <= i <= |line|
      invariant PrependAll(dst, SplitQuoted(line[i..], delim)) == SplitQuoted(line, delim)
      decreases |line| - i
    {
      if i < |line| && line[i] == QUOTE {
        var field, next, closed := ReadQuoted(line, i + 1);
        QuotedFieldFirst(line, i, delim, field, next);
        PrependAllEnds(dst, field, if closed then UnexpectedAfterQuote else UnterminatedQuote);
        if !closed {
          return Err(UnterminatedQuote);
        }
        if next < |line| && line[next] == delim {
          PrependAllSnoc(dst, field, SplitQuoted(line[next + 1..], delim));
          dst := dst + [field];
          i := next + 1;
          continue;
        } else if next >= |line| {
          return Ok(dst + [field]);
        } else {
          return Err(UnexpectedAfterQuote);
        }
      }
      var idx := IndexOf(line[i..], delim);
      PlainFieldFirst(line, i, delim);
      if idx == |line[i..]| {
        PrependAllEnds(dst, line[i..], UnterminatedQuote);
        return Ok(dst + [line[i..]]);
      }
      PrependAllSnoc(dst, line[i..i + idx], SplitQuoted(line[i + idx + 1..], delim));
      dst := dst + [line[i..i + idx]];
      i := i + idx + 1;
    }
  }

  // ---------- quoted splitting inverts quoting ----------

  function Escape(field: bytes): bytes {
    if field == [] then []
    else (if field[0] == QUOTE then [QUOTE, QUOTE] else [field[0]]) + Escape(field[1..])
  }

  /** A field as written: quoted on request, verbatim otherwise. */
  function Written(field: bytes, quoted: bool): bytes {
    if quoted then [QUOTE] + Escape(field) + [QUOTE] else field
  }

  predicate MustQuote(field: bytes, delim: byte) {
    delim in field || (field != [] && field[0] == QUOTE)
  }

  /** Every field that must be quoted is. */
  predicate LegallyQuoted(fields: seq<bytes>, quoted: seq<bool>, delim: byte) {
    |quoted| == |fields| && forall i :: 0 <= i < |fields| ==> MustQuote(fields[i], delim) ==> quoted[i]
  }

  function JoinQuoted(fields: seq<bytes>, quoted: seq<bool>, delim: byte): bytes
    requires |fields| == |quoted| && fields != []
  {
    var first := Written(fields[0], quoted[0]);
    if |fields| == 1 then first else first + [delim] + JoinQuoted(fields[1..], quoted[1..], delim)
  }

  lemma {:induction false} ScanInvertsEscape(field: bytes, after: bytes)
    requires after == [] || after[0] != QUOTE
    ensures ScanQuoted(Escape(field) + [QUOTE] + after) == Some((field, after))
  {
    if field == [] {
      assert Escape(field) + [QUOTE] + after == [QUOTE] + after;
      assert ([QUOTE] + after)[1..] == after;
    } else {
      ScanInvertsEscape(field[1..], after);
      var inner := Escape(field[1..]) + [QUOTE] + after;
      var head := if field[0] == QUOTE then [QUOTE, QUOTE] else [field[0]];
      assert Escape(field) + [QUOTE] + after == head + inner;
      assert (head + inner)[|head|..] == inner;
      assert field == [field[0]] + field[1..];
    }
  }

  /** What one written field contributes, whether it ends the line or a delimiter follows. */
  lemma WrittenFieldSplits(field: bytes, quoted: bool, delim: byte, rest: bytes)
    requires delim != QUOTE && (MustQuote(field, delim) ==> quoted)
    ensures SplitQuoted(Written(field, quoted), delim) == Ok([field])
    ensures SplitQuoted(Written(field, quoted) + [delim] + rest, delim) == Prepend(field, SplitQuoted(rest, delim))
  {
    var alone, line := Written(field, quoted), Written(field, quoted) + [delim] + rest;
    if quoted {
      ScanInvertsEscape(field, []);
      ScanInvertsEscape(field, [delim] + rest);
      assert alone[1..] == Escape(field) + [QUOTE] + [];
      assert line[1..] == Escape(field) + [QUOTE] + ([delim] + rest);
      assert ([delim] + rest)[1..] == rest;
    } else {
      IndexOfFree(field, delim, rest);
      assert line[..|field|] == field && line[|field| + 1..] == rest;
      assert line[0] == if field == [] then delim else field[0];
    }
  }

  /** Every field that contains the delimiter or starts with a quote must be quoted; any other
      may be. Then quoted splitting gives back exactly the fields. */
  lemma {:induction false} SplitQuotedInvertsQuoting(fields: seq<bytes>, quoted: seq<bool>, delim: byte)
    requires delim != QUOTE && fields != [] && LegallyQuoted(fields, quoted, delim)
    ensures SplitQuoted(JoinQuoted(fields, quoted, delim), delim) == Ok(fields)
  {
    if |fields| == 1 {
      WrittenFieldSplits(fields[0], quoted[0], delim, []);
      assert fields == [fields[0]];
    } else {
      var rest := JoinQuoted(fields[1..], quoted[1..], delim);
      WrittenFieldSplits(fields[0], quoted[0], delim, rest);
      SplitQuotedInvertsQuoting(fields[1..], quoted[1..], delim);
      assert fields == [fields[0]] + fields[1..];
    }
  }

  // ---------- and quoting inverts quoted splitting ----------

  lemma EscapeSteps(b: byte, field: bytes)
    ensures Escape([]) == []
    ensures Escape([b] + field) == (if b == QUOTE then [QUOTE, QUOTE] else [b]) + Escape(field)
  {
    assert ([b] + field)[1..] == field;
  }

  /** What is scanned is an escaped field: up to the quote that closes it, or all if none does. */
  lemma {:induction false} ScannedIsEscaped(rest: bytes) returns (f: bytes)
    ensures match ScanQuoted(rest)
            case None => rest == Escape(f)
            case Some((field, after)) =>
              f == field && rest == Escape(f) + [QUOTE] + after && (after == [] || after[0] != QUOTE)
    decreases |rest|
  {
    hide Escape;
    f := [];
    EscapeSteps(0, []);
    if rest != [] && rest[0] == QUOTE && (|rest| == 1 || rest[1] != QUOTE) {
      assert rest == [QUOTE] + rest[1..];
    } else if rest != [] {
      var head := if rest[0] == QUOTE then [QUOTE, QUOTE] else [rest[0]];
      var inner := ScannedIsEscaped(rest[|head|..]);
      f := [rest[0]] + inner;
      EscapeSteps(rest[0], inner);
      assert rest == head + rest[|head|..];
    }
  }

  /** A line that starts with a quote: its field, whether the field is closed, and what follows. */
  lemma QuotedStart(line: bytes, delim: byte) returns (field: bytes, closed: bool, after: bytes)
    requires line != [] && line[0] == QUOTE
    ensures closed ==> line == Written(field, true) + after && |after| < |line| && (after == [] || after[0] != QUOTE)
    ensures !closed ==> line == [QUOTE] + Escape(field)
    ensures SplitQuoted(line, delim) ==
      if !closed then Err(UnterminatedQuote)
      else if after == [] then Ok([field])
      else if after[0] == delim then Prepend(field, SplitQuoted(after[1..], delim))
      else Err(UnexpectedAfterQuote)
  {
    hide ScanQuoted, Escape, IndexOf;
    field := ScannedIsEscaped(line[1..]);
    closed := ScanQuoted(line[1..]).Some?;
    after := if closed then ScanQuoted(line[1..]).value.1 else [];
    assert line == [QUOTE] + line[1..];
  }

  /** Another line: where its first field ends. */
  lemma PlainStart(line: bytes, delim: byte) returns (i: nat)
    requires line != [] ==> line[0] != QUOTE
    ensures i <= |line| && !MustQuote(line[..i], delim) && (i < |line| ==> line[i] == delim)
    ensures SplitQuoted(line, delim)
            == if i == |line| then Ok([line]) else Prepend(line[..i], SplitQuoted(line[i + 1..], delim))
  {
    i := IndexOf(line, delim);
  }

  lemma WithFirst(field: bytes, q: bool, fields: seq<bytes>, quoted: seq<bool>, delim: byte)
    requires LegallyQuoted(fields, quoted, delim) && (MustQuote(field, delim) ==> q)
    ensures LegallyQuoted([field] + fields, [q] + quoted, delim)
    ensures fields != [] ==> JoinQuoted([field] + fields, [q] + quoted, delim)
                             == Written(field, q) + ([delim] + JoinQuoted(fields, quoted, delim))
    ensures WrittenBefore([field] + fields, [q] + quoted, delim)
            == Written(field, q) + ([delim] + WrittenBefore(fields, quoted, delim))
  {
    hide Written;
    assert ([field] + fields)[1..] == fields && ([q] + quoted)[1..] == quoted;
  }

  lemma Delimited(line: bytes, i: nat)
    requires i < |line|
    ensures line == line[..i] + ([line[i]] + line[i + 1..])
  {
  }

  /** A line that splits is its fields, joined and legally quoted. */
  lemma {:induction false} QuotingInvertsSplitQuoted(line: bytes, delim: byte) returns (quoted: seq<bool>)
    requires SplitQuoted(line, delim).Ok?
    ensures var fields := SplitQuoted(line, delim).value;
            fields != [] && LegallyQuoted(fields, quoted, delim) && JoinQuoted(fields, quoted, delim) == line
    decreases |line|
  {
    hide SplitQuoted, Escape, MustQuote;
    if line != [] && line[0] == QUOTE {
      var field, closed, after := QuotedStart(line, delim);
      quoted := [true];
      if after != [] {
        var more := QuotingInvertsSplitQuoted(after[1..], delim);
        quoted := [true] + more;
        WithFirst(field, true, SplitQuoted(after[1..], delim).value, more, delim);
        assert after == [delim] + after[1..];
      }
    } else {
      var i := PlainStart(line, delim);
      quoted := [false];
      assert i == |line| ==> line[..i] == line;
      if i < |line| {
        var more := QuotingInvertsSplitQuoted(line[i + 1..], delim);
        quoted := [false] + more;
        WithFirst(line[..i], false, SplitQuoted(line[i + 1..], delim).value, more, delim);
        Delimited(line, i);
      }
    }
  }

  /** Fields as written, each with its delimiter. */
  function WrittenBefore(fields: seq<bytes>, quoted: seq<bool>, delim: byte): bytes
    requires |fields| == |quoted|
  {
    if fields == [] then []
    else Written(fields[0], quoted[0]) + ([delim] + WrittenBefore(fields[1..], quoted[1..], delim))
  }

  /** A quoted field that never ends, or is followed by something else than a delimiter. */
  predicate IsBroken(rest: bytes, field: bytes, after: bytes, delim: byte, e: QuoteError) {
    if e.UnterminatedQuote? then rest == [QUOTE] + Escape(field)
    else rest == Written(field, true) + after && after != [] && after[0] != QUOTE && after[0] != delim
  }

  lemma OneMore(first: bytes, delim: byte, front: bytes, rest: bytes)
    ensures first + ([delim] + (front + rest)) == first + ([delim] + front) + rest
  {
  }

  /** A line that does not split holds some fields and then a broken one. */
  lemma {:induction false} RejectedLineIsBroken(line: bytes, delim: byte)
    returns (front: seq<bytes>, quoted: seq<bool>, rest: bytes, field: bytes, after: bytes)
    requires SplitQuoted(line, delim).Err?
    ensures LegallyQuoted(front, quoted, delim) && line == WrittenBefore(front, quoted, delim) + rest
    ensures IsBroken(rest, field, after, delim, SplitQuoted(line, delim).error)
    decreases |line|
  {
    hide SplitQuoted, Escape, MustQuote, WrittenBefore, IsBroken, Written;
    var first, q, next;
    if line != [] && line[0] == QUOTE {
      var closed;
      first, closed, after := QuotedStart(line, delim);
      if !closed || after[0] != delim {
        front, quoted, rest, field := [], [], line, first;
        NothingBefore(line, delim);
        BrokenMeaning(line, field, after, delim, SplitQuoted(line, delim).error);
        return;
      }
      q, next := true, after[1..];
      assert after == [delim] + next;
    } else {
      var i := PlainStart(line, delim);
      first, q, next := line[..i], false, line[i + 1..];
      Delimited(line, i);
      WrittenPlain(first);
    }
    front, quoted, rest, field, after := RejectedLineIsBroken(next, delim);
    WithFirst(first, q, front, quoted, delim);
    OneMore(Written(first, q), delim, WrittenBefore(front, quoted, delim), rest);
    front, quoted := [first] + front, [q] + quoted;
  }

  lemma NothingBefore(line: bytes, delim: byte)
    ensures WrittenBefore([], [], delim) + line == line
  {
  }

  lemma WrittenPlain(field: bytes)
    ensures Written(field, false) == field
  {
  }

  lemma BrokenMeaning(rest: bytes, field: bytes, after: bytes, delim: byte, e: QuoteError)
    requires if e.UnterminatedQuote? then rest == [QUOTE] + Escape(field)
             else rest == Written(field, true) + after && after != [] && after[0] != QUOTE && after[0] != delim
    ensures IsBroken(rest, field, after, delim, e)
  {
  }

  // ---------- when quoting awareness makes no difference ----------

  lemma {:induction false} ScanShortens(rest: bytes)
    ensures ScanQuoted(rest).Some? ==> |ScanQuoted(rest).value.0| + 1 + |ScanQuoted(rest).value.1| <= |rest|
    decreases |rest|
  {
    if rest != [] {
      if rest[0] != QUOTE {
        ScanShortens(rest[1..]);
      } else if |rest| > 1 && rest[1] == QUOTE {
        ScanShortens(rest[2..]);
      }
    }
  }

  lemma JoinPrepend(field: bytes, fields: seq<bytes>, delim: byte)
    requires fields != []
    ensures |Join([field] + fields, delim)| == |field| + 1 + |Join(fields, delim)|
  {
    assert ([field] + fields)[1..] == fields;
  }

  /** Unquoting only ever removes bytes, and removes some from a line that starts quoted. */
  lemma {:induction false} UnquotingShortens(line: bytes, delim: byte)
    requires SplitQuoted(line, delim).Ok?
    ensures SplitQuoted(line, delim).value != []
    ensures |Join(SplitQuoted(line, delim).value, delim)| <= |line|
    ensures line != [] && line[0] == QUOTE ==> |Join(SplitQuoted(line, delim).value, delim)| < |line|
    decreases |line|
  {
    if line != [] && line[0] == QUOTE {
      ScanShortens(line[1..]);
      var (field, after) := ScanQuoted(line[1..]).value;
      if after != [] {
        UnquotingShortens(after[1..], delim);
        JoinPrepend(field, SplitQuoted(after[1..], delim).value, delim);
      }
    } else {
      var i := IndexOf(line, delim);
      if i < |line| {
        UnquotingShortens(line[i + 1..], delim);
        JoinPrepend(line[..i], SplitQuoted(line[i + 1..], delim).value, delim);
      }
    }
  }

  predicate StartsQuoted(field: bytes) { field != [] && field[0] == QUOTE }

  /** The two splits agree exactly on the lines none of whose plain fields starts with a quote. */
  lemma {:induction false} SplitsAgree(line: bytes, delim: byte)
    requires delim != QUOTE
    ensures SplitQuoted(line, delim) == Ok(Split(line, delim)) <==>
            forall i :: 0 <= i < |Split(line, delim)| ==> !StartsQuoted(Split(line, delim)[i])
    decreases |line|
  {
    var fields, i := Split(line, delim), IndexOf(line, delim);
    if line != [] && line[0] == QUOTE {
      assert StartsQuoted(fields[0]);
      JoinInvertsSplit(line, delim);
      if SplitQuoted(line, delim).Ok? {
        UnquotingShortens(line, delim);
      }
    } else if i < |line| {
      var rest := Split(line[i + 1..], delim);
      SplitsAgree(line[i + 1..], delim);
      assert fields == [line[..i]] + rest;
      assert fields[1..] == rest;
      assert !StartsQuoted(fields[0]);
      assert forall j :: 0 <= j < |rest| ==> rest[j] == fields[j + 1];
      assert forall j :: 1 <= j < |fields| ==> fields[j] == rest[j - 1];
    }
  }
}
