/** Splitting bytes into lines, whole or in pieces cut just after newlines. */
module Lines {
  import opened Words
  import opened Values

  const NEWLINE: byte := 10
  const CARRIAGE_RETURN: byte := 13

  /** Just past the first newline at or after from; the end of the data if there is none. */
  function NextNewline(data: bytes, from: nat): (end: nat)
    requires from <= |data|
    ensures from <= end <= |data|
    decreases |data| - from
  {
    if from == |data| then from
    else if data[from] == NEWLINE then from + 1
    else NextNewline(data, from + 1)
  }

  /** A cut that splits no line: the start, the end, or just after a newline. */
  predicate IsCut(data: bytes, p: nat) {
    p <= |data| && (p == 0 || p == |data| || data[p - 1] == NEWLINE)
  }

  lemma {:induction false} NextNewlineMeaning(data: bytes, from: nat)
    requires from <= |data|
    ensures forall j :: from <= j < NextNewline(data, from) - 1 ==> data[j] != NEWLINE
    ensures from < |data| ==> from < NextNewline(data, from)
    ensures NextNewline(data, from) == |data| || data[NextNewline(data, from) - 1] == NEWLINE
    ensures from < NextNewline(data, from) == |data| ==> data[|data| - 1] == NEWLINE || NEWLINE !in data[from..]
    ensures IsCut(data, NextNewline(data, from))
    decreases |data| - from
  {
    if from < |data| && data[from] != NEWLINE {
      NextNewlineMeaning(data, from + 1);
      assert data[from..] == [data[from]] + data[from + 1..];
    }
  }

  lemma {:induction false} NextNewlineMonotone(data: bytes, p: nat, q: nat)
    requires p <= q <= |data|
    ensures NextNewline(data, p) <= NextNewline(data, q)
    decreases q - p
  {
    if p < q {
      NextNewlineMonotone(data, p + 1, q);
      NextNewlineMeaning(data, p + 1);
    }
  }

  lemma {:induction false} NextNewlineUnique(data: bytes, from: nat, end: nat)
    requires from <= end <= |data| && (from < |data| ==> from < end)
    requires forall j :: from <= j < end - 1 ==> data[j] != NEWLINE
    requires end == |data| || data[end - 1] == NEWLINE
    ensures NextNewline(data, from) == end
    decreases end - from
  {
    if from < end && from + 1 < end {
      NextNewlineUnique(data, from + 1, end);
    }
  }

  // ---------- lines ----------

  /** A line without its terminator: one trailing newline, then one trailing carriage return. */
  function TrimEol(raw: bytes): bytes {
    var line := if |raw| > 0 && raw[|raw| - 1] == NEWLINE then raw[..|raw| - 1] else raw;
    if |line| > 0 && line[|line| - 1] == CARRIAGE_RETURN then line[..|line| - 1] else line
  }

  function RawLines(data: bytes): seq<bytes>
    decreases |data|
  {
    if data == [] then []
    else
      NextNewlineMeaning(data, 0);
      var end := NextNewline(data, 0);
      [data[..end]] + RawLines(data[end..])
  }

  function LinesOf(data: bytes): (lines: seq<bytes>) {
    var raw := RawLines(data);
    seq(|raw|, i requires 0 <= i < |raw| => TrimEol(raw[i]))
  }

  function Concat(parts: seq<bytes>): bytes {
    if parts == [] then [] else parts[0] + Concat(parts[1..])
  }

  ghost predicate IsRawLine(line: bytes) {
    line != [] && forall j :: 0 <= j < |line| - 1 ==> line[j] != NEWLINE
  }

  ghost predicate Terminated(line: bytes) { line != [] && line[|line| - 1] == NEWLINE }

  lemma FirstRawLine(data: bytes)
    requires data != []
    ensures var end := NextNewline(data, 0);
            0 < end <= |data| && IsRawLine(data[..end]) && (end < |data| ==> Terminated(data[..end]))
  {
    hide NextNewline, RawLines;
    NextNewlineMeaning(data, 0);
    var end := NextNewline(data, 0);
    var line := data[..end];
    assert |line| == end && forall j :: 0 <= j < end ==> line[j] == data[j];
  }

  /** The raw lines are the data cut after every newline: nothing lost, no newline inside a
      line, and every line but the last terminated. */
  lemma {:induction false} RawLinesMeaning(data: bytes)
    ensures Concat(RawLines(data)) == data
    ensures forall i :: 0 <= i < |RawLines(data)| ==> IsRawLine(RawLines(data)[i])
    ensures forall i :: 0 <= i < |RawLines(data)| - 1 ==> Terminated(RawLines(data)[i])
    decreases |data|
  {
    hide NextNewline, IsRawLine, Terminated;
    if data != [] {
      FirstRawLine(data);
      var end := NextNewline(data, 0);
      RawLinesMeaning(data[end..]);
      assert data == data[..end] + data[end..];
      if end == |data| {
        assert RawLines(data[end..]) == [];
      }
    }
  }

  lemma FirstLine(data: bytes)
    requires data != []
    ensures var end := NextNewline(data, 0);
            end > 0 && LinesOf(data) == [TrimEol(data[..end])] + LinesOf(data[end..])
  {
    hide TrimEol, NextNewline;
    NextNewlineMeaning(data, 0);
  }

  lemma NewlineInPrefix(data: bytes, p: nat)
    requires IsCut(data, p) && p > 0
    ensures NextNewline(data[..p], 0) == NextNewline(data, 0) <= p
  {
    var end := NextNewline(data, 0);
    NextNewlineMeaning(data, 0);
    assert end <= p by {
      var last := data[p - 1];
      assert p == |data| || last == NEWLINE;
    }
    NextNewlineUnique(data[..p], 0, end);
  }

  /** Cutting after a newline cuts the list of lines. */
  lemma {:induction false} LinesSplitAtCut(data: bytes, p: nat)
    requires IsCut(data, p)
    ensures LinesOf(data) == LinesOf(data[..p]) + LinesOf(data[p..])
    decreases |data|
  {
    hide LinesOf, NextNewline, TrimEol;
    if p == 0 {
      NoLines();
      assert data[..0] == [] && data[0..] == data;
    } else {
      var end, front := NextNewline(data, 0), data[..p];
      NewlineInPrefix(data, p);
      FirstLine(data);
      FirstLine(front);
      assert front[..end] == data[..end] && front[end..] == data[end..][..p - end];
      assert data[end..][p - end..] == data[p..];
      LinesSplitAtCut(data[end..], p - end);
    }
  }

  lemma NoLines()
    ensures LinesOf([]) == []
  {
  }

  // ---------- lines as written ----------

  /** Text that stands for itself as a line: no newline in it, and no carriage return at its end. */
  predicate IsPlainLine(line: bytes) {
    NEWLINE !in line && (line == [] || line[|line| - 1] != CARRIAGE_RETURN)
  }

  function Terminator(crlf: bool): bytes { if crlf then [CARRIAGE_RETURN, NEWLINE] else [NEWLINE] }

  /** Every line with its terminator, of either kind. */
  function PrintLines(lines: seq<bytes>, crlf: seq<bool>): bytes
    requires |lines| == |crlf|
  {
    if lines == [] then [] else lines[0] + Terminator(crlf[0]) + PrintLines(lines[1..], crlf[1..])
  }

  lemma TrimmedLine(line: bytes, crlf: bool)
    requires IsPlainLine(line)
    ensures TrimEol(line + Terminator(crlf)) == line && TrimEol(line) == line
  {
    var raw := line + Terminator(crlf);
    assert raw[..|raw| - 1] == if crlf then line + [CARRIAGE_RETURN] else line;
    if crlf {
      assert (line + [CARRIAGE_RETURN])[..|line|] == line;
    }
    assert line != [] ==> line[|line| - 1] in line;
  }

  lemma FirstPrintedLine(line: bytes, crlf: bool, rest: bytes)
    requires IsPlainLine(line)
    ensures LinesOf(line + Terminator(crlf) + rest) == [line] + LinesOf(rest)
  {
    hide LinesOf, NextNewline, TrimEol;
    var front := line + Terminator(crlf);
    var data, n := front + rest, |front|;
    assert forall j :: 0 <= j < |line| ==> data[j] == line[j] && data[j] in line;
    assert forall j :: |line| <= j < n ==> data[j] == Terminator(crlf)[j - |line|];
    NextNewlineUnique(data, 0, n);
    FirstLine(data);
    TrimmedLine(line, crlf);
    assert data[..n] == front && data[n..] == rest;
  }

  lemma LastPlainLine(last: bytes)
    requires IsPlainLine(last) && last != []
    ensures LinesOf(last) == [last]
  {
    hide LinesOf, NextNewline, TrimEol;
    assert forall j :: 0 <= j < |last| ==> last[j] in last;
    NextNewlineUnique(last, 0, |last|);
    FirstLine(last);
    TrimmedLine(last, false);
    NoLines();
    assert last[..|last|] == last && last[|last|..] == [];
  }

  /** Reading lines inverts writing them, whatever their terminators; the last may lack one. */
  lemma {:induction false} LinesInvertPrinting(lines: seq<bytes>, crlf: seq<bool>, last: bytes)
    requires |lines| == |crlf| && IsPlainLine(last) && forall i :: 0 <= i < |lines| ==> IsPlainLine(lines[i])
    ensures LinesOf(PrintLines(lines, crlf) + last) == lines + if last == [] then [] else [last]
  {
    hide LinesOf, IsPlainLine, Terminator;
    if lines == [] {
      assert PrintLines(lines, crlf) + last == last;
      NoLines();
      if last != [] {
        LastPlainLine(last);
      }
    } else {
      var rest := PrintLines(lines[1..], crlf[1..]);
      LinesInvertPrinting(lines[1..], crlf[1..], last);
      FirstPrintedLine(lines[0], crlf[0], rest + last);
      assert PrintLines(lines, crlf) + last == lines[0] + Terminator(crlf[0]) + (rest + last);
      assert lines == [lines[0]] + lines[1..];
    }
  }
}
