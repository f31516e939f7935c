/** The tokens of the query language. Query text is a sequence of bytes, written as chars. */
module Lexer {
  import opened Values
  import opened Sequences

  datatype Kind = End | Ident(text: string) | Star | LParen | RParen | Comma

  datatype Token = Token(kind: Kind, pos: nat)

  datatype QueryError =
    | EmptyQuery
    | UnexpectedCharacter(c: char, pos: nat)
    | Expected(what: string, pos: nat)
    | StarOutsideCount(name: string)
    | TrailingInput(pos: nat)
    | UngroupedColumn(column: string)
    | BadFunction(name: string)

  predicate IsSpace(c: char) { c == ' ' || c == '\t' || c == '\n' || c == '\r' }

  predicate IsIdentStart(c: char) { c == '_' || 'a' <= c <= 'z' || 'A' <= c <= 'Z' }

  predicate IsIdentPart(c: char) { IsIdentStart(c) || '0' <= c <= '9' || c == '.' }

  /** How many leading characters continue an identifier. */
  function PartLength(s: string): (n: nat)
    ensures n <= |s|
    ensures forall i :: 0 <= i < n ==> IsIdentPart(s[i])
    ensures n < |s| ==> !IsIdentPart(s[n])
  {
    if s == "" || !IsIdentPart(s[0]) then 0 else 1 + PartLength(s[1..])
  }

  /** The token a character is by itself, if it is one. */
  function Punctuation(c: char): Option<Kind> {
    match c
    case '(' => Some(LParen)
    case ')' => Some(RParen)
    case ',' => Some(Comma)
    case '*' => Some(Star)
    case _ => None
  }

  /** The tokens of the text that starts at position at, with the end of input last. */
  function Scan(s: string, at: nat): Result<seq<Token>, QueryError>
    decreases |s|
  {
    if s == "" then Ok([Token(End, at)])
    else if IsSpace(s[0]) then Scan(s[1..], at + 1)
    else if Punctuation(s[0]).Some? then Before(Token(Punctuation(s[0]).value, at), Scan(s[1..], at + 1))
    else if IsIdentStart(s[0]) then
      var n := 1 + PartLength(s[1..]);
      Before(Token(Ident(s[..n]), at), Scan(s[n..], at + n))
    else Err(UnexpectedCharacter(s[0], at))
  }

  function Before(t: Token, rest: Result<seq<Token>, QueryError>): Result<seq<Token>, QueryError> {
    match rest
    case Ok(toks) => Ok([t] + toks)
    case Err(e) => Err(e)
  }

  function After(front: seq<Token>, rest: Result<seq<Token>, QueryError>): Result<seq<Token>, QueryError> {
    match rest
    case Ok(toks) => Ok(front + toks)
    case Err(e) => Err(e)
  }

  lemma AfterOne(front: seq<Token>, t: Token, rest: Result<seq<Token>, QueryError>)
    ensures After(front, Before(t, rest)) == After(front + [t], rest)
  {
    if rest.Ok? {
      ConcatAssociates(front, [t], rest.value);
    }
  }

  /** What the rest of the text from i on scans as, by its first character. */
  lemma ScanFrom(s: string, i: nat)
    requires i < |s|
    ensures IsSpace(s[i]) ==> Scan(s[i..], i) == Scan(s[i + 1..], i + 1)
    ensures !IsSpace(s[i]) && Punctuation(s[i]).Some? ==>
      Scan(s[i..], i) == Before(Token(Punctuation(s[i]).value, i), Scan(s[i + 1..], i + 1))
    ensures !IsSpace(s[i]) && Punctuation(s[i]).None? && !IsIdentStart(s[i]) ==>
      Scan(s[i..], i) == Err(UnexpectedCharacter(s[i], i))
  {
    hide After, Before, IsSpace, IsIdentStart, IsIdentPart, Punctuation, PartLength;
    assert s[i..][1..] == s[i + 1..];
  }

  /** The same for an identifier that ends before j. */
  lemma ScanIdent(s: string, i: nat, j: nat)
    requires i < |s| && !IsSpace(s[i]) && Punctuation(s[i]).None? && IsIdentStart(s[i])
    requires j == i + 1 + PartLength(s[i + 1..])
    ensures j <= |s| && Scan(s[i..], i) == Before(Token(Ident(s[i..j]), i), Scan(s[j..], j))
  {
    hide After, Before, IsSpace, IsIdentStart, IsIdentPart, Punctuation, PartLength;
    assert s[i..][1..] == s[i + 1..] && s[i..][..j - i] == s[i..j] && s[i..][j - i..] == s[j..];
  }

  lemma PartFrom(s: string, i: nat)
    requires i <= |s|
    ensures PartLength(s[i..]) == if i < |s| && IsIdentPart(s[i]) then 1 + PartLength(s[i + 1..]) else 0
  {
    hide IsIdentPart;
    if i < |s| {
      assert s[i..][1..] == s[i + 1..];
    }
  }

  method Lex(s: string) returns (r: Result<seq<Token>, QueryError>)
    ensures r == Scan(s, 0)
  {
    hide Scan, After, Before, IsSpace, IsIdentStart, IsIdentPart, Punctuation, PartLength;
    var toks: seq<Token> := [];
    var i := 0;
    assert s[0..] == s;
    NothingBefore(Scan(s, 0));
    while i < |s|
      invariant i <= |s| && After(toks, Scan(s[i..], i)) == Scan(s, 0)
    {
      var c := s[i];
      ScanFrom(s, i);
      if IsSpace(c) {
        i := i + 1;
      } else if Punctuation(c).Some? {
        var t := Token(Punctuation(c).value, i);
        AfterOne(toks, t, Scan(s[i + 1..], i + 1));
        toks, i := toks + [t], i + 1;
      } else if IsIdentStart(c) {
        var start := i;
        i := i + 1;
        PartFrom(s, i);
        while i < |s| && IsIdentPart(s[i])
          invariant start < i <= |s| && 1 + PartLength(s[start + 1..]) == i - start + PartLength(s[i..])
          invariant i == |s| || !IsIdentPart(s[i]) ==> PartLength(s[i..]) == 0
        {
          PartFrom(s, i);
          i := i + 1;
          PartFrom(s, i);
        }
        var t := Token(Ident(s[start..i]), start);
        ScanIdent(s, start, i);
        AfterOne(toks, t, Scan(s[i..], i));
        toks := toks + [t];
      } else {
        NothingAfterError(toks, UnexpectedCharacter(c, i));
        return Err(UnexpectedCharacter(c, i));
      }
    }
    assert s[i..] == "";
    ScanEnd(|s|);
    EndsWith(toks, Token(End, |s|));
    return Ok(toks + [Token(End, |s|)]);
  }

  lemma ScanEnd(at: nat)
    ensures Scan("", at) == Ok([Token(End, at)])
  {
  }

  lemma NothingBefore(r: Result<seq<Token>, QueryError>)
    ensures After([], r) == r
  {
    if r.Ok? {
      assert [] + r.value == r.value;
    }
  }

  lemma NothingAfterError(toks: seq<Token>, e: QueryError)
    ensures After(toks, Err(e)) == Err(e)
  {
  }

  lemma EndsWith(toks: seq<Token>, t: Token)
    ensures After(toks, Ok([t])) == Ok(toks + [t])
  {
  }

  // ---------- writing tokens out ----------

  predicate IsIdent(s: string) {
    s != "" && IsIdentStart(s[0]) && forall i :: 0 <= i < |s| ==> IsIdentPart(s[i])
  }

  predicate IsGap(s: string) { forall i :: 0 <= i < |s| ==> IsSpace(s[i]) }

  function Lexeme(k: Kind): string {
    match k
    case End => ""
    case Ident(text) => text
    case Star => "*"
    case LParen => "("
    case RParen => ")"
    case Comma => ","
  }

  /** A gap before each token and one at the end. */
  function Render(kinds: seq<Kind>, gaps: seq<string>): string
    requires |gaps| == |kinds| + 1
  {
    if kinds == [] then gaps[0] else gaps[0] + Lexeme(kinds[0]) + Render(kinds[1..], gaps[1..])
  }

  predicate LegalKind(k: Kind) { !k.End? && (k.Ident? ==> IsIdent(k.text)) }

  /** Gaps are any white space, even none, except between two identifiers. */
  predicate Legal(kinds: seq<Kind>, gaps: seq<string>) {
    && |gaps| == |kinds| + 1
    && (forall i :: 0 <= i < |kinds| ==> LegalKind(kinds[i]))
    && (forall i :: 0 <= i < |gaps| ==> IsGap(gaps[i]))
    && (forall i :: 0 <= i < |kinds| - 1 && kinds[i].Ident? && kinds[i + 1].Ident? ==> gaps[i + 1] != "")
  }

  function KindsOf(toks: seq<Token>): (ks: seq<Kind>)
    ensures |ks| == |toks|
  {
    seq(|toks|, i requires 0 <= i < |toks| => toks[i].kind)
  }

  lemma {:induction false} GapIsSkipped(gap: string, t: string, at: nat)
    requires IsGap(gap)
    ensures Scan(gap + t, at) == Scan(t, at + |gap|)
  {
    hide IsSpace;
    if gap == "" {
      assert gap + t == t;
    } else {
      assert (gap + t)[0] == gap[0] && (gap + t)[1..] == gap[1..] + t;
      GapIsSkipped(gap[1..], t, at + 1);
    }
  }

  lemma {:induction false} PartLengthOf(s: string, t: string)
    requires forall i :: 0 <= i < |s| ==> IsIdentPart(s[i])
    requires t == "" || !IsIdentPart(t[0])
    ensures PartLength(s + t) == |s|
  {
    hide IsIdentPart;
    if s == "" {
      assert s + t == t;
    } else {
      assert (s + t)[1..] == s[1..] + t;
      PartLengthOf(s[1..], t);
    }
  }

  lemma IdentIsScanned(id: string, t: string, at: nat)
    requires IsIdent(id) && (t == "" || !IsIdentPart(t[0]))
    ensures Scan(id + t, at) == Before(Token(Ident(id), at), Scan(t, at + |id|))
  {
    hide IsIdentPart, IsSpace, Before;
    var s := id + t;
    IdentStartsAlone(id[0]);
    assert s[0] == id[0] && s[1..] == id[1..] + t;
    PartLengthOf(id[1..], t);
    assert s[..|id|] == id && s[|id|..] == t;
  }

  lemma IdentStartsAlone(c: char)
    requires IsIdentStart(c)
    ensures !IsSpace(c) && Punctuation(c).None? && IsIdentPart(c)
  {
  }

  /** One token, followed by text that does not run on from it, is scanned as that token. */
  lemma TokenIsScanned(k: Kind, t: string, at: nat)
    requires LegalKind(k) && (k.Ident? ==> t == "" || !IsIdentPart(t[0]))
    ensures Scan(Lexeme(k) + t, at) == Before(Token(k, at), Scan(t, at + |Lexeme(k)|))
  {
    hide IsIdentPart, IsIdentStart, Before, IsIdent;
    if k.Ident? {
      IdentIsScanned(k.text, t, at);
    } else {
      var s := Lexeme(k) + t;
      assert s[1..] == t && Punctuation(s[0]) == Some(k);
    }
  }

  lemma KindsOfBefore(t: Token, rest: Result<seq<Token>, QueryError>, kinds: seq<Kind>)
    requires rest.Ok? && KindsOf(rest.value) == kinds
    ensures Before(t, rest).Ok? && KindsOf(Before(t, rest).value) == [t.kind] + kinds
  {
  }

  /** Text after a token cannot run on from it when the gaps are legal. */
  lemma RestDoesNotRunOn(kinds: seq<Kind>, gaps: seq<string>)
    requires Legal(kinds, gaps) && kinds != [] && kinds[0].Ident?
    ensures var t := Render(kinds[1..], gaps[1..]); t == "" || !IsIdentPart(t[0])
  {
    var t := Render(kinds[1..], gaps[1..]);
    if gaps[1] != "" {
      assert t[0] == gaps[1][0];
    } else if |kinds| > 1 {
      assert LegalKind(kinds[1]) && !kinds[1].Ident?;
      assert t == "" + Lexeme(kinds[1]) + Render(kinds[2..], gaps[2..]) by {
        assert kinds[1..][1..] == kinds[2..] && gaps[1..][1..] == gaps[2..];
      }
    }
  }

  /** Scanning what was written gives the tokens back, whatever the white space. */
  lemma {:induction false} ScanInvertsRender(kinds: seq<Kind>, gaps: seq<string>, at: nat)
    requires Legal(kinds, gaps)
    ensures Scan(Render(kinds, gaps), at).Ok?
    ensures KindsOf(Scan(Render(kinds, gaps), at).value) == kinds + [End]
    decreases |kinds|
  {
    hide Scan, IsIdentPart, Lexeme, LegalKind, IsGap, Before;
    if kinds == [] {
      GapAlone(gaps[0], at);
    } else {
      var t := Render(kinds[1..], gaps[1..]);
      ConcatAssociates(gaps[0], Lexeme(kinds[0]), t);
      GapIsSkipped(gaps[0], Lexeme(kinds[0]) + t, at);
      LegalRest(kinds, gaps);
      if kinds[0].Ident? {
        RestDoesNotRunOn(kinds, gaps);
      }
      TokenIsScanned(kinds[0], t, at + |gaps[0]|);
      ScanInvertsRender(kinds[1..], gaps[1..], at + |gaps[0]| + |Lexeme(kinds[0])|);
      KindsOfBefore(Token(kinds[0], at + |gaps[0]|), Scan(t, at + |gaps[0]| + |Lexeme(kinds[0])|), kinds[1..] + [End]);
      SplitFirst(kinds);
      ConcatAssociates([kinds[0]], kinds[1..], [End]);
    }
  }

  lemma LegalRest(kinds: seq<Kind>, gaps: seq<string>)
    requires Legal(kinds, gaps) && kinds != []
    ensures Legal(kinds[1..], gaps[1..]) && IsGap(gaps[0]) && LegalKind(kinds[0])
  {
    hide IsGap, LegalKind;
    var ks, gs := kinds[1..], gaps[1..];
    forall i | 0 <= i < |ks| - 1 && ks[i].Ident? && ks[i + 1].Ident?
      ensures gs[i + 1] != ""
    {
      assert kinds[i + 1].Ident? && kinds[i + 2].Ident?;
    }
  }

  lemma GapAlone(gap: string, at: nat)
    requires IsGap(gap)
    ensures Scan(gap, at) == Ok([Token(End, at + |gap|)])
  {
    GapIsSkipped(gap, "", at);
    assert gap + "" == gap;
  }

  /** Conversely, whatever scans is legally written from its tokens. */
  lemma {:induction false} ScannedIsRendered(s: string, at: nat) returns (kinds: seq<Kind>, gaps: seq<string>)
    requires Scan(s, at).Ok?
    ensures KindsOf(Scan(s, at).value) == kinds + [End]
    ensures Legal(kinds, gaps) && Render(kinds, gaps) == s
    decreases |s|
  {
    hide Legal, Render, IsSpace, IsIdentStart, IsIdentPart, Punctuation;
    if s == "" {
      kinds, gaps := [], [""];
      EmptyIsLegal();
    } else if IsSpace(s[0]) {
      kinds, gaps := ScannedIsRendered(s[1..], at + 1);
      gaps := WiderGap(s, kinds, gaps);
    } else {
      var n := if Punctuation(s[0]).Some? then 1 else 1 + PartLength(s[1..]);
      var k := if Punctuation(s[0]).Some? then Punctuation(s[0]).value else Ident(s[..n]);
      TokenIsLegal(s, n, k);
      kinds, gaps := ScannedIsRendered(s[n..], at + n);
      KindsOfBefore(Token(k, at), Scan(s[n..], at + n), kinds + [End]);
      ConcatAssociates([k], kinds, [End]);
      gaps := OneMoreToken(s, n, k, kinds, gaps);
      kinds := [k] + kinds;
    }
  }

  lemma EmptyIsLegal()
    ensures Legal([], [""]) && Render([], [""]) == ""
  {
  }

  lemma WiderGap(s: string, kinds: seq<Kind>, gaps: seq<string>) returns (wider: seq<string>)
    requires s != "" && IsSpace(s[0]) && Legal(kinds, gaps) && Render(kinds, gaps) == s[1..]
    ensures Legal(kinds, wider) && Render(kinds, wider) == s
  {
    hide IsSpace, Lexeme, LegalKind;
    wider := gaps[0 := [s[0]] + gaps[0]];
    assert s == [s[0]] + s[1..];
    if kinds != [] {
      assert wider[1..] == gaps[1..];
      ConcatAssociates([s[0]], gaps[0], Lexeme(kinds[0]) + Render(kinds[1..], gaps[1..]));
      ConcatAssociates([s[0]] + gaps[0], Lexeme(kinds[0]), Render(kinds[1..], gaps[1..]));
      ConcatAssociates(gaps[0], Lexeme(kinds[0]), Render(kinds[1..], gaps[1..]));
    }
  }

  lemma TokenIsLegal(s: string, n: nat, k: Kind)
    requires s != "" && !IsSpace(s[0]) && (Punctuation(s[0]).Some? || IsIdentStart(s[0]))
    requires n == if Punctuation(s[0]).Some? then 1 else 1 + PartLength(s[1..])
    requires k == if Punctuation(s[0]).Some? then Punctuation(s[0]).value else Ident(s[..n])
    ensures LegalKind(k) && Lexeme(k) == s[..n]
    ensures k.Ident? ==> s[n..] == "" || !IsIdentPart(s[n..][0])
  {
    if Punctuation(s[0]).None? {
      var rest := s[1..];
      assert forall i :: 1 <= i < n ==> s[i] == rest[i - 1];
      if n < |s| {
        assert s[n] == rest[n - 1];
      }
    }
  }

  lemma OneMoreToken(s: string, n: nat, k: Kind, kinds: seq<Kind>, gaps: seq<string>) returns (more: seq<string>)
    requires n <= |s| && LegalKind(k) && Lexeme(k) == s[..n]
    requires k.Ident? ==> s[n..] == "" || !IsIdentPart(s[n..][0])
    requires Legal(kinds, gaps) && Render(kinds, gaps) == s[n..]
    ensures Legal([k] + kinds, more) && Render([k] + kinds, more) == s
  {
    hide IsGap, Lexeme;
    var all := [k] + kinds;
    more := [""] + gaps;
    EmptyIsGap();
    assert all[1..] == kinds && more[1..] == gaps;
    assert "" + Lexeme(k) == Lexeme(k);
    assert s == s[..n] + s[n..];
    if k.Ident? && kinds != [] && kinds[0].Ident? {
      FirstCharacter(kinds, gaps);
    }
    forall i | 0 <= i < |all| - 1 && all[i].Ident? && all[i + 1].Ident?
      ensures more[i + 1] != ""
    {
      if i > 0 {
        assert kinds[i - 1].Ident? && kinds[i].Ident?;
      }
    }
  }

  lemma EmptyIsGap()
    ensures IsGap("")
  {
  }

  lemma FirstCharacter(kinds: seq<Kind>, gaps: seq<string>)
    requires Legal(kinds, gaps) && kinds != [] && kinds[0].Ident?
    ensures gaps[0] == "" ==> Render(kinds, gaps) != "" && IsIdentPart(Render(kinds, gaps)[0])
  {
    assert LegalKind(kinds[0]);
  }

  // ---------- positions ----------

  /** The token's text is found at its position in s, which starts at position at. */
  predicate SitsIn(t: Token, s: string, at: nat) {
    && at <= t.pos && t.pos - at + |Lexeme(t.kind)| <= |s|
    && s[t.pos - at..t.pos - at + |Lexeme(t.kind)|] == Lexeme(t.kind)
  }

  /** Every token is reported at the position its text has; the end of input at the end. */
  lemma {:induction false} TokensSitAtTheirPositions(s: string, at: nat)
    requires Scan(s, at).Ok?
    ensures forall i :: 0 <= i < |Scan(s, at).value| ==> SitsIn(Scan(s, at).value[i], s, at)
    ensures Scan(s, at).value != [] && Scan(s, at).value[|Scan(s, at).value| - 1] == Token(End, at + |s|)
    decreases |s|
  {
    hide IsSpace, IsIdentStart, IsIdentPart, SitsIn, Punctuation, Before;
    if s == "" {
      EndSits(at);
    } else {
      var n := if IsSpace(s[0]) || Punctuation(s[0]).Some? then 1 else 1 + PartLength(s[1..]);
      if IsSpace(s[0]) {
        TokensSitAtTheirPositions(s[1..], at + 1);
        SitsLater(Scan(s[1..], at + 1).value, s, 1, at);
      } else {
        var k := if Punctuation(s[0]).Some? then Punctuation(s[0]).value else Ident(s[..n]);
        RestScans(Token(k, at), Scan(s[n..], at + n));
        TokensSitAtTheirPositions(s[n..], at + n);
        SitsLater(Scan(s[n..], at + n).value, s, n, at);
        FirstSits(s, n, k, at);
      }
    }
  }

  lemma RestScans(t: Token, rest: Result<seq<Token>, QueryError>)
    requires Before(t, rest).Ok?
    ensures rest.Ok? && Before(t, rest).value == [t] + rest.value
  {
  }

  lemma EndSits(at: nat)
    ensures SitsIn(Token(End, at), "", at)
  {
  }

  lemma FirstSits(s: string, n: nat, k: Kind, at: nat)
    requires s != "" && !IsSpace(s[0]) && (Punctuation(s[0]).Some? || IsIdentStart(s[0])) && n <= |s|
    requires n == if Punctuation(s[0]).Some? then 1 else 1 + PartLength(s[1..])
    requires k == if Punctuation(s[0]).Some? then Punctuation(s[0]).value else Ident(s[..n])
    ensures SitsIn(Token(k, at), s, at)
  {
    hide PartLength, IsIdentStart, IsSpace, Punctuation, Lexeme;
    MarkLexeme(s[0]);
    if Punctuation(s[0]).Some? {
      assert s[..1] == [s[0]];
    }
  }

  lemma MarkLexeme(c: char)
    ensures Punctuation(c).Some? ==> Lexeme(Punctuation(c).value) == [c]
    ensures forall text :: Lexeme(Ident(text)) == text
  {
  }

  lemma SitsLater(toks: seq<Token>, s: string, n: nat, at: nat)
    requires n <= |s| && forall i :: 0 <= i < |toks| ==> SitsIn(toks[i], s[n..], at + n)
    ensures forall i :: 0 <= i < |toks| ==> SitsIn(toks[i], s, at)
  {
    hide Lexeme;
    forall i | 0 <= i < |toks|
      ensures SitsIn(toks[i], s, at)
    {
      var p, m := toks[i].pos - at - n, |Lexeme(toks[i].kind)|;
      assert SitsIn(toks[i], s[n..], at + n);
      assert s[n..][p..p + m] == s[n + p..n + p + m];
    }
  }

  // ---------- the character that is rejected ----------

  lemma {:induction false} PartsCutOff(s: string, k: nat)
    requires PartLength(s) <= k <= |s|
    ensures PartLength(s[..k]) == PartLength(s)
  {
    if s != "" && IsIdentPart(s[0]) {
      PartsCutOff(s[1..], k - 1);
      assert s[..k][1..] == s[1..][..k - 1];
    }
  }

  /** How many characters a token or a white space takes. */
  function Width(s: string): (n: nat)
    requires s != ""
    ensures 1 <= n <= |s|
  {
    if IsSpace(s[0]) || Punctuation(s[0]).Some? then 1 else 1 + PartLength(s[1..])
  }

  predicate StartsSomething(c: char) { IsSpace(c) || Punctuation(c).Some? || IsIdentStart(c) }

  lemma ScanSteps(s: string, at: nat)
    requires s != "" && StartsSomething(s[0])
    ensures Scan(s, at).Ok? <==> Scan(s[Width(s)..], at + Width(s)).Ok?
    ensures Scan(s, at).Err? ==> Scan(s, at).error == Scan(s[Width(s)..], at + Width(s)).error
  {
    hide IsSpace, IsIdentStart, Punctuation, PartLength;
  }

  lemma WidthCutOff(s: string, k: nat)
    requires s != "" && Width(s) <= k <= |s|
    ensures s[..k] != "" && s[..k][0] == s[0] && Width(s[..k]) == Width(s)
    ensures s[..k][Width(s)..] == s[Width(s)..][..k - Width(s)]
  {
    hide IsSpace, Punctuation, PartLength;
    if !IsSpace(s[0]) && !Punctuation(s[0]).Some? {
      PartsCutOff(s[1..], k - 1);
      assert s[..k][1..] == s[1..][..k - 1];
    }
  }

  lemma ScanFails(s: string, at: nat)
    requires s != "" && !StartsSomething(s[0])
    ensures Scan(s, at) == Err(UnexpectedCharacter(s[0], at))
  {
  }

  lemma ScanNothing(s: string, at: nat)
    ensures Scan("", at).Ok? && s[..0] == ""
  {
  }

  /** The text before the character reported scans, and that character starts nothing. */
  lemma {:induction false} RejectedCharacter(s: string, at: nat)
    requires Scan(s, at).Err?
    ensures var e := Scan(s, at).error;
            && e.UnexpectedCharacter? && at <= e.pos < at + |s| && s[e.pos - at] == e.c && !StartsSomething(e.c)
            && Scan(s[..e.pos - at], at).Ok?
    decreases |s|
  {
    hide Scan, StartsSomething, Width;
    ScanNothing(s, at);
    if StartsSomething(s[0]) {
      var n := Width(s);
      ScanSteps(s, at);
      RejectedCharacter(s[n..], at + n);
      var k := Scan(s, at).error.pos - at;
      WidthCutOff(s, k);
      ScanSteps(s[..k], at);
    } else {
      ScanFails(s, at);
    }
  }
}
