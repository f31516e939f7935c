/** The query parser: recursive descent over tokens, and the folding of select items into an
    aggregation spec. */
module Queries {
  import opened Values
  import opened Sequences
  import opened Lexer

  function Lower(c: char): char {
    if 'A' <= c <= 'Z' then c - 'A' + 'a' else c
  }

  /** Equality of ASCII words but for letter case. */
  predicate EqualFold(s: string, t: string) {
    |s| == |t| && forall i :: 0 <= i < |s| ==> Lower(s[i]) == Lower(t[i])
  }

  predicate IsLetter(c: char) { 'a' <= c <= 'z' || 'A' <= c <= 'Z' }

  /** The same characters but for letters, which may be of either case. */
  lemma EqualFoldMeaning(s: string, t: string)
    ensures EqualFold(s, t) <==>
      && |s| == |t|
      && forall i :: 0 <= i < |s| ==>
           s[i] == t[i] || (IsLetter(s[i]) && IsLetter(t[i]) && (s[i] as int - t[i] as int) % 32 == 0)
  {
    forall i | 0 <= i < |s| && |s| == |t|
      ensures Lower(s[i]) == Lower(t[i]) <==>
        s[i] == t[i] || (IsLetter(s[i]) && IsLetter(t[i]) && (s[i] as int - t[i] as int) % 32 == 0)
    {
    }
  }

  predicate IsWord(k: Kind, word: string) { k.Ident? && EqualFold(k.text, word) }

  datatype SelectItem = CountAll | Func(fn: string, column: string) | Bare(name: string)

  /** The parsed query: what is selected, and the group-by list, empty if there is none. */
  datatype Query = Query(items: seq<SelectItem>, groupBy: seq<string>)

  /** A token list ends with the end of input and has no other. */
  predicate Ended(toks: seq<Token>) {
    toks != [] && forall i :: 0 <= i < |toks| ==> (toks[i].kind.End? <==> i == |toks| - 1)
  }

  // ---------- what the parser computes ----------

  type Parsed<T> = Result<(T, nat), QueryError>

  /** One select item at token i, and where it ends. */
  function ItemAt(toks: seq<Token>, i: nat): (r: Parsed<SelectItem>)
    requires Ended(toks) && i < |toks|
    ensures r.Ok? ==> i < r.value.1 < |toks|
  {
    if !toks[i].kind.Ident? then Err(Expected("a select item", toks[i].pos))
    else if !toks[i + 1].kind.LParen? then Ok((Bare(toks[i].kind.text), i + 1))
    else if toks[i + 2].kind.Star? then
      if !EqualFold(toks[i].kind.text, "COUNT") then Err(StarOutsideCount(toks[i].kind.text))
      else if !toks[i + 3].kind.RParen? then Err(Expected("')'", toks[i + 3].pos))
      else Ok((CountAll, i + 4))
    else if !toks[i + 2].kind.Ident? then Err(Expected("a column name", toks[i + 2].pos))
    else if !toks[i + 3].kind.RParen? then Err(Expected("')'", toks[i + 3].pos))
    else Ok((Func(toks[i].kind.text, toks[i + 2].kind.text), i + 4))
  }

  function ItemsAt(toks: seq<Token>, i: nat): (r: Parsed<seq<SelectItem>>)
    requires Ended(toks) && i < |toks|
    ensures r.Ok? ==> i < r.value.1 < |toks|
    decreases |toks| - i
  {
    match ItemAt(toks, i)
    case Err(e) => Err(e)
    case Ok((item, j)) =>
      if !toks[j].kind.Comma? then Ok(([item], j))
      else
        match ItemsAt(toks, j + 1)
        case Err(e) => Err(e)
        case Ok((items, k)) => Ok(([item] + items, k))
  }

  function ColumnsAt(toks: seq<Token>, i: nat): (r: Parsed<seq<string>>)
    requires Ended(toks) && i < |toks|
    ensures r.Ok? ==> i < r.value.1 < |toks|
    decreases |toks| - i
  {
    if !toks[i].kind.Ident? then Err(Expected("a column", toks[i].pos))
    else if !toks[i + 1].kind.Comma? then Ok(([toks[i].kind.text], i + 1))
    else
      match ColumnsAt(toks, i + 2)
      case Err(e) => Err(e)
      case Ok((cols, k)) => Ok(([toks[i].kind.text] + cols, k))
  }

  /** The group-by clause, if there is one at token i. */
  function ClauseAt(toks: seq<Token>, i: nat): (r: Parsed<seq<string>>)
    requires Ended(toks) && i < |toks|
    ensures r.Ok? ==> i <= r.value.1 < |toks|
  {
    if !IsWord(toks[i].kind, "GROUP") then Ok(([], i))
    else if !IsWord(toks[i + 1].kind, "BY") then Err(Expected("BY", toks[i + 1].pos))
    else ColumnsAt(toks, i + 2)
  }

  function QueryIn(toks: seq<Token>): Result<Query, QueryError>
    requires Ended(toks)
  {
    if !IsWord(toks[0].kind, "SELECT") then Err(Expected("SELECT", toks[0].pos))
    else
      match ItemsAt(toks, 1)
      case Err(e) => Err(e)
      case Ok((items, i)) =>
        match ClauseAt(toks, i)
        case Err(e) => Err(e)
        case Ok((groupBy, j)) =>
          if !toks[j].kind.End? then Err(TrailingInput(toks[j].pos)) else Ok(Query(items, groupBy))
  }

  // ---------- the parser ----------

  /** What a parser method returns, and where it leaves the parser if it succeeds. */
  predicate Follows<T(==)>(r: Result<T, QueryError>, pos: nat, spec: Parsed<T>) {
    match spec
    case Err(e) => r == Err(e)
    case Ok((x, j)) => r == Ok(x) && pos == j
  }

  class Parser {
    const toks: seq<Token>
    var pos: nat

    ghost predicate Valid()
      reads this
    {
      Ended(toks) && pos < |toks|
    }

    constructor (toks: seq<Token>)
      requires Ended(toks)
      ensures Valid() && this.toks == toks && pos == 0
    {
      this.toks, pos := toks, 0;
    }

    function Peek(): Token
      requires Valid()
      reads this
    {
      toks[pos]
    }

    /** Moves past the current token, but never past the end of input. */
    method Advance() returns (t: Token)
      requires Valid()
      modifies this
      ensures Valid() && t == toks[old(pos)]
      ensures pos == if old(pos) < |toks| - 1 then old(pos) + 1 else old(pos)
    {
      t := toks[pos];
      if pos < |toks| - 1 {
        pos := pos + 1;
      }
    }

    method ExpectKeyword(word: string) returns (err: Option<QueryError>)
      requires Valid()
      modifies this
      ensures Valid()
      ensures IsWord(toks[old(pos)].kind, word) ==> err == None && pos == old(pos) + 1
      ensures !IsWord(toks[old(pos)].kind, word) ==> err == Some(Expected(word, toks[old(pos)].pos)) && pos == old(pos)
    {
      var t := Peek();
      if !t.kind.Ident? || !EqualFold(t.kind.text, word) {
        return Some(Expected(word, t.pos));
      }
      t := Advance();
      return None;
    }

    method ExpectIdent() returns (name: Option<string>)
      requires Valid()
      modifies this
      ensures Valid()
      ensures toks[old(pos)].kind.Ident? ==> name == Some(toks[old(pos)].kind.text) && pos == old(pos) + 1
      ensures !toks[old(pos)].kind.Ident? ==> name == None && pos == old(pos)
    {
      var t := Peek();
      if !t.kind.Ident? {
        return None;
      }
      t := Advance();
      return Some(t.kind.text);
    }

    method Expect(k: Kind, what: string) returns (err: Option<QueryError>)
      requires Valid() && !k.End?
      modifies this
      ensures Valid()
      ensures toks[old(pos)].kind == k ==> err == None && pos == old(pos) + 1
      ensures toks[old(pos)].kind != k ==> err == Some(Expected(what, toks[old(pos)].pos)) && pos == old(pos)
    {
      var t := Peek();
      if t.kind != k {
        return Some(Expected(what, t.pos));
      }
      t := Advance();
      return None;
    }

    method ParseSelectItem() returns (r: Result<SelectItem, QueryError>)
      requires Valid()
      modifies this
      ensures Valid() && Follows(r, pos, ItemAt(toks, old(pos)))
    {
      hide EqualFold;
      var name := ExpectIdent();
      if name.None? {
        return Err(Expected("a select item", Peek().pos));
      }
      if !Peek().kind.LParen? {
        return Ok(Bare(name.value));
      }
      var t := Advance();
      if Peek().kind.Star? {
        if !EqualFold(name.value, "COUNT") {
          return Err(StarOutsideCount(name.value));
        }
        t := Advance();
        var err := Expect(RParen, "')'");
        if err.Some? {
          return Err(err.value);
        }
        return Ok(CountAll);
      }
      var column := ExpectIdent();
      if column.None? {
        return Err(Expected("a column name", Peek().pos));
      }
      var err := Expect(RParen, "')'");
      if err.Some? {
        return Err(err.value);
      }
      return Ok(Func(name.value, column.value));
    }

    method ParseSelectList() returns (r: Result<seq<SelectItem>, QueryError>)
      requires Valid()
      modifies this
      ensures Valid() && Follows(r, pos, ItemsAt(toks, old(pos)))
    {
      hide ItemAt;
      ghost var whole := ItemsAt(toks, pos);
      var item := ParseSelectItem();
      if item.Err? {
        return Err(item.error);
      }
      var items := [item.value];
      while Peek().kind.Comma?
        invariant Valid()
        invariant whole == if Peek().kind.Comma? then Joined(items, ItemsAt(toks, pos + 1)) else Ok((items, pos))
        decreases |toks| - pos
      {
        var t := Advance();
        ghost var rest := ItemsAt(toks, pos);
        item := ParseSelectItem();
        if item.Err? {
          return Err(item.error);
        }
        JoinedStep(items, item.value, if Peek().kind.Comma? then ItemsAt(toks, pos + 1) else Ok(([], pos)));
        items := items + [item.value];
      }
      return Ok(items);
    }

    method ParseColList() returns (r: Result<seq<string>, QueryError>)
      requires Valid()
      modifies this
      ensures Valid() && Follows(r, pos, ColumnsAt(toks, old(pos)))
    {
      ghost var whole := ColumnsAt(toks, pos);
      var col := ExpectIdent();
      if col.None? {
        return Err(Expected("a column", Peek().pos));
      }
      var cols := [col.value];
      while Peek().kind.Comma?
        invariant Valid()
        invariant whole == if Peek().kind.Comma? then Joined(cols, ColumnsAt(toks, pos + 1)) else Ok((cols, pos))
        decreases |toks| - pos
      {
        var t := Advance();
        col := ExpectIdent();
        if col.None? {
          return Err(Expected("a column", Peek().pos));
        }
        JoinedStep(cols, col.value, if Peek().kind.Comma? then ColumnsAt(toks, pos + 1) else Ok(([], pos)));
        cols := cols + [col.value];
      }
      return Ok(cols);
    }

    method ParseQuery() returns (r: Result<Query, QueryError>)
      requires Valid() && pos == 0
      modifies this
      ensures r == QueryIn(toks)
    {
      hide ItemsAt, ColumnsAt, EqualFold;
      var err := ExpectKeyword("SELECT");
      if err.Some? {
        return Err(err.value);
      }
      var items := ParseSelectList();
      if items.Err? {
        return Err(items.error);
      }
      var groupBy: seq<string> := [];
      if Peek().kind.Ident? && EqualFold(Peek().kind.text, "GROUP") {
        var t := Advance();
        err := ExpectKeyword("BY");
        if err.Some? {
          return Err(err.value);
        }
        var cols := ParseColList();
        if cols.Err? {
          return Err(cols.error);
        }
        groupBy := cols.value;
      }
      if !Peek().kind.End? {
        return Err(TrailingInput(Peek().pos));
      }
      return Ok(Query(items.value, groupBy));
    }
  }

  /** A list continued by the rest of a parse. */
  function Joined<T>(front: seq<T>, rest: Parsed<seq<T>>): Parsed<seq<T>> {
    match rest
    case Err(e) => Err(e)
    case Ok((xs, j)) => Ok((front + xs, j))
  }

  lemma JoinedStep<T>(front: seq<T>, x: T, rest: Parsed<seq<T>>)
    ensures Joined(front, Joined([x], rest)) == Joined(front + [x], rest)
    ensures rest.Ok? && rest.value.0 == [] ==> Joined(front, Ok(([x], rest.value.1))) == Ok((front + [x], rest.value.1))
  {
    if rest.Ok? {
      ConcatAssociates(front, [x], rest.value.0);
    }
  }

  // ---------- the grammar ----------

  /** select-item: COUNT ( * ), or function ( column ), or a column. */
  predicate ItemForm(ks: seq<Kind>, item: SelectItem) {
    match item
    case CountAll => |ks| == 4 && IsWord(ks[0], "COUNT") && ks[1..] == [LParen, Star, RParen]
    case Func(fn, column) => ks == [Ident(fn), LParen, Ident(column), RParen]
    case Bare(name) => ks == [Ident(name)]
  }

  function ItemSize(item: SelectItem): nat { if item.Bare? then 1 else 4 }

  /** select-list: items separated by commas. */
  predicate ListForm(ks: seq<Kind>, items: seq<SelectItem>)
    decreases |items|
  {
    && items != []
    && var n := ItemSize(items[0]);
       && n <= |ks| && ItemForm(ks[..n], items[0])
       && if |items| == 1 then n == |ks| else n < |ks| && ks[n] == Comma && ListForm(ks[n + 1..], items[1..])
  }

  /** col-list: identifiers separated by commas. */
  predicate ColumnsForm(ks: seq<Kind>, cols: seq<string>)
    decreases |cols|
  {
    && cols != [] && ks != [] && ks[0] == Ident(cols[0])
    && if |cols| == 1 then |ks| == 1 else |ks| > 1 && ks[1] == Comma && ColumnsForm(ks[2..], cols[1..])
  }

  /** The optional clause: GROUP BY col-list. */
  predicate ClauseForm(ks: seq<Kind>, groupBy: seq<string>) {
    if groupBy == [] then ks == []
    else |ks| >= 2 && IsWord(ks[0], "GROUP") && IsWord(ks[1], "BY") && ColumnsForm(ks[2..], groupBy)
  }

  /** query: SELECT select-list, then the optional clause; n tokens make up the list. */
  predicate QueryForm(ks: seq<Kind>, q: Query, n: nat) {
    && 1 + n <= |ks| && IsWord(ks[0], "SELECT")
    && ListForm(ks[1..1 + n], q.items) && ClauseForm(ks[1 + n..], q.groupBy)
  }

  ghost predicate Derives(ks: seq<Kind>, q: Query) {
    exists n: nat :: QueryForm(ks, q, n)
  }

  // ---------- the parser accepts exactly the grammar ----------

  /** The kinds of tokens i to j. */
  function Span(toks: seq<Token>, i: nat, j: nat): (ks: seq<Kind>)
    requires i <= j <= |toks|
    ensures |ks| == j - i && forall k :: 0 <= k < j - i ==> ks[k] == toks[i + k].kind
  {
    KindsOf(toks[i..j])
  }

  lemma SpanSplit(toks: seq<Token>, i: nat, j: nat, k: nat)
    requires i <= j <= k <= |toks|
    ensures Span(toks, i, k)[..j - i] == Span(toks, i, j)
    ensures Span(toks, i, k)[j - i..] == Span(toks, j, k)
  {
  }

  lemma ItemIsForm(toks: seq<Token>, i: nat)
    requires Ended(toks) && i < |toks| && ItemAt(toks, i).Ok?
    ensures var (item, j) := ItemAt(toks, i).value; j == i + ItemSize(item) && ItemForm(Span(toks, i, j), item)
  {
    hide EqualFold;
  }

  /** Among the tokens of a query, only an item's own parenthesis follows its name. */
  lemma FormIsItem(toks: seq<Token>, i: nat, item: SelectItem)
    requires Ended(toks) && i + ItemSize(item) < |toks| && ItemForm(Span(toks, i, i + ItemSize(item)), item)
    requires !toks[i + ItemSize(item)].kind.LParen?
    ensures ItemAt(toks, i) == Ok((item, i + ItemSize(item)))
  {
    hide EqualFold, Span;
    var ks := Span(toks, i, i + ItemSize(item));
    assert ks[0] == toks[i].kind;
    if !item.Bare? {
      assert ks[1] == toks[i + 1].kind && ks[2] == toks[i + 2].kind && ks[3] == toks[i + 3].kind;
      if item.CountAll? {
        assert ks[1..][0] == LParen && ks[1..][1] == Star && ks[1..][2] == RParen;
      }
    }
  }

  lemma {:induction false} ItemsAreForm(toks: seq<Token>, i: nat)
    requires Ended(toks) && i < |toks| && ItemsAt(toks, i).Ok?
    ensures var (items, j) := ItemsAt(toks, i).value; ListForm(Span(toks, i, j), items) && !toks[j].kind.Comma?
    decreases |toks| - i
  {
    hide ItemAt, ItemForm, Span, Ended;
    var (items, j) := ItemsAt(toks, i).value;
    ItemIsForm(toks, i);
    var m := ItemAt(toks, i).value.1;
    var ks := Span(toks, i, j);
    if toks[m].kind.Comma? {
      ItemsAreForm(toks, m + 1);
      SpanSplit(toks, i, m, j);
      SpanSplit(toks, i, m + 1, j);
      assert ks[m - i] == toks[m].kind;
      assert items[1..] == ItemsAt(toks, m + 1).value.0;
    } else {
      assert ks[..m - i] == ks;
    }
  }

  lemma {:induction false} FormAreItems(toks: seq<Token>, i: nat, j: nat, items: seq<SelectItem>)
    requires Ended(toks) && i <= j < |toks| && ListForm(Span(toks, i, j), items)
    requires !toks[j].kind.LParen? && !toks[j].kind.Comma?
    ensures ItemsAt(toks, i) == Ok((items, j))
    decreases |items|
  {
    hide ItemAt, ItemForm, Span, Ended;
    var ks, n := Span(toks, i, j), ItemSize(items[0]);
    SpanSplit(toks, i, i + n, j);
    FormIsItem(toks, i, items[0]);
    if |items| == 1 {
      assert items == [items[0]];
    } else {
      assert ks[n] == toks[i + n].kind;
      SpanSplit(toks, i, i + n + 1, j);
      FormAreItems(toks, i + n + 1, j, items[1..]);
    }
    SplitFirst(items);
  }

  lemma {:induction false} ColumnsAreForm(toks: seq<Token>, i: nat)
    requires Ended(toks) && i < |toks| && ColumnsAt(toks, i).Ok?
    ensures var (cols, j) := ColumnsAt(toks, i).value; ColumnsForm(Span(toks, i, j), cols)
    decreases |toks| - i
  {
    var (cols, j) := ColumnsAt(toks, i).value;
    var ks := Span(toks, i, j);
    if toks[i + 1].kind.Comma? {
      ColumnsAreForm(toks, i + 2);
      SpanSplit(toks, i, i + 2, j);
      assert cols[1..] == ColumnsAt(toks, i + 2).value.0;
    }
  }

  lemma {:induction false} FormAreColumns(toks: seq<Token>, i: nat, j: nat, cols: seq<string>)
    requires Ended(toks) && i <= j < |toks| && ColumnsForm(Span(toks, i, j), cols) && toks[j].kind.End?
    ensures ColumnsAt(toks, i) == Ok((cols, j))
    decreases |cols|
  {
    var ks := Span(toks, i, j);
    if |cols| == 1 {
      assert cols == [cols[0]];
    } else {
      SpanSplit(toks, i, i + 2, j);
      FormAreColumns(toks, i + 2, j, cols[1..]);
    }
    SplitFirst(cols);
  }

  lemma ClauseIsForm(toks: seq<Token>, i: nat)
    requires Ended(toks) && i < |toks| && ClauseAt(toks, i).Ok?
    ensures var (cols, j) := ClauseAt(toks, i).value; toks[j].kind.End? ==> ClauseForm(Span(toks, i, j), cols)
  {
    hide EqualFold, ColumnsAt, ColumnsForm;
    var (cols, j) := ClauseAt(toks, i).value;
    if IsWord(toks[i].kind, "GROUP") {
      ColumnsAreForm(toks, i + 2);
      SpanSplit(toks, i, i + 2, j);
      SomeColumns(Span(toks, i + 2, j), cols);
    }
  }

  lemma SomeColumns(ks: seq<Kind>, cols: seq<string>)
    requires ColumnsForm(ks, cols)
    ensures cols != []
  {
  }

  lemma FormIsClause(toks: seq<Token>, i: nat, j: nat, groupBy: seq<string>)
    requires Ended(toks) && i <= j < |toks| && toks[j].kind.End? && ClauseForm(Span(toks, i, j), groupBy)
    ensures ClauseAt(toks, i) == Ok((groupBy, j)) && !toks[i].kind.LParen? && !toks[i].kind.Comma?
  {
    hide EqualFold, ColumnsAt, ColumnsForm;
    if groupBy != [] {
      SpanSplit(toks, i, i + 2, j);
      assert Span(toks, i, j)[0] == toks[i].kind && Span(toks, i, j)[1] == toks[i + 1].kind;
      FormAreColumns(toks, i + 2, j, groupBy);
    }
  }

  /** The parser accepts a token list exactly when the grammar derives it, and then returns
      the one query it derives. */
  lemma ParserMeetsGrammar(toks: seq<Token>, q: Query)
    requires Ended(toks)
    ensures QueryIn(toks) == Ok(q) <==> Derives(Span(toks, 0, |toks| - 1), q)
  {
    hide QueryIn, ListForm, ClauseForm, Span;
    if QueryIn(toks) == Ok(q) {
      QueryIsDerived(toks);
    }
    if Derives(Span(toks, 0, |toks| - 1), q) {
      var n: nat :| QueryForm(Span(toks, 0, |toks| - 1), q, n);
      DerivedIsQuery(toks, q, n);
    }
  }

  lemma QueryIsDerived(toks: seq<Token>)
    requires Ended(toks) && QueryIn(toks).Ok?
    ensures Derives(Span(toks, 0, |toks| - 1), QueryIn(toks).value)
  {
    hide EqualFold, ItemsAt, ClauseAt, ListForm, ClauseForm;
    var last := |toks| - 1;
    var (items, i) := ItemsAt(toks, 1).value;
    ItemsAreForm(toks, 1);
    ClauseIsForm(toks, i);
    assert ClauseAt(toks, i).value.1 == last;
    var ks := Span(toks, 0, last);
    SpanSplit(toks, 0, i, last);
    SpanSplit(toks, 0, 1, i);
    assert ks[1..1 + (i - 1)] == ks[..i][1..];
    assert QueryForm(ks, QueryIn(toks).value, i - 1);
  }

  lemma DerivedIsQuery(toks: seq<Token>, q: Query, n: nat)
    requires Ended(toks) && QueryForm(Span(toks, 0, |toks| - 1), q, n)
    ensures QueryIn(toks) == Ok(q)
  {
    hide EqualFold, ItemsAt, ClauseAt, ListForm, ClauseForm;
    var last := |toks| - 1;
    var ks := Span(toks, 0, last);
    SpanSplit(toks, 0, 1 + n, last);
    SpanSplit(toks, 0, 1, 1 + n);
    assert ks[1..1 + n] == ks[..1 + n][1..];
    FormIsClause(toks, 1 + n, last, q.groupBy);
    FormAreItems(toks, 1, 1 + n, q.items);
    assert ks[0] == toks[0].kind;
  }

  // ---------- folding select items into measures ----------

  type FuncParser = string -> Option<AggFunc>

  function ItemError(item: SelectItem, groupBy: seq<string>, funcOf: FuncParser): Option<QueryError> {
    match item
    case CountAll => None
    case Bare(name) => if name in groupBy then None else Some(UngroupedColumn(name))
    case Func(fn, _) => if funcOf(fn).Some? then None else Some(BadFunction(fn))
  }

  function FirstError(items: seq<SelectItem>, groupBy: seq<string>, funcOf: FuncParser): (e: Option<QueryError>)
    ensures e.None? <==> forall i :: 0 <= i < |items| ==> ItemError(items[i], groupBy, funcOf).None?
  {
    if items == [] then None
    else if ItemError(items[0], groupBy, funcOf).Some? then ItemError(items[0], groupBy, funcOf)
    else FirstError(items[1..], groupBy, funcOf)
  }

  /** The columns of the function items, each once, in the order they first appear. */
  function Appearances(items: seq<SelectItem>): seq<string> {
    if items == [] then []
    else
      var front, last := Appearances(items[..|items| - 1]), items[|items| - 1];
      if last.Func? && last.column !in front then front + [last.column] else front
  }

  /** The functions asked of one column, in order. */
  function FuncsFor(items: seq<SelectItem>, column: string, funcOf: FuncParser): seq<AggFunc> {
    if items == [] then []
    else
      var front, last := FuncsFor(items[..|items| - 1], column, funcOf), items[|items| - 1];
      if last.Func? && last.column == column && funcOf(last.fn).Some? then front + [funcOf(last.fn).value] else front
  }

  /** The measures of a select list: one for each column, with its functions. */
  function MeasuresOf(items: seq<SelectItem>, funcOf: FuncParser): (ms: seq<MeasureSpec>)
    ensures |ms| == |Appearances(items)|
  {
    seq(|Appearances(items)|, i requires 0 <= i < |Appearances(items)| =>
      MeasureSpec(Appearances(items)[i], FuncsFor(items, Appearances(items)[i], funcOf)))
  }

  lemma {:induction false} AppearancesMeaning(items: seq<SelectItem>)
    ensures forall i, j :: 0 <= i < j < |Appearances(items)| ==> Appearances(items)[i] != Appearances(items)[j]
    ensures forall c ::
      c in Appearances(items) <==> exists i :: 0 <= i < |items| && items[i].Func? && items[i].column == c
  {
    if items != [] {
      var n := |items| - 1;
      AppearancesMeaning(items[..n]);
      forall c
        ensures c in Appearances(items) <==> exists i :: 0 <= i < |items| && items[i].Func? && items[i].column == c
      {
        if i :| 0 <= i < |items| && items[i].Func? && items[i].column == c {
          assert i < n ==> items[..n][i] == items[i];
        }
      }
    }
  }

  predicate Rises(at: seq<nat>) { forall j, k :: 0 <= j < k < |at| ==> at[j] < at[k] }

  predicate IsOn(item: SelectItem, column: string) { item.Func? && item.column == column }

  /** These are the positions of the first items on each of the columns. */
  ghost predicate AreFirsts(items: seq<SelectItem>, columns: seq<string>, at: seq<nat>) {
    && |at| == |columns| && Rises(at)
    && forall k :: 0 <= k < |at| ==> IsFirstOn(items, columns[k], at[k])
  }

  predicate IsFirstOn(items: seq<SelectItem>, column: string, p: nat) {
    p < |items| && IsOn(items[p], column) && forall i :: 0 <= i < p ==> !IsOn(items[i], column)
  }

  lemma FirstsExtend(items: seq<SelectItem>, columns: seq<string>, at: seq<nat>, item: SelectItem)
    requires AreFirsts(items, columns, at)
    ensures AreFirsts(items + [item], columns, at)
    ensures item.Func? && (forall i :: 0 <= i < |items| ==> !IsOn(items[i], item.column)) ==>
      AreFirsts(items + [item], columns + [item.column], at + [|items|])
  {
    forall k | 0 <= k < |at|
      ensures IsFirstOn(items + [item], columns[k], at[k])
    {
      assert IsFirstOn(items, columns[k], at[k]);
    }
  }

  /** The measured columns are listed in the order of the first items on them. */
  lemma {:induction false} FirstAppearances(items: seq<SelectItem>) returns (at: seq<nat>)
    ensures AreFirsts(items, Appearances(items), at)
  {
    hide AreFirsts;
    if items == [] {
      at := [];
      NoFirsts();
    } else {
      var front, last := items[..|items| - 1], items[|items| - 1];
      at := FirstAppearances(front);
      AppearancesMeaning(front);
      FirstsExtend(front, Appearances(front), at, last);
      assert items == front + [last];
      if last.Func? && last.column !in Appearances(front) {
        at := at + [|front|];
      }
    }
  }

  lemma NoFirsts()
    ensures AreFirsts([], [], [])
  {
  }

  /** These are the positions of all items on the column, and the functions they ask for. */
  ghost predicate AsksFor(items: seq<SelectItem>, column: string, funcOf: FuncParser, at: seq<nat>, funcs: seq<AggFunc>)
  {
    && |at| == |funcs| && Rises(at)
    && (forall k :: 0 <= k < |at| ==>
          at[k] < |items| && IsOn(items[at[k]], column) && funcOf(items[at[k]].fn) == Some(funcs[k]))
    && forall p :: 0 <= p < |items| && IsOn(items[p], column) ==> p in at
  }

  lemma AsksForMore(items: seq<SelectItem>, column: string, funcOf: FuncParser, at: seq<nat>, funcs: seq<AggFunc>,
                    item: SelectItem)
    requires AsksFor(items, column, funcOf, at, funcs)
    ensures !IsOn(item, column) ==> AsksFor(items + [item], column, funcOf, at, funcs)
    ensures IsOn(item, column) && funcOf(item.fn).Some? ==>
      AsksFor(items + [item], column, funcOf, at + [|items|], funcs + [funcOf(item.fn).value])
  {
    assert |items| in at + [|items|];
    assert forall p :: p in at ==> p in at + [|items|];
  }

  /** The functions of a measure are those of the items on its column, in their order. */
  lemma {:induction false} FuncsForMeaning(items: seq<SelectItem>, column: string, funcOf: FuncParser)
    returns (at: seq<nat>)
    requires forall i :: 0 <= i < |items| && items[i].Func? ==> funcOf(items[i].fn).Some?
    ensures AsksFor(items, column, funcOf, at, FuncsFor(items, column, funcOf))
  {
    hide AsksFor;
    if items == [] {
      at := [];
      AsksForNothing(column, funcOf);
    } else {
      var front, last := items[..|items| - 1], items[|items| - 1];
      at := FuncsForMeaning(front, column, funcOf);
      AsksForMore(front, column, funcOf, at, FuncsFor(front, column, funcOf), last);
      assert items == front + [last];
      if IsOn(last, column) {
        at := at + [|front|];
      }
    }
  }

  lemma AsksForNothing(column: string, funcOf: FuncParser)
    ensures AsksFor([], column, funcOf, [], [])
  {
  }

  ghost predicate HasFuncs(items: seq<SelectItem>, m: MeasureSpec, funcOf: FuncParser) {
    exists at :: AsksFor(items, m.column, funcOf, at, m.funcs)
  }

  predicate Measures(ms: seq<MeasureSpec>, column: string) { exists k :: 0 <= k < |ms| && ms[k].column == column }

  /** Every column of a function item has one measure, in the order of the first items on them, with
      the functions of exactly the items on that column, in their order. */
  lemma MeasuresMeaning(items: seq<SelectItem>, funcOf: FuncParser) returns (at: seq<nat>)
    requires forall i :: 0 <= i < |items| && items[i].Func? ==> funcOf(items[i].fn).Some?
    ensures var ms := MeasuresOf(items, funcOf);
            && |at| == |ms| && Rises(at)
            && (forall k :: 0 <= k < |ms| ==> IsFirstOn(items, ms[k].column, at[k]))
            && (forall k :: 0 <= k < |ms| ==> HasFuncs(items, ms[k], funcOf))
            && forall p :: 0 <= p < |items| && items[p].Func? ==> Measures(ms, items[p].column)
  {
    hide Appearances, FuncsFor, AsksFor, IsFirstOn;
    at := FirstAppearances(items);
    AppearancesMeaning(items);
    var ms := MeasuresOf(items, funcOf);
    forall k | 0 <= k < |ms|
      ensures HasFuncs(items, ms[k], funcOf)
    {
      var places := FuncsForMeaning(items, ms[k].column, funcOf);
    }
    forall p | 0 <= p < |items| && items[p].Func?
      ensures Measures(ms, items[p].column)
    {
      assert items[p].column in Appearances(items);
      var k :| 0 <= k < |ms| && Appearances(items)[k] == items[p].column;
      assert ms[k].column == items[p].column;
    }
  }

  function Resolve(q: Query, funcOf: FuncParser): Result<AggSpec, QueryError> {
    match FirstError(q.items, q.groupBy, funcOf)
    case Some(e) => Err(e)
    case None => Ok(AggSpec(q.groupBy, MeasuresOf(q.items, funcOf)))
  }

  lemma {:induction false} EarlierIsFirst(items: seq<SelectItem>, groupBy: seq<string>, funcOf: FuncParser, i: nat)
    requires i < |items| && ItemError(items[i], groupBy, funcOf).Some?
    requires forall j :: 0 <= j < i ==> ItemError(items[j], groupBy, funcOf).None?
    ensures FirstError(items, groupBy, funcOf) == ItemError(items[i], groupBy, funcOf)
  {
    if i > 0 {
      EarlierIsFirst(items[1..], groupBy, funcOf, i - 1);
    }
  }

  lemma ErrorIsReported(q: Query, funcOf: FuncParser, i: nat)
    requires i < |q.items| && forall j :: 0 <= j < i ==> ItemError(q.items[j], q.groupBy, funcOf).None?
    ensures match q.items[i] {
              case CountAll => ItemError(q.items[i], q.groupBy, funcOf).None?
              case Bare(name) =>
                if name in q.groupBy then ItemError(q.items[i], q.groupBy, funcOf).None?
                else Resolve(q, funcOf) == Err(UngroupedColumn(name))
              case Func(fn, _) =>
                if funcOf(fn).Some? then ItemError(q.items[i], q.groupBy, funcOf).None?
                else Resolve(q, funcOf) == Err(BadFunction(fn))
            }
  {
    hide FirstError;
    if ItemError(q.items[i], q.groupBy, funcOf).Some? {
      EarlierIsFirst(q.items, q.groupBy, funcOf, i);
    }
  }

  lemma FoldNothing(items: seq<SelectItem>, funcOf: FuncParser)
    ensures Appearances(items[..0]) == [] && MeasuresOf(items[..0], funcOf) == []
  {
  }

  lemma FoldPlain(items: seq<SelectItem>, i: nat, funcOf: FuncParser)
    requires i < |items| && !items[i].Func?
    ensures Appearances(items[..i + 1]) == Appearances(items[..i])
    ensures MeasuresOf(items[..i + 1], funcOf) == MeasuresOf(items[..i], funcOf)
  {
    assert items[..i + 1][..i] == items[..i];
  }

  lemma FuncsForStep(items: seq<SelectItem>, i: nat, c: string, funcOf: FuncParser)
    requires i < |items| && items[i].Func? && funcOf(items[i].fn).Some?
    ensures FuncsFor(items[..i + 1], c, funcOf)
            == if items[i].column == c then FuncsFor(items[..i], c, funcOf) + [funcOf(items[i].fn).value]
               else FuncsFor(items[..i], c, funcOf)
  {
    assert items[..i + 1][..i] == items[..i];
  }

  lemma AppearancesStep(items: seq<SelectItem>, i: nat)
    requires i < |items| && items[i].Func?
    ensures Appearances(items[..i + 1])
            == Appearances(items[..i]) + if items[i].column in Appearances(items[..i]) then [] else [items[i].column]
  {
    assert items[..i + 1][..i] == items[..i];
  }

  lemma {:induction false} NoFuncsBefore(items: seq<SelectItem>, c: string, funcOf: FuncParser)
    requires c !in Appearances(items)
    ensures FuncsFor(items, c, funcOf) == []
  {
    if items != [] {
      NoFuncsBefore(items[..|items| - 1], c, funcOf);
    }
  }

  lemma FoldAgain(items: seq<SelectItem>, i: nat, funcOf: FuncParser, idx: nat)
    requires i < |items| && items[i].Func? && funcOf(items[i].fn).Some?
    requires idx < |Appearances(items[..i])| && Appearances(items[..i])[idx] == items[i].column
    ensures Appearances(items[..i + 1]) == Appearances(items[..i])
    ensures var ms := MeasuresOf(items[..i], funcOf);
            MeasuresOf(items[..i + 1], funcOf)
            == ms[idx := MeasureSpec(ms[idx].column, ms[idx].funcs + [funcOf(items[i].fn).value])]
  {
    hide Appearances, FuncsFor;
    AppearancesStep(items, i);
    AppearancesMeaning(items[..i]);
    var columns := Appearances(items[..i]);
    assert columns + [] == columns;
    var ms, next := MeasuresOf(items[..i], funcOf), MeasuresOf(items[..i + 1], funcOf);
    forall k | 0 <= k < |columns|
      ensures next[k] ==
        if k == idx then MeasureSpec(ms[k].column, ms[k].funcs + [funcOf(items[i].fn).value]) else ms[k]
    {
      FuncsForStep(items, i, columns[k], funcOf);
    }
  }

  lemma FoldFresh(items: seq<SelectItem>, i: nat, funcOf: FuncParser)
    requires i < |items| && items[i].Func? && funcOf(items[i].fn).Some?
    requires items[i].column !in Appearances(items[..i])
    ensures Appearances(items[..i + 1]) == Appearances(items[..i]) + [items[i].column]
    ensures MeasuresOf(items[..i + 1], funcOf)
            == MeasuresOf(items[..i], funcOf) + [MeasureSpec(items[i].column, [funcOf(items[i].fn).value])]
  {
    hide Appearances, FuncsFor;
    AppearancesStep(items, i);
    NoFuncsBefore(items[..i], items[i].column, funcOf);
    var columns := Appearances(items[..i]);
    FuncsForStep(items, i, items[i].column, funcOf);
    var ms, next := MeasuresOf(items[..i], funcOf), MeasuresOf(items[..i + 1], funcOf);
    assert next[|columns|] == MeasureSpec(items[i].column, [funcOf(items[i].fn).value]) by {
      assert [] + [funcOf(items[i].fn).value] == [funcOf(items[i].fn).value];
    }
    forall k | 0 <= k < |columns|
      ensures next[k] == ms[k]
    {
      assert columns[k] != items[i].column;
      FuncsForStep(items, i, columns[k], funcOf);
    }
  }

  lemma FoldIsResolve(q: Query, funcOf: FuncParser)
    requires forall j :: 0 <= j < |q.items| ==> ItemError(q.items[j], q.groupBy, funcOf).None?
    ensures Resolve(q, funcOf) == Ok(AggSpec(q.groupBy, MeasuresOf(q.items[..|q.items|], funcOf)))
  {
    assert q.items[..|q.items|] == q.items;
  }

  /** The index kept while folding: where each column's measure is. */
  ghost predicate Indexes(byColumn: map<string, nat>, columns: seq<string>) {
    && (forall c :: c in byColumn <==> c in columns)
    && (forall c :: c in byColumn ==> byColumn[c] < |columns| && columns[byColumn[c]] == c)
  }

  /** The rules beyond grammar: a bare item must be grouped, a function must be known; then the
      items fold into measures. */
  method FoldItems(q: Query, funcOf: FuncParser) returns (r: Result<AggSpec, QueryError>)
    ensures r == Resolve(q, funcOf)
  {
    hide Resolve, FirstError, Appearances, FuncsFor, ItemError;
    var items := q.items;
    var measures: seq<MeasureSpec> := [];
    var byColumn: map<string, nat> := map[];
    FoldNothing(items, funcOf);
    for i := 0 to |items|
      invariant forall j :: 0 <= j < i ==> ItemError(items[j], q.groupBy, funcOf).None?
      invariant measures == MeasuresOf(items[..i], funcOf) && Indexes(byColumn, Appearances(items[..i]))
    {
      var it := items[i];
      ErrorIsReported(q, funcOf, i);
      match it {
        case CountAll =>
          FoldPlain(items, i, funcOf);
        case Bare(name) =>
          if name !in q.groupBy {
            return Err(UngroupedColumn(name));
          }
          FoldPlain(items, i, funcOf);
        case Func(fn, column) =>
          var f := funcOf(fn);
          if f.None? {
            return Err(BadFunction(fn));
          }
          if column in byColumn {
            var idx := byColumn[column];
            FoldAgain(items, i, funcOf, idx);
            measures := measures[idx := MeasureSpec(measures[idx].column, measures[idx].funcs + [f.value])];
          } else {
            byColumn := byColumn[column := |measures|];
            FoldFresh(items, i, funcOf);
            measures := measures + [MeasureSpec(column, [f.value])];
          }
      }
    }
    FoldIsResolve(q, funcOf);
    return Ok(AggSpec(q.groupBy, measures));
  }

  // ---------- the whole parse ----------

  predicate IsBlank(c: char) { IsSpace(c) || c == 11 as char || c == 12 as char }

  /** The white space of three bytes in UTF-8: U+1680, U+2000 to U+200A, U+2028, U+2029, U+202F,
      U+205F and U+3000. */
  predicate IsWideBlank(a: int, b: int, c: int) {
    || (a == 0xE1 && b == 0x9A && c == 0x80)
    || (a == 0xE2 && b == 0x80 && (0x80 <= c <= 0x8A || c == 0xA8 || c == 0xA9 || c == 0xAF))
    || (a == 0xE2 && b == 0x81 && c == 0x9F)
    || (a == 0xE3 && b == 0x80 && c == 0x80)
  }

  /** How many bytes the white-space character at the front takes in UTF-8, or 0 if there is none. */
  function BlankLength(s: string): (n: nat)
    ensures n <= |s|
  {
    if |s| >= 1 && IsBlank(s[0]) then 1
    else if |s| >= 2 && s[0] as int == 0xC2 && (s[1] as int == 0x85 || s[1] as int == 0xA0) then 2
    else if |s| >= 3 && IsWideBlank(s[0] as int, s[1] as int, s[2] as int) then 3
    else 0
  }

  /** Nothing is left when white space is trimmed. */
  predicate AllBlank(s: string) {
    s == "" || (BlankLength(s) > 0 && AllBlank(s[BlankLength(s)..]))
  }

  lemma {:induction false} ScanEnds(s: string, at: nat)
    ensures Scan(s, at).Ok? ==> Ended(Scan(s, at).value)
    decreases |s|
  {
    hide IsSpace, IsIdentStart, IsIdentPart;
    if s == "" {
    } else if IsSpace(s[0]) {
      ScanEnds(s[1..], at + 1);
    } else if Punctuation(s[0]).Some? {
      ScanEnds(s[1..], at + 1);
    } else if IsIdentStart(s[0]) {
      var n := 1 + PartLength(s[1..]);
      ScanEnds(s[n..], at + n);
    }
  }

  /** What a query string means, or why it is rejected. */
  function Meaning(s: string, funcOf: FuncParser): Result<AggSpec, QueryError> {
    if AllBlank(s) then Err(EmptyQuery)
    else
      match Scan(s, 0)
      case Err(e) => Err(e)
      case Ok(toks) =>
        ScanEnds(s, 0);
        match QueryIn(toks)
        case Err(e) => Err(e)
        case Ok(q) => Resolve(q, funcOf)
  }

  method Parse(s: string, funcOf: FuncParser) returns (r: Result<AggSpec, QueryError>)
    ensures r == Meaning(s, funcOf)
  {
    hide QueryIn, Resolve, Scan;
    if AllBlank(s) {
      return Err(EmptyQuery);
    }
    var toks := Lex(s);
    if toks.Err? {
      return Err(toks.error);
    }
    ScanEnds(s, 0);
    var p := new Parser(toks.value);
    var q := p.ParseQuery();
    if q.Err? {
      return Err(q.error);
    }
    r := FoldItems(q.value, funcOf);
  }

  /** Every bare item is grouped and every function is known. */
  predicate Resolvable(q: Query, funcOf: FuncParser) {
    forall i :: 0 <= i < |q.items| ==> ItemError(q.items[i], q.groupBy, funcOf).None?
  }

  lemma {:induction false} BlankHasNoTokens(s: string, at: nat)
    requires Scan(s, at).Ok?
    ensures AllBlank(s) ==> |Scan(s, at).value| == 1
    decreases |s|
  {
    if s != "" && IsSpace(s[0]) {
      BlankHasNoTokens(s[1..], at + 1);
    }
  }

  lemma TokensBeforeEnd(toks: seq<Token>, ks: seq<Kind>)
    requires KindsOf(toks) == ks + [End]
    ensures |toks| == |ks| + 1 && Span(toks, 0, |toks| - 1) == ks
  {
    assert |KindsOf(toks)| == |ks| + 1;
    forall i | 0 <= i < |ks|
      ensures Span(toks, 0, |toks| - 1)[i] == ks[i]
    {
      assert KindsOf(toks)[i] == (ks + [End])[i];
    }
  }

  /** Round trip: whatever the grammar derives, printed with any legal white space and any
      letter case of the keywords, parses back to its group-by list and its measures. */
  lemma PrintedQueryParses(ks: seq<Kind>, gaps: seq<string>, q: Query, funcOf: FuncParser)
    requires Legal(ks, gaps) && Derives(ks, q) && Resolvable(q, funcOf)
    ensures Meaning(Render(ks, gaps), funcOf) == Ok(AggSpec(q.groupBy, MeasuresOf(q.items, funcOf)))
  {
    hide LegalKind, IsGap, Scan, QueryIn, Render, AllBlank, ItemError, MeasuresOf, Span, KindsOf, EqualFold, ListForm,
         ClauseForm;
    var s := Render(ks, gaps);
    ScanInvertsRender(ks, gaps, 0);
    ScanEnds(s, 0);
    var toks := Scan(s, 0).value;
    TokensBeforeEnd(toks, ks);
    ParserMeetsGrammar(toks, q);
    BlankHasNoTokens(s, 0);
    assert ks != [];
  }

  /** Conversely, every query accepted is the printed form of a derivation in the grammar that
      obeys the rules, and means what that derivation means. */
  lemma ParsedQueryIsPrinted(s: string, funcOf: FuncParser) returns (ks: seq<Kind>, gaps: seq<string>, q: Query)
    requires Meaning(s, funcOf).Ok?
    ensures Legal(ks, gaps) && Render(ks, gaps) == s && Derives(ks, q) && Resolvable(q, funcOf)
    ensures Meaning(s, funcOf) == Ok(AggSpec(q.groupBy, MeasuresOf(q.items, funcOf)))
  {
    hide Legal, Scan, QueryIn, Render, AllBlank, ItemError, MeasuresOf, Span, KindsOf, Derives;
    ScanEnds(s, 0);
    var toks := Scan(s, 0).value;
    ks, gaps := ScannedIsRendered(s, 0);
    q := QueryIn(toks).value;
    TokensBeforeEnd(toks, ks);
    ParserMeetsGrammar(toks, q);
  }
}
