/** Where the query parser reports an error: at the first token that no query could have there. */
module QueryErrors {
  import opened Values
  import opened Lexer
  import opened Queries

  // ---------- the faulty token ----------

  function ItemFault(toks: seq<Token>, i: nat): (f: nat)
    requires Ended(toks) && i < |toks| && ItemAt(toks, i).Err?
    ensures i <= f < |toks|
  {
    if !toks[i].kind.Ident? then i
    else if toks[i + 2].kind.Star? then (if EqualFold(toks[i].kind.text, "COUNT") then i + 3 else i + 2)
    else if toks[i + 2].kind.Ident? then i + 3
    else i + 2
  }

  function ItemsFault(toks: seq<Token>, i: nat): (f: nat)
    requires Ended(toks) && i < |toks| && ItemsAt(toks, i).Err?
    ensures i <= f < |toks|
    decreases |toks| - i
  {
    match ItemAt(toks, i)
    case Err(_) => ItemFault(toks, i)
    case Ok((_, j)) => ItemsFault(toks, j + 1)
  }

  function ColumnsFault(toks: seq<Token>, i: nat): (f: nat)
    requires Ended(toks) && i < |toks| && ColumnsAt(toks, i).Err?
    ensures i <= f < |toks|
    decreases |toks| - i
  {
    if toks[i].kind.Ident? then ColumnsFault(toks, i + 2) else i
  }

  function ClauseFault(toks: seq<Token>, i: nat): (f: nat)
    requires Ended(toks) && i < |toks| && ClauseAt(toks, i).Err?
    ensures i < f < |toks|
  {
    if IsWord(toks[i + 1].kind, "BY") then ColumnsFault(toks, i + 2) else i + 1
  }

  function QueryFault(toks: seq<Token>): (f: nat)
    requires Ended(toks) && QueryIn(toks).Err?
    ensures f < |toks|
  {
    if !IsWord(toks[0].kind, "SELECT") then 0
    else
      match ItemsAt(toks, 1)
      case Err(_) => ItemsFault(toks, 1)
      case Ok((_, i)) =>
        match ClauseAt(toks, i)
        case Err(_) => ClauseFault(toks, i)
        case Ok((_, j)) => j
  }

  // ---------- parsing looks no further than the next token ----------

  /** The same tokens, but for their positions, before token n. */
  predicate SameUpTo(toks: seq<Token>, other: seq<Token>, n: nat) {
    n <= |toks| && n <= |other| && forall i :: 0 <= i < n ==> toks[i].kind == other[i].kind
  }

  /** The other tokens agree through token j, or end there. */
  predicate SameThrough(toks: seq<Token>, other: seq<Token>, j: nat) {
    SameUpTo(toks, other, j + 1) || (SameUpTo(toks, other, j) && j < |other| && other[j].kind.End?)
  }

  lemma ItemIsLocal(toks: seq<Token>, other: seq<Token>, i: nat)
    requires Ended(toks) && Ended(other) && i < |toks| && i < |other|
    ensures ItemAt(toks, i).Ok? && SameThrough(toks, other, ItemAt(toks, i).value.1) ==>
      ItemAt(other, i) == ItemAt(toks, i)
    ensures ItemAt(toks, i).Err? && SameUpTo(toks, other, ItemFault(toks, i) + 1) ==> ItemAt(other, i).Err?
  {
    hide EqualFold;
  }

  lemma {:induction false} ItemsAreLocal(toks: seq<Token>, other: seq<Token>, i: nat)
    requires Ended(toks) && Ended(other) && i < |toks| && i < |other|
    ensures ItemsAt(toks, i).Ok? && SameThrough(toks, other, ItemsAt(toks, i).value.1) ==>
      ItemsAt(other, i) == ItemsAt(toks, i)
    ensures ItemsAt(toks, i).Err? && SameUpTo(toks, other, ItemsFault(toks, i) + 1) ==> ItemsAt(other, i).Err?
    decreases |toks| - i
  {
    hide ItemAt, ItemFault;
    ItemIsLocal(toks, other, i);
    if ItemAt(toks, i).Ok? {
      var j := ItemAt(toks, i).value.1;
      if toks[j].kind.Comma? && j + 1 < |other| {
        ItemsAreLocal(toks, other, j + 1);
      }
    }
  }

  lemma {:induction false} ColumnsAreLocal(toks: seq<Token>, other: seq<Token>, i: nat)
    requires Ended(toks) && Ended(other) && i < |toks| && i < |other|
    ensures ColumnsAt(toks, i).Ok? && SameThrough(toks, other, ColumnsAt(toks, i).value.1) ==>
      ColumnsAt(other, i) == ColumnsAt(toks, i)
    ensures ColumnsAt(toks, i).Err? && SameUpTo(toks, other, ColumnsFault(toks, i) + 1) ==> ColumnsAt(other, i).Err?
    decreases |toks| - i
  {
    if toks[i].kind.Ident? && toks[i + 1].kind.Comma? && i + 2 < |other| {
      ColumnsAreLocal(toks, other, i + 2);
    }
  }

  /** A faulty token cannot be mended by what follows it: no query starts with the tokens up to it. */
  lemma FaultIsFinal(toks: seq<Token>, other: seq<Token>)
    requires Ended(toks) && Ended(other) && QueryIn(toks).Err? && SameUpTo(toks, other, QueryFault(toks) + 1)
    ensures QueryIn(other).Err?
  {
    hide ItemsAt, ItemsFault, ColumnsAt, ColumnsFault, EqualFold;
    if IsWord(toks[0].kind, "SELECT") {
      ItemsAreLocal(toks, other, 1);
      if ItemsAt(toks, 1).Ok? {
        var i := ItemsAt(toks, 1).value.1;
        if IsWord(toks[i].kind, "GROUP") && IsWord(toks[i + 1].kind, "BY") && i + 2 < |other| {
          ColumnsAreLocal(toks, other, i + 2);
        }
      }
    }
  }

  // ---------- what is reported ----------

  /** The error names the position of token f, or the function before the star at token f. */
  predicate Locates(toks: seq<Token>, f: nat, e: QueryError) {
    match e
    case Expected(_, pos) => f < |toks| && pos == toks[f].pos
    case TrailingInput(pos) => f < |toks| && pos == toks[f].pos
    case StarOutsideCount(name) => 2 <= f < |toks| && toks[f].kind.Star? && toks[f - 2].kind == Ident(name)
    case _ => false
  }

  lemma {:induction false} ItemsFaultIsReported(toks: seq<Token>, i: nat)
    requires Ended(toks) && i < |toks| && ItemsAt(toks, i).Err?
    ensures Locates(toks, ItemsFault(toks, i), ItemsAt(toks, i).error)
    decreases |toks| - i
  {
    if ItemAt(toks, i).Ok? {
      ItemsFaultIsReported(toks, ItemAt(toks, i).value.1 + 1);
    }
  }

  lemma {:induction false} ColumnsFaultIsReported(toks: seq<Token>, i: nat)
    requires Ended(toks) && i < |toks| && ColumnsAt(toks, i).Err?
    ensures Locates(toks, ColumnsFault(toks, i), ColumnsAt(toks, i).error)
    decreases |toks| - i
  {
    if toks[i].kind.Ident? {
      ColumnsFaultIsReported(toks, i + 2);
    }
  }

  lemma FaultIsReported(toks: seq<Token>)
    requires Ended(toks) && QueryIn(toks).Err?
    ensures Locates(toks, QueryFault(toks), QueryIn(toks).error)
  {
    hide ItemsAt, ItemsFault, ColumnsAt, ColumnsFault, EqualFold;
    if IsWord(toks[0].kind, "SELECT") {
      if ItemsAt(toks, 1).Err? {
        ItemsFaultIsReported(toks, 1);
      } else {
        var i := ItemsAt(toks, 1).value.1;
        if IsWord(toks[i].kind, "GROUP") && IsWord(toks[i + 1].kind, "BY") && ColumnsAt(toks, i + 2).Err? {
          ColumnsFaultIsReported(toks, i + 2);
        }
      }
    }
  }

  // ---------- what would have been in order ----------

  predicate Meets(k: Kind, what: string) {
    && (what == "SELECT" || what == "BY" ==> IsWord(k, what))
    && (what == "a select item" || what == "a column name" || what == "a column" ==> k.Ident?)
    && (what == "')'" ==> k.RParen?)
  }

  /** The tokens before token f, then these, and no more. */
  function Instead(toks: seq<Token>, f: nat, ks: seq<Kind>): (other: seq<Token>)
    requires Ended(toks) && f < |toks| && forall i :: 0 <= i < |ks| ==> !ks[i].End?
    ensures Ended(other) && SameUpTo(toks, other, f) && |other| == f + |ks| + 1
    ensures forall i :: f <= i < f + |ks| ==> other[i].kind == ks[i - f]
  {
    toks[..f] + seq(|ks| + 1, i requires 0 <= i <= |ks| => Token(if i < |ks| then ks[i] else End, 0))
  }

  const ANY: Kind := Ident("a")

  lemma ItemMends(toks: seq<Token>, i: nat) returns (ks: seq<Kind>)
    requires Ended(toks) && i < |toks| && ItemAt(toks, i).Err?
    ensures forall m :: 0 <= m < |ks| ==> !ks[m].End?
    ensures ks != [] && (ItemAt(toks, i).error.Expected? ==> Meets(ks[0], ItemAt(toks, i).error.what))
    ensures var other := Instead(toks, ItemFault(toks, i), ks);
            ItemAt(other, i).Ok? && ItemAt(other, i).value.1 == |other| - 1
  {
    hide EqualFold;
    var f := ItemFault(toks, i);
    ks := if f == i then [ANY] else if f == i + 2 then [ANY, RParen] else [RParen];
    var other := Instead(toks, f, ks);
  }

  lemma {:induction false} ItemsMend(toks: seq<Token>, i: nat) returns (ks: seq<Kind>)
    requires Ended(toks) && i < |toks| && ItemsAt(toks, i).Err?
    ensures forall m :: 0 <= m < |ks| ==> !ks[m].End?
    ensures ks != [] && (ItemsAt(toks, i).error.Expected? ==> Meets(ks[0], ItemsAt(toks, i).error.what))
    ensures var other := Instead(toks, ItemsFault(toks, i), ks);
            ItemsAt(other, i).Ok? && ItemsAt(other, i).value.1 == |other| - 1
    decreases |toks| - i
  {
    hide ItemAt, ItemFault, Meets, Instead;
    if ItemAt(toks, i).Err? {
      ks := ItemMends(toks, i);
    } else {
      var j := ItemAt(toks, i).value.1;
      ks := ItemsMend(toks, j + 1);
      ItemIsLocal(toks, Instead(toks, ItemsFault(toks, i), ks), i);
    }
  }

  lemma {:induction false} ColumnsMend(toks: seq<Token>, i: nat)
    requires Ended(toks) && i < |toks| && ColumnsAt(toks, i).Err?
    ensures ColumnsAt(toks, i).error.Expected? && Meets(ANY, ColumnsAt(toks, i).error.what)
    ensures var other := Instead(toks, ColumnsFault(toks, i), [ANY]);
            ColumnsAt(other, i).Ok? && ColumnsAt(other, i).value.1 == |other| - 1
    decreases |toks| - i
  {
    hide Instead;
    if toks[i].kind.Ident? {
      ColumnsMend(toks, i + 2);
    }
  }

  lemma ClauseMends(toks: seq<Token>, i: nat) returns (ks: seq<Kind>)
    requires Ended(toks) && i < |toks| && ClauseAt(toks, i).Err?
    ensures forall m :: 0 <= m < |ks| ==> !ks[m].End?
    ensures ClauseAt(toks, i).error.Expected? && ks != [] && Meets(ks[0], ClauseAt(toks, i).error.what)
    ensures var other := Instead(toks, ClauseFault(toks, i), ks);
            ClauseAt(other, i).Ok? && ClauseAt(other, i).value.1 == |other| - 1
  {
    hide ColumnsAt, ColumnsFault, Instead, EqualFold;
    if IsWord(toks[i + 1].kind, "BY") {
      ks := [ANY];
      ColumnsMend(toks, i + 2);
    } else {
      ks := [Ident("BY"), ANY];
      KeywordMends("BY");
      NameEnds(Instead(toks, i + 1, ks), i + 2);
    }
  }

  lemma KeywordMends(word: string)
    ensures IsWord(Ident(word), word)
  {
  }

  /** A name at the end is a list of one. */
  lemma NameEnds(other: seq<Token>, i: nat)
    requires Ended(other) && |other| == i + 2 && other[i].kind == ANY
    ensures ItemsAt(other, i) == Ok(([Bare("a")], i + 1)) && ColumnsAt(other, i) == Ok((["a"], i + 1))
  {
  }

  /** Before the faulty token all was in order: some query starts with the tokens before it, and goes
      on with what was expected. */
  lemma FaultIsFirst(toks: seq<Token>) returns (ks: seq<Kind>)
    requires Ended(toks) && QueryIn(toks).Err?
    ensures forall m :: 0 <= m < |ks| ==> !ks[m].End?
    ensures QueryIn(toks).error.Expected? ==> ks != [] && Meets(ks[0], QueryIn(toks).error.what)
    ensures QueryIn(Instead(toks, QueryFault(toks), ks)).Ok?
  {
    hide ItemsAt, ItemsFault, ColumnsAt, ColumnsFault, ClauseAt, ClauseFault, Instead, EqualFold, Meets;
    if !IsWord(toks[0].kind, "SELECT") {
      ks := [Ident("SELECT"), ANY];
      KeywordMends("SELECT");
      SelectIsMet();
      NameEnds(Instead(toks, 0, ks), 1);
      NoClause(Instead(toks, 0, ks), 2);
    } else if ItemsAt(toks, 1).Err? {
      ks := ItemsMend(toks, 1);
      var other := Instead(toks, ItemsFault(toks, 1), ks);
      NoClause(other, |other| - 1);
    } else {
      var i := ItemsAt(toks, 1).value.1;
      if ClauseAt(toks, i).Err? {
        ks := ClauseMends(toks, i);
      } else {
        ks := [];
        ClauseEnds(toks, Instead(toks, QueryFault(toks), ks), i);
      }
      ItemsAreLocal(toks, Instead(toks, QueryFault(toks), ks), 1);
    }
  }

  lemma SelectIsMet()
    ensures Meets(Ident("SELECT"), "SELECT")
  {
  }

  lemma NoClause(other: seq<Token>, i: nat)
    requires Ended(other) && i == |other| - 1
    ensures ClauseAt(other, i) == Ok(([], i))
  {
  }

  /** Cut off after its group-by clause, or where it might have one, a query is in order. */
  lemma ClauseEnds(toks: seq<Token>, other: seq<Token>, i: nat)
    requires Ended(toks) && Ended(other) && i < |toks| && ClauseAt(toks, i).Ok?
    requires var j := ClauseAt(toks, i).value.1; SameUpTo(toks, other, j) && |other| == j + 1
    ensures ClauseAt(other, i) == ClauseAt(toks, i)
  {
    hide ColumnsAt, EqualFold;
    if IsWord(toks[i].kind, "GROUP") {
      ColumnsAreLocal(toks, other, i + 2);
    }
  }
}
