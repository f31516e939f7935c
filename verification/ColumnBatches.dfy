/** Batches of rows in columnar form, and the pool that recycles them. */
module ColumnBatches {
  import opened Values
  import opened Sequences

  /** Rows in columnar form. */
  class Batch {
    var numRows: nat
    var cols: seq<Column>

    constructor (numRows: nat, cols: seq<Column>)
      ensures this.numRows == numRows && this.cols == cols
    {
      this.numRows, this.cols := numRows, cols;
    }

    predicate Valid()
      reads this
    {
      Aligned(cols, numRows)
    }

    function Rows(): (rows: seq<Row>)
      requires Valid()
      reads this
      ensures |rows| == numRows
    {
      RowsOf(cols, numRows)
    }
  }

  // ---------- appending ----------

  function AppendValue(col: Column, v: Value): (c: Column)
    requires v.Type() == col.typ
    ensures c.typ == col.typ && c.Length() == col.Length() + 1
    ensures ReadValue(c, col.Length()) == v
    ensures forall r :: 0 <= r < col.Length() ==> ReadValue(c, r) == ReadValue(col, r)
  {
    match v
    case Str(s) => col.(strs := col.strs + [s])
    case I64(i) => col.(i64s := col.i64s + [i])
    case F64(bits) => col.(f64s := col.f64s + [bits])
  }

  ghost predicate Typed(cols: seq<Column>, types: seq<ColumnType>) {
    |cols| == |types| && forall i :: 0 <= i < |cols| ==> cols[i].typ == types[i]
  }

  method AppendRow(batch: Batch, row: Row, ghost types: seq<ColumnType>)
    requires batch.Valid() && Typed(batch.cols, types)
    requires |row| == |types| && forall i :: 0 <= i < |row| ==> row[i].Type() == types[i]
    modifies batch
    ensures batch.Valid() && Typed(batch.cols, types)
    ensures batch.numRows == old(batch.numRows) + 1 && batch.Rows() == old(batch.Rows()) + [row]
  {
    hide AppendValue, ReadValue;
    ghost var cols, n := batch.cols, batch.numRows;
    for i := 0 to |row|
      invariant Typed(batch.cols, types) && batch.numRows == n
      invariant forall j :: i <= j < |row| ==> batch.cols[j] == cols[j]
      invariant forall j :: 0 <= j < i ==> batch.cols[j] == AppendValue(cols[j], row[j])
    {
      batch.cols := batch.cols[i := AppendValue(batch.cols[i], row[i])];
    }
    batch.numRows := batch.numRows + 1;
    ExtendedRows(cols, batch.cols, n, row);
  }

  lemma ExtendedRows(before: seq<Column>, after: seq<Column>, n: nat, row: Row)
    requires Aligned(before, n) && |before| == |after| == |row|
    requires forall j :: 0 <= j < |row| ==> row[j].Type() == before[j].typ && after[j] == AppendValue(before[j], row[j])
    ensures Aligned(after, n + 1) && RowsOf(after, n + 1) == RowsOf(before, n) + [row]
  {
    hide AppendValue, ReadValue;
    forall r | 0 <= r < n + 1
      ensures RowAt(after, n + 1, r) == if r < n then RowAt(before, n, r) else row
    {
      forall j | 0 <= j < |row|
        ensures ReadValue(after[j], r) == if r < n then ReadValue(before[j], r) else row[j]
      {
        assert before[j].Length() == n;
      }
    }
    var l, r := RowsOf(after, n + 1), RowsOf(before, n) + [row];
    assert forall i :: 0 <= i < n + 1 ==> l[i] == r[i];
  }

  // ---------- the pool ----------

  /** An emptied column keeps its type. */
  function Reset(col: Column): Column { Column(col.typ, [], [], []) }

  /** Recycles released batches of one schema. */
  class BatchPool {
    const types: seq<ColumnType>
    var free: seq<Batch>
    /** The pooled batches as a set. */
    ghost var idle: set<Batch>

    /** Each pooled batch is there once and has the schema's shape, whatever rows it still holds. */
    ghost predicate Valid()
      reads this, idle
    {
      && idle == (set b | b in free)
      && (forall i, j :: 0 <= i < j < |free| ==> free[i] != free[j])
      && (forall b :: b in idle ==> Typed(b.cols, types))
    }

    constructor (types: seq<ColumnType>)
      ensures Valid() && this.types == types && idle == {}
    {
      this.types, free, idle := types, [], {};
    }

    method NewBatch() returns (batch: Batch)
      ensures fresh(batch) && batch.Valid() && Typed(batch.cols, types) && batch.Rows() == []
    {
      batch := new Batch(0, seq(|types|, i requires 0 <= i < |types| => Column(types[i], [], [], [])));
    }

    /** An empty batch: a recycled one with its rows cleared, or a new one; the pool may choose. */
    method Get() returns (batch: Batch)
      requires Valid()
      modifies this, idle
      ensures Valid() && batch.Valid() && Typed(batch.cols, types) && batch.Rows() == []
      ensures fresh(batch) || batch in old(idle)
      ensures idle == old(idle) - {batch}
    {
      if * {
        batch := NewBatch();
        return;
      }
      if |free| == 0 {
        batch := NewBatch();
        return;
      }
      var n := |free| - 1;
      batch := free[n];
      var cols := batch.cols;
      SplitLast(free);
      free, idle := free[..n], idle - {batch};
      batch.numRows := 0;
      batch.cols := seq(|cols|, i requires 0 <= i < |cols| => Reset(cols[i]));
    }

    /** Takes a released batch back. */
    method Put(batch: Batch)
      requires Valid() && batch !in idle && Typed(batch.cols, types)
      modifies this
      ensures Valid() && idle == old(idle) + {batch}
    {
      free, idle := free + [batch], idle + {batch};
    }
  }
}
