/** The aggregator object: folds batches of rows into a table of running groups, and merges with
    other aggregators or with snapshots of their state. Every object a group consists of belongs
    to that group alone. */
module Aggregators {
  import opened Words
  import opened Values
  import opened ColumnBatches
  import opened GroupKeys
  import opened Groups
  import opened GroupAccums
  import opened GroupTables
  import opened States
  import opened Snapshots

  /** The seeded hash functions of one aggregator: arbitrary, and different in each. */
  datatype Hasher = Hasher(
    ofString: bytes -> uint64,
    ofInt: int64 -> uint64,
    ofBits: uint64 -> uint64,
    ofEncoding: bytes -> uint64)
  {
    function OfKey(key: Key): uint64 {
      if |key| == 1 then
        match key[0]
        case Str(s) => ofString(s)
        case I64(i) => ofInt(i)
        case F64(bits) => ofBits(bits)
      else ofEncoding(Encode(key))
    }
  }

  datatype AggregateError =
    | ColumnCountMismatch
    | SpecMismatch
    | MeasureTypeMismatch
    | PercentileState
    | MalformedState

  class Aggregator {
    const shape: Shape
    const hasher: Hasher
    const table: GroupTable

    ghost predicate Valid()
      reads table, table.hashes, table.slots, table.full, Foot(table.stored)
    {
      && shape.Valid()
      && table.Valid()
      && (forall key :: table.hashOf(key) == hasher.OfKey(key))
      && Keyed(table.stored) && Tidy(table.stored) && table.Repr() !! Foot(table.stored)
      && AllFit(shape, View())
    }

    /** The groups, as a mathematical map. */
    ghost function View(): GroupMap
      reads table, Foot(table.stored)
    {
      AllVals(table.stored)
    }

    ghost function Repr(): set<object>
      reads table, table.stored.Values
    {
      table.Repr() + Foot(table.stored)
    }

    constructor (shape: Shape, hasher: Hasher)
      requires shape.Valid()
      ensures Valid() && View() == map[] && fresh(Repr())
      ensures this.shape == shape && this.hasher == hasher
    {
      this.shape, this.hasher := shape, hasher;
      table := new GroupTable(hasher.OfKey);
      new;
      hide GroupTable.Valid, Tidy, Foot, AllVals, Hasher.OfKey;
      NothingHeld<Key>();
    }

    // ---------- adding rows ----------

    lemma FitsExtend(m: GroupMap, key: Key, g: Group)
      requires shape.Valid() && AllFit(shape, m) && Fits(shape, g)
      ensures AllFit(shape, m[key := g])
    {
      hide Fits;
    }

    /** Puts a group with a new key in the table. */
    method Take(hash: uint64, og: GroupAccum, ghost m: GroupMap, ghost b: Group)
      requires Valid() && View() == m && AllFit(shape, m) && hash == hasher.OfKey(og.key)
      requires og.key !in table.stored && og.Valid() && og.Val() == b && Fits(shape, b)
      requires og !in Repr() && og.Parts() !! Repr()
      modifies table.Repr()
      ensures Valid() && View() == m[og.key := b] && og.key in table.stored && table.stored[og.key] == og
      ensures forall x :: x in Repr() ==> x in old(Repr()) || x == og || x in old(og.Parts()) || fresh(x)
    {
      hide AllFit, GroupTable.Valid, Hasher.OfKey, Fits, Shape.Valid, GroupAccum.Valid, GroupAccum.Parts,
           GroupAccum.Val, Tidy, AllVals, AllParts, Foot, Keyed;
      FootExists(table.stored);
      KeyedExtends(table.stored, og);
      TidyExtends(table.stored, og.key, og);
      FootExists(table.stored[og.key := og]);
      FitsExtend(m, og.key, b);
      table.InsertNew(hash, og);
    }

    /** Puts an empty group in the table. */
    method NewGroupFor(hash: uint64, key: Key, ghost m: GroupMap) returns (g: GroupAccum)
      requires Valid() && View() == m && AllFit(shape, m) && hash == hasher.OfKey(key) && key !in table.stored
      modifies table.Repr()
      ensures Valid() && forall x :: x in Repr() ==> x in old(Repr()) || fresh(x)
      ensures key in table.stored && g == table.stored[key]
      ensures View() == m[key := NewGroup(shape)]
    {
      hide AllFit, NewGroup, GroupTable.Valid, Hasher.OfKey, Fits, Shape.Valid, GroupAccum.Valid, GroupAccum.Val, Tidy,
           AllVals, AllParts;
      FootExists(table.stored);
      g := new GroupAccum(key, shape);
      g.PartsExist();
      Take(hash, g, m, NewGroup(shape));
    }

    /** The group a lookup found, or a new group in the table if it found none. */
    method GroupFor(found: GroupAccum?, hash: uint64, key: Key, ghost m: GroupMap) returns (g: GroupAccum)
      requires Valid() && View() == m && AllFit(shape, m) && hash == hasher.OfKey(key)
      requires found == if key in table.stored then table.stored[key] else null
      modifies table.Repr()
      ensures Valid() && forall x :: x in Repr() ==> x in old(Repr()) || fresh(x)
      ensures key in table.stored && g == table.stored[key]
      ensures View() == m[key := GroupOf(shape, m, key)]
    {
      hide AllFit, NewGroup, GroupTable.Valid, Hasher.OfKey, Fits, Shape.Valid, GroupAccum.Val, GroupAccum.Valid,
           GroupAccum.Parts, Tidy, Foot, AllParts;
      if found != null {
        return found;
      }
      g := NewGroupFor(hash, key, m);
    }

    /** Folds row r into a group of the table. */
    method AddInto(g: GroupAccum, cols: seq<Column>, r: nat, ghost m: GroupMap, ghost row: Row)
      requires Valid() && View() == m && AllFit(shape, m) && g.key in m && g.key in table.stored
      requires g == table.stored[g.key]
      requires |cols| == |row| == shape.numColumns && IsRow(cols, r, row)
      modifies g, g.Parts()
      ensures Valid() && Repr() == old(Repr())
      ensures View() == m[g.key := AddToGroup(shape, m[g.key], row)]
    {
      hide AddToGroup, GroupTable.Valid, Hasher.OfKey, IsRow, Fits, Shape.Valid, GroupAccum.Val, GroupAccum.Valid,
           GroupAccum.Parts, Tidy, Foot, AllVals, AllParts;
      GroupAt(table.stored, g.key);
      AddRowTo(table.stored, g.key, g, shape, cols, r, m, row);
      FitsExtend(m, g.key, AddToGroup(shape, m[g.key], row));
    }

    lemma TableIsPart()
      ensures table.Repr() <= Repr()
    {
    }

    lemma GroupIsPart(key: Key)
      requires Valid() && key in table.stored
      ensures var g := table.stored[key]; g.key == key && g in Repr() && g.Parts() <= Repr()
    {
      hide GroupTable.Valid, AllFit, Hasher.OfKey;
      GroupAt(table.stored, key);
    }

    /** Folds row r into the group its lookup found, or into a new group if it found none. */
    method FoldRow(found: GroupAccum?, hash: uint64, key: Key, cols: seq<Column>, r: nat, ghost m: GroupMap,
                   ghost row: Row)
      requires Valid() && View() == m && AllFit(shape, m)
      requires |cols| == |row| == shape.numColumns && IsRow(cols, r, row)
      requires key == shape.KeyOf(row) && hash == hasher.OfKey(key)
      requires found == if key in table.stored then table.stored[key] else null
      modifies Repr()
      ensures Valid() && forall x :: x in Repr() ==> x in old(Repr()) || fresh(x)
      ensures View() == AddRow(shape, m, row)
    {
      hide AllFit, AddToGroup, GroupOf, GroupTable.Valid, GroupTable.Repr, Hasher.OfKey, IsRow, Fits, Shape.KeyOf,
           Shape.Valid, GroupAccum.Val, GroupAccum.Valid, GroupAccum.Parts, Tidy, Foot, AllVals, AllParts, Valid, View,
           Repr;
      ValidShape();
      TableIsPart();
      var g := GroupFor(found, hash, key, m);
      GroupIsPart(key);
      ViewFits();
      AddInto(g, cols, r, m[key := GroupOf(shape, m, key)], row);
    }

    /** What the lookups of the loops below need. */
    lemma Lookups(key: Key)
      requires Valid()
      ensures table.Valid() && table.hashOf(key) == hasher.OfKey(key)
      ensures forall x :: x in Foot(table.stored) ==> allocated(x)
    {
      hide GroupTable.Valid, Tidy, Foot, Hasher.OfKey, AllFit;
      FootExists(table.stored);
    }

    /** The batch's rows as values: what the loops below fold, one at a time. */
    ghost predicate Batched(cols: seq<Column>, n: nat, rows: seq<Row>) {
      && shape.Valid() && |cols| == shape.numColumns
      && |rows| == n && RowsFit(shape, rows)
      && forall r :: 0 <= r < n ==> IsRow(cols, r, rows[r])
    }

    method AddByString(cols: seq<Column>, n: nat, ghost rows: seq<Row>, ghost m: GroupMap)
      requires Valid() && View() == m && AllFit(shape, m) && Batched(cols, n, rows)
      requires |shape.groupByIdx| == 1 && cols[shape.groupByIdx[0]].typ == TypeString
      modifies Repr()
      ensures Valid() && forall x :: x in Repr() ==> x in old(Repr()) || fresh(x)
      ensures View() == AddRows(shape, m, rows)
    {
      hide Valid, View, Repr, AddRow, AddRows, AllFit, Fits, GroupTable.Valid, IsRow, Shape.KeyOf;
      var col := cols[shape.groupByIdx[0]];
      AddNoRows(shape, m, rows);
      for r := 0 to n
        invariant Valid()
        invariant forall x :: x in Repr() ==> x in old(Repr()) || fresh(x)
        invariant View() == AddRows(shape, m, rows[..r])
      {
        KeyOfOne(cols, rows[r], r);
        FoldString(col.strs[r], cols, r, AddRows(shape, m, rows[..r]), rows[r]);
        AddRowsStep(shape, m, rows, r);
      }
      assert rows[..n] == rows;
    }

    /** Finds or makes the group of row r by its one string, and folds the row into it. */
    method FoldString(s: bytes, cols: seq<Column>, r: nat, ghost m: GroupMap, ghost row: Row)
      requires Valid() && View() == m && AllFit(shape, m) && |cols| == |row| == shape.numColumns && IsRow(cols, r, row)
      requires shape.KeyOf(row) == [Str(s)]
      modifies Repr()
      ensures Valid() && View() == AddRow(shape, m, row)
      ensures forall x :: x in Repr() ==> x in old(Repr()) || fresh(x)
    {
      hide Valid, View, AddRow, AllFit, Fits, GroupOf, GroupTable.Valid, IsRow, Shape.KeyOf, Tidy, AllParts, AllVals;
      ghost var was := Repr();
      Lookups([Str(s)]);
      var hash := hasher.ofString(s);
      var g, ok := table.FindByString(hash, s);
      assert Repr() == was;
      FoldRow(g, hash, [Str(s)], cols, r, m, row);
    }

    method AddByInt(cols: seq<Column>, n: nat, ghost rows: seq<Row>, ghost m: GroupMap)
      requires Valid() && View() == m && AllFit(shape, m) && Batched(cols, n, rows)
      requires |shape.groupByIdx| == 1 && cols[shape.groupByIdx[0]].typ == TypeInt64
      modifies Repr()
      ensures Valid() && forall x :: x in Repr() ==> x in old(Repr()) || fresh(x)
      ensures View() == AddRows(shape, m, rows)
    {
      hide Valid, View, Repr, AddRow, AddRows, AllFit, Fits, GroupTable.Valid, IsRow, Shape.KeyOf;
      var col := cols[shape.groupByIdx[0]];
      AddNoRows(shape, m, rows);
      for r := 0 to n
        invariant Valid()
        invariant forall x :: x in Repr() ==> x in old(Repr()) || fresh(x)
        invariant View() == AddRows(shape, m, rows[..r])
      {
        KeyOfOne(cols, rows[r], r);
        FoldInt(col.i64s[r], cols, r, AddRows(shape, m, rows[..r]), rows[r]);
        AddRowsStep(shape, m, rows, r);
      }
      assert rows[..n] == rows;
    }

    method FoldInt(v: int64, cols: seq<Column>, r: nat, ghost m: GroupMap, ghost row: Row)
      requires Valid() && View() == m && AllFit(shape, m) && |cols| == |row| == shape.numColumns && IsRow(cols, r, row)
      requires shape.KeyOf(row) == [I64(v)]
      modifies Repr()
      ensures Valid() && View() == AddRow(shape, m, row)
      ensures forall x :: x in Repr() ==> x in old(Repr()) || fresh(x)
    {
      hide Valid, View, AddRow, AllFit, Fits, GroupOf, GroupTable.Valid, IsRow, Shape.KeyOf, Tidy, AllParts, AllVals;
      ghost var was := Repr();
      Lookups([I64(v)]);
      var hash := hasher.ofInt(v);
      var g, ok := table.FindByI64(hash, v);
      assert Repr() == was;
      FoldRow(g, hash, [I64(v)], cols, r, m, row);
    }

    method AddByFloat(cols: seq<Column>, n: nat, ghost rows: seq<Row>, ghost m: GroupMap)
      requires Valid() && View() == m && AllFit(shape, m) && Batched(cols, n, rows)
      requires |shape.groupByIdx| == 1 && cols[shape.groupByIdx[0]].typ == TypeFloat64
      modifies Repr()
      ensures Valid() && forall x :: x in Repr() ==> x in old(Repr()) || fresh(x)
      ensures View() == AddRows(shape, m, rows)
    {
      hide Valid, View, Repr, AddRow, AddRows, AllFit, Fits, GroupTable.Valid, IsRow, Shape.KeyOf;
      var col := cols[shape.groupByIdx[0]];
      AddNoRows(shape, m, rows);
      for r := 0 to n
        invariant Valid()
        invariant forall x :: x in Repr() ==> x in old(Repr()) || fresh(x)
        invariant View() == AddRows(shape, m, rows[..r])
      {
        KeyOfOne(cols, rows[r], r);
        FoldFloat(col.f64s[r], cols, r, AddRows(shape, m, rows[..r]), rows[r]);
        AddRowsStep(shape, m, rows, r);
      }
      assert rows[..n] == rows;
    }

    method FoldFloat(bits: uint64, cols: seq<Column>, r: nat, ghost m: GroupMap, ghost row: Row)
      requires Valid() && View() == m && AllFit(shape, m) && |cols| == |row| == shape.numColumns && IsRow(cols, r, row)
      requires shape.KeyOf(row) == [F64(bits)]
      modifies Repr()
      ensures Valid() && View() == AddRow(shape, m, row)
      ensures forall x :: x in Repr() ==> x in old(Repr()) || fresh(x)
    {
      hide Valid, View, AddRow, AllFit, Fits, GroupOf, GroupTable.Valid, IsRow, Shape.KeyOf, Tidy, AllParts, AllVals;
      ghost var was := Repr();
      Lookups([F64(bits)]);
      var hash := hasher.ofBits(bits);
      var g, ok := table.FindByF64(hash, bits);
      assert Repr() == was;
      FoldRow(g, hash, [F64(bits)], cols, r, m, row);
    }

    method AddByTuple(cols: seq<Column>, n: nat, ghost rows: seq<Row>, ghost m: GroupMap)
      requires Valid() && View() == m && AllFit(shape, m) && Batched(cols, n, rows)
      requires |shape.groupByIdx| != 1
      modifies Repr()
      ensures Valid() && forall x :: x in Repr() ==> x in old(Repr()) || fresh(x)
      ensures View() == AddRows(shape, m, rows)
    {
      hide Valid, View, Repr, AddRow, AddRows, AllFit, Fits, GroupTable.Valid, IsRow;
      AddNoRows(shape, m, rows);
      for r := 0 to n
        invariant Valid()
        invariant forall x :: x in Repr() ==> x in old(Repr()) || fresh(x)
        invariant View() == AddRows(shape, m, rows[..r])
      {
        FoldTuple(cols, r, AddRows(shape, m, rows[..r]), rows[r]);
        AddRowsStep(shape, m, rows, r);
      }
      assert rows[..n] == rows;
    }

    /** Finds or makes the group of row r by its whole key, and folds the row into it. */
    method FoldTuple(cols: seq<Column>, r: nat, ghost m: GroupMap, ghost row: Row)
      requires Valid() && View() == m && AllFit(shape, m) && |shape.groupByIdx| != 1
      requires |cols| == |row| == shape.numColumns && IsRow(cols, r, row)
      modifies Repr()
      ensures Valid() && View() == AddRow(shape, m, row)
      ensures forall x :: x in Repr() ==> x in old(Repr()) || fresh(x)
    {
      hide Valid, View, AddRow, AllFit, Fits, GroupOf, GroupTable.Valid, IsRow, Shape.KeyOf, Hasher.OfKey, Tidy,
           AllParts, AllVals;
      ghost var was := Repr();
      ValidShape();
      Lookups(shape.KeyOf(row));
      var dims, hash := HashTuple(cols, r, row);
      var g, ok := table.FindByDims(hash, dims);
      assert Repr() == was;
      FoldRow(g, hash, dims, cols, r, m, row);
    }

    method HashTuple(cols: seq<Column>, r: nat, ghost row: Row) returns (dims: Key, hash: uint64)
      requires shape.Valid() && |cols| == |row| == shape.numColumns && IsRow(cols, r, row) && |shape.groupByIdx| != 1
      ensures dims == shape.KeyOf(row) && hash == hasher.OfKey(dims)
    {
      hide IsRow, Encode;
      dims := ReadDims(cols, r, row);
      var keyBuf := EncodeGroupKey(dims);
      hash := hasher.ofEncoding(keyBuf);
    }

    method ReadDims(cols: seq<Column>, r: nat, ghost row: Row) returns (dims: Key)
      requires shape.Valid() && |cols| == |row| == shape.numColumns && IsRow(cols, r, row)
      ensures dims == shape.KeyOf(row)
    {
      dims := [];
      for i := 0 to |shape.groupByIdx|
        invariant dims == shape.KeyOf(row)[..i]
      {
        dims := dims + [ReadValue(cols[shape.groupByIdx[i]], r)];
      }
    }

    /** Folds every row of the batch, through the lookup its key shape selects. */
    method AddBatch(batch: Batch) returns (err: Option<AggregateError>)
      requires Valid() && batch.Valid()
      modifies Repr()
      ensures err == if |old(batch.cols)| != shape.numColumns then Some(ColumnCountMismatch) else None
      ensures err.None? ==>
        RowsFit(shape, old(batch.Rows())) && View() == AddRows(shape, old(View()), old(batch.Rows()))
      ensures err.Some? ==> View() == old(View())
      ensures Valid() && forall x :: x in Repr() ==> x in old(Repr()) || fresh(x)
    {
      hide View, AddRow, AddRows, AllFit, Fits, GroupOf, Shape.KeyOf, GroupTable.Valid, IsRow;
      if |batch.cols| != shape.numColumns {
        return Some(ColumnCountMismatch);
      }
      var cols, n := batch.cols, batch.numRows;
      ghost var rows, m := batch.Rows(), View();
      if |shape.groupByIdx| == 1 {
        match cols[shape.groupByIdx[0]].typ {
          case TypeString => AddByString(cols, n, rows, m);
          case TypeInt64 => AddByInt(cols, n, rows, m);
          case TypeFloat64 => AddByFloat(cols, n, rows, m);
        }
      } else {
        AddByTuple(cols, n, rows, m);
      }
      return None;
    }

    /** Grouping by one column, the key of a row is that column's value. */
    lemma KeyOfOne(cols: seq<Column>, row: Row, r: nat)
      requires shape.Valid() && |cols| == |row| == shape.numColumns && IsRow(cols, r, row) && |shape.groupByIdx| == 1
      ensures r < cols[shape.groupByIdx[0]].Length()
      ensures shape.KeyOf(row) == [ReadValue(cols[shape.groupByIdx[0]], r)]
    {
    }

    // ---------- merging ----------

    /** The hash of a key under this aggregator's own seed. */
    method HashKey(key: Key) returns (hash: uint64)
      ensures hash == hasher.OfKey(key)
    {
      if |key| == 1 {
        match key[0] {
          case Str(s) => return hasher.ofString(s);
          case I64(i) => return hasher.ofInt(i);
          case F64(bits) => return hasher.ofBits(bits);
        }
      }
      var keyBuf := EncodeGroupKey(key);
      return hasher.ofEncoding(keyBuf);
    }

    method FindByKey(hash: uint64, key: Key) returns (g: GroupAccum?, ok: bool)
      requires Valid() && hash == hasher.OfKey(key)
      ensures ok <==> key in table.stored
      ensures g == if ok then table.stored[key] else null
    {
      hide GroupTable.Valid, AllFit, Hasher.OfKey;
      if |key| == 1 {
        assert key == [key[0]];
        match key[0] {
          case Str(s) => g, ok := table.FindByString(hash, s); return;
          case I64(i) => g, ok := table.FindByI64(hash, i); return;
          case F64(bits) => g, ok := table.FindByF64(hash, bits); return;
        }
      }
      g, ok := table.FindByDims(hash, key);
    }

    /** Merges og into the group with its key, or takes og itself into the table. */
    method Absorb(og: GroupAccum, ghost m: GroupMap, ghost b: Group)
      requires Valid() && View() == m && AllFit(shape, m)
      requires og.Valid() && og.Val() == b && Fits(shape, b)
      requires og !in Repr() && og.Parts() !! Repr()
      modifies Repr(), og.Parts()
      ensures Valid() && View() == MergeOne(shape, m, og.key, b)
      ensures forall x :: x in Repr() ==> x in old(Repr()) || x == og || x in old(og.Parts()) || fresh(x)
    {
      hide AllFit, MergeGroups, GroupTable.Valid, Hasher.OfKey, Fits, Shape.Valid, GroupAccum.Val, GroupAccum.Valid,
           GroupAccum.Parts, Tidy, AllParts;
      FootExists(table.stored);
      og.PartsExist();
      var hash := HashKey(og.key);
      var g, ok := FindByKey(hash, og.key);
      assert og.key in m <==> ok;
      hide View, AllVals;
      if ok {
        GroupAt(table.stored, og.key);
        MergeInto(g, og, m, b);
      } else {
        Take(hash, og, m, b);
      }
    }

    method MergeInto(g: GroupAccum, og: GroupAccum, ghost m: GroupMap, ghost b: Group)
      requires Valid() && View() == m && AllFit(shape, m)
      requires og.key in m && og.key in table.stored && g == table.stored[og.key]
      requires og.Valid() && og.Val() == b && Fits(shape, b)
      requires og !in Repr() && og.Parts() !! Repr()
      modifies g, g.Parts(), og.Parts()
      ensures Valid() && forall x :: x in Repr() ==> x in old(Repr()) || fresh(x)
      ensures View() == m[og.key := MergeGroups(shape, m[og.key], b)]
    {
      hide MergeGroups, GroupTable.Valid, Hasher.OfKey, Fits, Shape.Valid, GroupAccum.Val, GroupAccum.Valid,
           GroupAccum.Parts, Tidy, Foot, AllVals, AllParts;
      GroupAt(table.stored, og.key);
      FitsAt(m, og.key);
      MergeGroupInto(table.stored, og.key, g, og, shape, m, b);
      FitsExtend(m, og.key, MergeGroups(shape, m[og.key], b));
    }

    lemma FitsAt(m: GroupMap, key: Key)
      requires shape.Valid() && AllFit(shape, m) && key in m
      ensures Fits(shape, m[key])
    {
    }

    // ---------- merging a whole aggregator ----------

    /** The groups of other sitting in its first i slots: those already absorbed. */
    static ghost function Done(t: Layout, o: GroupMap, i: nat): GroupMap {
      map k | k in o && k in t.UpTo(i) :: o[k]
    }

    static lemma DoneSteps(t: Layout, hashOf: Key -> uint64, o: GroupMap, i: nat)
      requires t.Good(hashOf) && o.Keys == t.stored.Keys && i < |t.slots| == |t.full|
      ensures !t.full[i] ==> Done(t, o, i + 1) == Done(t, o, i)
      ensures t.full[i] ==> t.slots[i] != null && t.slots[i].key in o && t.slots[i].key !in Done(t, o, i)
      ensures t.full[i] ==> Done(t, o, i + 1) == Done(t, o, i)[t.slots[i].key := o[t.slots[i].key]]
      ensures t.full[i] ==> t.stored[t.slots[i].key] == t.slots[i]
    {
      hide Layout.Good, Layout.UpTo, IsPowerOfTwo;
      t.SizeFacts(hashOf);
      t.UpToStep(hashOf, i);
      if t.full[i] {
        t.OccupantOf(hashOf, i);
      }
    }

    static lemma DoneEnds(t: Layout, hashOf: Key -> uint64, o: GroupMap)
      requires t.Good(hashOf) && o.Keys == t.stored.Keys
      ensures Done(t, o, 0) == map[] && Done(t, o, |t.slots|) == o
    {
      hide Layout.Good, Layout.UpTo;
      t.UpToEnds(hashOf);
    }

    /** The groups of other that are still to be absorbed. */
    static ghost function Rest(t: Layout, i: nat): map<Key, GroupAccum> {
      map k | k in t.stored && k !in t.UpTo(i) :: t.stored[k]
    }

    static ghost predicate SameGroups(m: GroupMap, o: GroupMap) {
      forall k :: k in m ==> k in o && m[k] == o[k]
    }

    /** What is left of other: its untouched groups, none of them in this table. */
    ghost predicate Intact(t: Layout, o: GroupMap, i: nat)
      reads table, table.stored.Values, Foot(Rest(t, i))
    {
      Tidy(Rest(t, i)) && SameGroups(AllVals(Rest(t, i)), o) && Foot(Rest(t, i)) !! Repr()
    }

    lemma AllIntact(theirs: map<Key, GroupAccum>, t: Layout, o: GroupMap)
      requires Rest(t, 0) == theirs && Tidy(theirs) && AllVals(theirs) == o && Foot(theirs) !! Repr()
      ensures Intact(t, o, 0)
    {
      hide Tidy, Foot, AllVals, Repr, Rest;
    }

    static lemma RestSteps(t: Layout, hashOf: Key -> uint64, i: nat)
      requires t.Good(hashOf) && i < |t.slots| == |t.full|
      ensures !t.full[i] ==> Rest(t, i + 1) == Rest(t, i)
      ensures t.full[i] ==> t.slots[i] != null
      ensures t.full[i] ==> t.slots[i].key !in Rest(t, i + 1)
      ensures t.full[i] ==> Rest(t, i) == Rest(t, i + 1)[t.slots[i].key := t.slots[i]]
    {
      hide Layout.Good, Layout.UpTo, IsPowerOfTwo;
      t.UpToStep(hashOf, i);
      if t.full[i] {
        t.OccupantOf(hashOf, i);
      }
    }

    static lemma RestStarts(t: Layout, hashOf: Key -> uint64)
      requires t.Good(hashOf)
      ensures Rest(t, 0) == t.stored
    {
      hide Layout.Good, Layout.UpTo;
      t.UpToEnds(hashOf);
    }

    method Merge(other: Aggregator) returns (err: Option<AggregateError>)
      requires Valid() && other.Valid() && Repr() !! other.Repr()
      modifies Repr(), other.Repr()
      ensures err ==
        if !SpecsEqual(shape.spec, other.shape.spec) then Some(SpecMismatch)
        else if shape.measureTypes != other.shape.measureTypes then Some(MeasureTypeMismatch)
        else None
      ensures err.None? ==>
        AllFit(shape, old(other.View())) && View() == MergeMaps(shape, old(View()), old(other.View()))
      ensures err.Some? ==> View() == old(View())
      ensures Valid() && forall x :: x in Repr() ==> x in old(Repr()) || x in old(other.Repr()) || fresh(x)
    {
      hide AllFit, MergeMaps, GroupTable.Valid, Fits, Shape.Valid, SpecsEqual, Tidy, Foot, AllVals, AllParts,
           Hasher.OfKey;
      if !SpecsEqual(shape.spec, other.shape.spec) {
        return Some(SpecMismatch);
      }
      if shape.measureTypes != other.shape.measureTypes {
        return Some(MeasureTypeMismatch);
      }
      ghost var m, o := View(), other.View();
      SameShapeFits(other.shape, o);
      MergeTable(other.table, m, o);
      return None;
    }

    /** Merging needs the same functions over the same measure types, so the groups are of one kind. */
    lemma SameShapeFits(s: Shape, o: GroupMap)
      requires shape.Valid() && s.Valid() && AllFit(s, o)
      requires SpecsEqual(shape.spec, s.spec) && shape.measureTypes == s.measureTypes
      ensures AllFit(shape, o)
    {
      forall i | 0 <= i < |shape.measureTypes|
        ensures shape.WantsOf(i) == s.WantsOf(i)
      {
        EqualSpecsWantTheSame(shape.spec, s.spec, i);
      }
      forall k | k in o
        ensures Fits(shape, o[k])
      {
        forall i | 0 <= i < |o[k].measures|
          ensures MeasureFits(shape, o[k].measures[i], i)
        {
          assert MeasureFits(s, o[k].measures[i], i);
        }
      }
    }

    method MergeTable(from: GroupTable, ghost m: GroupMap, ghost o: GroupMap)
      requires Valid() && View() == m && AllFit(shape, m) && AllFit(shape, o)
      requires from.Valid() && Tidy(from.stored) && AllVals(from.stored) == o
      requires from.Repr() !! Foot(from.stored) && Repr() !! from.Repr() + Foot(from.stored)
      modifies Repr(), Foot(from.stored)
      ensures Valid() && View() == MergeMaps(shape, m, o)
      ensures forall x :: x in Repr() ==> x in old(Repr()) || x in old(Foot(from.stored)) || fresh(x)
    {
      hide AllFit, MergeMaps, MergeOne, GroupTable.Valid, Fits, Shape.Valid, Done, Layout.Good,
           Hasher.OfKey, Valid, View, Repr, Tidy, Foot, AllParts, Rest, Intact;
      ghost var t, h, theirs := from.Arrays(), from.hashOf, Foot(from.stored);
      ValidShape();
      from.ArraysAreGood();
      DoneEnds(t, h, o);
      RestStarts(t, h);
      MergeMapsEmpty(shape, m);
      AllIntact(from.stored, t, o);
      for i := 0 to from.slots.Length
        invariant Valid() && AllFit(shape, Done(t, o, i)) && View() == MergeMaps(shape, m, Done(t, o, i))
        invariant from.Arrays() == t && Repr() !! from.Repr() && Intact(t, o, i) && Foot(Rest(t, i)) <= theirs
        invariant forall x :: x in Repr() ==> x in old(Repr()) || x in theirs || fresh(x)
      {
        MergeSlot(from, i, t, h, m, o);
      }
    }

    method MergeSlot(from: GroupTable, i: nat, ghost t: Layout, ghost h: Key -> uint64, ghost m: GroupMap,
                     ghost o: GroupMap)
      requires from.Arrays() == t && t.Good(h) && o.Keys == t.stored.Keys && i < |t.slots| == |t.full|
      requires Valid() && AllFit(shape, m) && AllFit(shape, o)
      requires AllFit(shape, Done(t, o, i)) && View() == MergeMaps(shape, m, Done(t, o, i))
      requires Repr() !! from.Repr() && Intact(t, o, i) && from.Repr() !! Foot(Rest(t, i))
      modifies Repr(), Foot(Rest(t, i))
      ensures Valid() && AllFit(shape, Done(t, o, i + 1)) && View() == MergeMaps(shape, m, Done(t, o, i + 1))
      ensures from.Arrays() == t && Repr() !! from.Repr() && Intact(t, o, i + 1)
      ensures Foot(Rest(t, i + 1)) <= old(Foot(Rest(t, i)))
      ensures forall x :: x in Repr() ==> x in old(Repr()) || x in old(Foot(Rest(t, i))) || fresh(x)
    {
      hide AllFit, MergeMaps, MergeOne, GroupTable.Valid, Fits, Shape.Valid, View, Done, Layout.Good, Hasher.OfKey,
           Valid, Rest, Repr, Tidy, Foot, AllParts, AllVals, GroupAccum.Val, GroupAccum.Valid, GroupAccum.Parts;
      DoneSteps(t, h, o, i);
      RestSteps(t, h, i);
      if from.full[i] {
        var og := from.slots[i];
        ValidShape();
        FitsAt(o, og.key);
        MergeMapsExtends(shape, m, Done(t, o, i), og.key, o[og.key]);
        TidySplits(Rest(t, i + 1), og.key, og);
        AbsorbBeside(og, MergeMaps(shape, m, Done(t, o, i)), o[og.key], Rest(t, i + 1));
      }
    }

    /** Absorbing a group leaves groups that share nothing with it alone. */
    method AbsorbBeside<K>(og: GroupAccum, ghost m: GroupMap, ghost b: Group, ghost rest: map<K, GroupAccum>)
      requires Valid() && View() == m && AllFit(shape, m)
      requires og.Valid() && og.Val() == b && Fits(shape, b)
      requires og !in Repr() && og.Parts() !! Repr()
      requires Tidy(rest) && Foot(rest) !! Repr() + {og} + og.Parts()
      modifies Repr(), og.Parts()
      ensures Valid() && View() == MergeOne(shape, m, og.key, b)
      ensures Tidy(rest) && Foot(rest) == old(Foot(rest)) && AllVals(rest) == old(AllVals(rest)) && Foot(rest) !! Repr()
      ensures forall x :: x in Repr() ==> x in old(Repr()) || x == og || x in old(og.Parts()) || fresh(x)
    {
      hide AllFit, MergeOne, Fits, View, Valid, Repr, Tidy, AllParts, AllVals, GroupAccum.Val, GroupAccum.Valid,
           GroupAccum.Parts;
      FootExists(rest);
      Absorb(og, m, b);
    }

    lemma ValidShape()
      requires Valid()
      ensures shape.Valid()
    {
    }

    lemma ViewFits()
      requires Valid()
      ensures shape.Valid() && AllFit(shape, View())
    {
    }

    // ---------- snapshots ----------

    /** A snapshot of every group, in slot order, none of which shares anything with it. */
    method ExportState() returns (snaps: seq<GroupSnapshot>)
      requires Valid()
      ensures Exports(ContentsOf(snaps), View()) && fresh(ArraysOf(snaps))
    {
      hide AllFit, GroupTable.Valid, Done, Layout.Good, Hasher.OfKey, ToState, Exports, Tidy, AllParts, AllVals,
           GroupAccum.Val, GroupAccum.Valid, GroupSnapshot.Contents, ContentsOf,
           ArraysOf;
      ghost var t, h, o := table.Arrays(), table.hashOf, View();
      table.ArraysAreGood();
      FootExists(table.stored);
      DoneEnds(t, h, o);
      snaps := [];
      ExportsNothing();
      for i := 0 to table.slots.Length
        invariant Exports(ContentsOf(snaps), Done(t, o, i)) && fresh(ArraysOf(snaps))
        invariant Tidy(table.stored) && AllVals(table.stored) == o
      {
        DoneSteps(t, h, o, i);
        if table.full[i] {
          var g := table.slots[i];
          GroupAt(table.stored, g.key);
          ExportsExtend(ContentsOf(snaps), Done(t, o, i), g.key, o[g.key]);
          ArraysExist(snaps);
          snaps := SnapshotMore(snaps, g);
        }
      }
    }

    static lemma ExportsNothing()
      ensures Exports(ContentsOf([]), map[]) && ArraysOf([]) == {}
    {
    }

    /** Folds snapshots from elsewhere into the table: all of them, or on any error none. */
    method MergeState(snaps: seq<GroupSnapshot>) returns (err: Option<AggregateError>)
      requires Valid()
      modifies Repr()
      ensures err ==
        if !Distributable(shape.spec) then Some(PercentileState)
        else if !AllStatesFit(shape, old(ContentsOf(snaps))) then Some(MalformedState)
        else None
      ensures err.None? ==> View() == MergeStates(shape, old(View()), old(ContentsOf(snaps)))
      ensures err.Some? ==> View() == old(View())
      ensures Valid() && forall x :: x in Repr() ==> x in old(Repr()) || fresh(x)
    {
      hide View, AllFit, GroupTable.Valid, Hasher.OfKey, StateFits, FromState, MergeOne, Fits, Shape.Valid, ContentsOf,
           Valid, Tidy, AllVals, AllParts, Foot, Pending, Rebuilt;
      if !Distributable(shape.spec) {
        return Some(PercentileState);
      }
      ValidShape();
      ghost var m, states := View(), ContentsOf(snaps);
      ViewFits();
      FootExists(table.stored);
      var accums, ok := BuildAccums(snaps, states);
      if !ok {
        return Some(MalformedState);
      }
      MergeAccums(accums, states, m);
      return None;
    }

    /** The rebuilt groups from the i-th on, by position. */
    static ghost function Pending(accums: seq<GroupAccum>, i: nat): map<int, GroupAccum> {
      map j: int | i <= j < |accums| :: accums[j]
    }

    /** The groups rebuilt from these states, from the i-th on. */
    ghost predicate Rebuilt(accums: seq<GroupAccum>, states: seq<GroupState>, i: nat)
      requires shape.Valid() && Distributable(shape.spec) && AllStatesFit(shape, states)
      reads Foot(Pending(accums, i))
    {
      && |accums| == |states| && Tidy(Pending(accums, i))
      && forall j :: i <= j < |accums| ==>
           accums[j].key == states[j].key && AllVals(Pending(accums, i))[j] == FromState(shape, states[j])
    }

    static lemma PendingSteps(accums: seq<GroupAccum>, i: nat)
      requires i < |accums|
      ensures i !in Pending(accums, i + 1) && Pending(accums, i) == Pending(accums, i + 1)[i := accums[i]]
    {
    }

    static lemma OneMorePending(accums: seq<GroupAccum>, g: GroupAccum)
      ensures |accums| !in Pending(accums, 0) && Pending(accums + [g], 0) == Pending(accums, 0)[|accums| := g]
    {
    }

    static lemma NothingPending()
      ensures Pending([], 0) == map[] && Foot(Pending([], 0)) == {} && Tidy(Pending([], 0))
    {
    }

    lemma OneMoreFits(states: seq<GroupState>, i: nat)
      requires shape.Valid() && i < |states| && AllStatesFit(shape, states[..i])
      ensures AllStatesFit(shape, states[..i + 1]) <==> StateFits(shape, states[i])
    {
      hide StateFits;
      var more := states[..i + 1];
      assert more[i] == states[i] && forall j :: 0 <= j < i ==> more[j] == states[..i][j];
    }

    lemma OneMoreRebuilt(accums: seq<GroupAccum>, states: seq<GroupState>, i: nat, g: GroupAccum)
      requires shape.Valid() && Distributable(shape.spec) && i < |states| && AllStatesFit(shape, states[..i + 1])
      requires AllStatesFit(shape, states[..i]) && Rebuilt(accums, states[..i], 0) && StateFits(shape, states[i])
      requires g.Valid() && g !in Foot(Pending(accums, 0)) && g.Parts() !! Foot(Pending(accums, 0))
      requires g.key == states[i].key && g.Val() == FromState(shape, states[i])
      ensures Rebuilt(accums + [g], states[..i + 1], 0)
      ensures Foot(Pending(accums + [g], 0)) == Foot(Pending(accums, 0)) + {g} + g.Parts()
    {
      hide StateFits, FromState, Shape.Valid, GroupAccum.Val, GroupAccum.Valid, GroupAccum.Parts, Tidy, Foot, AllVals,
           AllParts, Pending;
      OneMorePending(accums, g);
      TidyExtends(Pending(accums, 0), i, g);
      assert forall j :: 0 <= j < i ==> states[..i + 1][j] == states[..i][j];
    }

    lemma SomeStateFails(states: seq<GroupState>, i: nat)
      requires shape.Valid() && i < |states| && !StateFits(shape, states[i])
      ensures !AllStatesFit(shape, states)
    {
      hide StateFits;
    }

    /** Rebuilds a group beside others, with which it shares nothing. */
    method RestoreBeside(snap: GroupSnapshot, ghost st: GroupState, ghost pending: map<int, GroupAccum>)
      returns (g: GroupAccum?)
      requires shape.Valid() && Distributable(shape.spec) && snap.Contents() == st && Tidy(pending)
      ensures g != null <==> StateFits(shape, st)
      ensures g != null ==>
        && fresh({g} + g.Parts()) && g.Valid() && g.key == st.key && g.Val() == FromState(shape, st)
        && g !in Foot(pending) && g.Parts() !! Foot(pending)
      ensures Tidy(pending) && AllVals(pending) == old(AllVals(pending)) && Foot(pending) == old(Foot(pending))
    {
      hide StateFits, FromState, Shape.Valid, GroupAccum.Val, GroupAccum.Valid, GroupAccum.Parts, Tidy, AllVals,
           AllParts;
      FootExists(pending);
      g := Restore(shape, snap);
      assert snap.Contents() == st && Foot(pending) == old(Foot(pending));
    }

    /** Rebuilds the group of snapshot i. */
    method RestoreNext(ghost accums: seq<GroupAccum>, snap: GroupSnapshot, ghost states: seq<GroupState>, ghost i: nat)
      returns (g: GroupAccum?)
      requires shape.Valid() && Distributable(shape.spec) && i < |states| && snap.Contents() == states[i]
      requires AllStatesFit(shape, states[..i]) && Rebuilt(accums, states[..i], 0)
      ensures g != null <==> StateFits(shape, states[i])
      ensures g != null ==> AllStatesFit(shape, states[..i + 1]) && Rebuilt(accums + [g], states[..i + 1], 0)
      ensures Foot(Pending(accums, 0)) == old(Foot(Pending(accums, 0)))
      ensures g != null ==>
        forall x :: x in Foot(Pending(accums + [g], 0)) ==> x in Foot(Pending(accums, 0)) || fresh(x)
    {
      hide StateFits, FromState, Shape.Valid, GroupSnapshot.Contents, GroupAccum.Val, GroupAccum.Valid,
           GroupAccum.Parts, Tidy, Foot, AllVals, AllParts, Pending;
      OneMoreFits(states, i);
      g := RestoreBeside(snap, states[i], Pending(accums, 0));
      if g != null {
        OneMoreRebuilt(accums, states, i, g);
      }
    }

    /** Rebuilds every snapshot's group before any of them is folded in. */
    method BuildAccums(snaps: seq<GroupSnapshot>, ghost states: seq<GroupState>)
      returns (accums: seq<GroupAccum>, ok: bool)
      requires shape.Valid() && Distributable(shape.spec) && ContentsOf(snaps) == states
      ensures ok <==> AllStatesFit(shape, states)
      ensures ok ==> Rebuilt(accums, states, 0)
      ensures fresh(Foot(Pending(accums, 0)))
    {
      hide StateFits, FromState, Shape.Valid, GroupSnapshot.Contents, Rebuilt, Foot, Pending, ArraysOf;
      accums := [];
      ArraysExist(snaps);
      NothingPending();
      assert states[..0] == [];
      assert Rebuilt(accums, [], 0) by { NothingRebuilt(); }
      for i: nat := 0 to |snaps|
        invariant ContentsOf(snaps) == states && AllStatesFit(shape, states[..i])
        invariant Rebuilt(accums, states[..i], 0) && fresh(Foot(Pending(accums, 0)))
      {
        var g := RestoreNext(accums, snaps[i], states, i);
        assert ContentsOf(snaps) == states;
        if g == null {
          SomeStateFails(states, i);
          return accums, false;
        }
        accums := accums + [g];
      }
      assert states[..|snaps|] == states;
      ok := true;
    }

    lemma NothingRebuilt()
      requires shape.Valid() && Distributable(shape.spec)
      ensures Rebuilt([], [], 0)
    {
    }

    method MergeAccums(accums: seq<GroupAccum>, ghost states: seq<GroupState>, ghost m: GroupMap)
      requires Valid() && View() == m && AllFit(shape, m)
      requires Distributable(shape.spec) && AllStatesFit(shape, states) && Rebuilt(accums, states, 0)
      requires Foot(Pending(accums, 0)) !! Repr()
      modifies Repr(), Foot(Pending(accums, 0))
      ensures Valid() && View() == MergeStates(shape, m, states)
      ensures forall x :: x in Repr() ==> x in old(Repr()) || x in old(Foot(Pending(accums, 0))) || fresh(x)
    {
      hide View, AllFit, GroupTable.Valid, Hasher.OfKey, StateFits, FromState, MergeOne, Fits, Shape.Valid, Valid,
           Tidy, Foot, AllVals, AllParts, Pending, Repr, GroupAccum.Val, GroupAccum.Valid, GroupAccum.Parts;
      ghost var theirs := Foot(Pending(accums, 0));
      ValidShape();
      assert states[..0] == [];
      for i := 0 to |accums|
        invariant Valid() && AllStatesFit(shape, states[..i]) && View() == MergeStates(shape, m, states[..i])
        invariant Rebuilt(accums, states, i) && Foot(Pending(accums, i)) <= theirs && Foot(Pending(accums, i)) !! Repr()
        invariant forall x :: x in Repr() ==> x in old(Repr()) || x in theirs || fresh(x)
      {
        MergeStatesStep(shape, m, states, i);
        AbsorbNext(accums, i, states, m);
      }
      assert states[..|states|] == states;
    }

    /** Absorbs one rebuilt group. */
    method AbsorbNext(accums: seq<GroupAccum>, i: nat, ghost states: seq<GroupState>, ghost m: GroupMap)
      requires Valid() && AllFit(shape, m) && Distributable(shape.spec) && AllStatesFit(shape, states)
      requires i < |accums| && Rebuilt(accums, states, i) && Foot(Pending(accums, i)) !! Repr()
      requires AllStatesFit(shape, states[..i]) && View() == MergeStates(shape, m, states[..i])
      modifies Repr(), Foot(Pending(accums, i))
      ensures Valid() && View() == MergeOne(shape, old(View()), states[i].key, FromState(shape, states[i]))
      ensures Rebuilt(accums, states, i + 1)
      ensures Foot(Pending(accums, i + 1)) <= old(Foot(Pending(accums, i))) && Foot(Pending(accums, i + 1)) !! Repr()
      ensures forall x :: x in Repr() ==> x in old(Repr()) || x in old(Foot(Pending(accums, i))) || fresh(x)
    {
      hide View, AllFit, StateFits, FromState, MergeOne, MergeStates, Fits, Shape.Valid, Valid,
           Tidy, Foot, AllVals, AllParts, Pending, Repr, GroupAccum.Val, GroupAccum.Valid, GroupAccum.Parts;
      var og := accums[i];
      PendingSteps(accums, i);
      ValidShape();
      assert StateFits(shape, states[i]);
      TidySplits(Pending(accums, i + 1), i, og);
      AbsorbBeside(og, View(), FromState(shape, states[i]), Pending(accums, i + 1));
    }
  }
  /** Snapshots stand: rows folded in afterwards change nothing in them, and the aggregator never
      gets hold of their arrays. */
  method ExportThenAdd(agg: Aggregator, batch: Batch) returns (snaps: seq<GroupSnapshot>)
    requires agg.Valid() && batch.Valid()
    modifies agg.Repr()
    ensures agg.Valid() && Exports(ContentsOf(snaps), old(agg.View())) && ArraysOf(snaps) !! agg.Repr()
  {
    hide Aggregator.Valid, Aggregator.View, Exports, ContentsOf, ArraysOf, Tidy, AllParts;
    FootExists(agg.table.stored);
    snaps := agg.ExportState();
    AddBeside(agg, batch, snaps);
  }

  method AddBeside(agg: Aggregator, batch: Batch, ghost snaps: seq<GroupSnapshot>)
    requires agg.Valid() && batch.Valid() && ArraysOf(snaps) !! agg.Repr()
    modifies agg.Repr()
    ensures agg.Valid() && ContentsOf(snaps) == old(ContentsOf(snaps)) && ArraysOf(snaps) !! agg.Repr()
  {
    hide Aggregator.Valid, Aggregator.View, Aggregator.Repr, ContentsOf, ArraysOf, AddRows, RowsFit, Batch.Rows;
    ArraysExist(snaps);
    var err := agg.AddBatch(batch);
  }

  /** So do other aggregators that are merged in. */
  method ExportThenMerge(agg: Aggregator, other: Aggregator) returns (snaps: seq<GroupSnapshot>)
    requires agg.Valid() && other.Valid() && agg.Repr() !! other.Repr()
    modifies agg.Repr(), other.Repr()
    ensures agg.Valid() && Exports(ContentsOf(snaps), old(agg.View())) && ArraysOf(snaps) !! agg.Repr()
  {
    hide Aggregator.Valid, Aggregator.View, Exports, ContentsOf, ArraysOf, Tidy, AllParts;
    FootExists(other.table.stored);
    FootExists(agg.table.stored);
    ghost var was := other.Repr();
    snaps := agg.ExportState();
    assert other.Repr() == was;
    MergeBeside(agg, other, snaps);
  }

  method MergeBeside(agg: Aggregator, other: Aggregator, ghost snaps: seq<GroupSnapshot>)
    requires agg.Valid() && other.Valid() && agg.Repr() !! other.Repr()
    requires ArraysOf(snaps) !! agg.Repr() + other.Repr()
    modifies agg.Repr(), other.Repr()
    ensures agg.Valid() && ContentsOf(snaps) == old(ContentsOf(snaps)) && ArraysOf(snaps) !! agg.Repr()
  {
    hide Aggregator.Valid, Aggregator.View, Aggregator.Repr, ContentsOf, ArraysOf, MergeMaps;
    ArraysExist(snaps);
    var err := agg.Merge(other);
  }
}
