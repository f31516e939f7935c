/** The running state of one group on the heap: numbers by value, sketches and digests as
    objects that are updated in place. */
module GroupAccums {
  import opened Words
  import opened Values
  import opened Accumulators
  import opened Groups
  import opened TDigests
  import Digests
  import HLL = HyperLogLogs

  // ---------- one measure ----------

  datatype MeasureAccum = MeasureAccum(
    typ: ColumnType, numbers: Numbers, distinct: HLL.HyperLogLog?, digest: TDigest?)
  {
    /** The objects that hold its state. */
    ghost function Parts(): set<object> {
      (if distinct != null then {distinct.registers} else {}) + (if digest != null then {digest} else {})
    }

    predicate Sized() { distinct != null ==> distinct.Sized() }

    ghost function Val(): Measure
      reads Parts()
    {
      Measure(typ, numbers,
              if distinct != null then Some(distinct.Value()) else None,
              if digest != null then Some(digest.State()) else None)
    }
  }

  method NewMeasureAccum(typ: ColumnType, wants: Wants) returns (m: MeasureAccum)
    ensures m.Sized() && fresh(m.Parts()) && m.Val() == NewMeasure(typ, wants)
  {
    m := MeasureAccum(typ, NO_NUMBERS, null, null);
    if wants.distinct {
      var sketch := new HLL.HyperLogLog();
      m := m.(distinct := sketch);
    }
    if wants.percentile {
      var digest := new TDigest();
      m := m.(digest := digest);
    }
  }

  /** Takes in one value; the sketch and the digest change in place. */
  method AddToMeasureAccum(m: MeasureAccum, v: Value, tools: Tools) returns (r: MeasureAccum)
    requires m.Sized()
    modifies m.Parts()
    ensures r.distinct == m.distinct && r.digest == m.digest && r.Val() == AddValue(old(m.Val()), v, tools)
  {
    hide AddNumber, HLL.AddHash, Digests.Added;
    if m.distinct != null {
      m.distinct.AddValue(tools.hash(v));
    }
    if m.digest != null {
      m.digest.AddValue(tools.digester, SampleOf(m.typ, v));
    }
    r := m.(numbers := AddNumber(m.typ, m.numbers, v));
  }

  /** The two have the same optional structures. */
  predicate AlikeInside(a: MeasureAccum, b: MeasureAccum) {
    (a.distinct != null) == (b.distinct != null) && (a.digest != null) == (b.digest != null)
  }

  lemma SameKindSameParts(a: MeasureAccum, b: MeasureAccum)
    requires SameKind(a.Val(), b.Val())
    ensures AlikeInside(a, b)
  {
  }

  /** A new sketch for both; a's digest takes in b's, which is flushed. */
  method MergeMeasureAccums(a: MeasureAccum, b: MeasureAccum, tools: Tools) returns (r: MeasureAccum)
    requires a.Sized() && b.Sized() && a.Parts() !! b.Parts() && AlikeInside(a, b)
    modifies a.Parts(), b.Parts()
    ensures r.Sized() && r.Val() == MergeMeasures(old(a.Val()), old(b.Val()), tools)
    ensures r.digest == a.digest && (r.distinct != null ==> fresh(r.distinct.registers))
    ensures forall x :: x in r.Parts() ==> x in a.Parts() || fresh(x)
  {
    hide MergeNumbers, HLL.Union, Digests.Merged;
    r := MeasureAccum(a.typ, MergeNumbers(a.typ, a.numbers, b.numbers), null, a.digest);
    if a.distinct != null {
      var sketch := HLL.Merge(a.distinct, b.distinct);
      r := r.(distinct := sketch);
    }
    if a.digest != null {
      a.digest.Merge(tools.digester, b.digest);
    }
  }

  // ---------- the measures of a group ----------

  ghost function PartsOf(ms: seq<MeasureAccum>): set<object> {
    set i, o | 0 <= i < |ms| && o in ms[i].Parts() :: o
  }

  /** No two measures share an object. */
  ghost predicate Apart(ms: seq<MeasureAccum>) {
    && (forall i :: 0 <= i < |ms| ==> ms[i].Sized())
    && (forall i, j :: 0 <= i < j < |ms| ==> ms[i].Parts() !! ms[j].Parts())
  }

  ghost function Vals(ms: seq<MeasureAccum>): (vals: seq<Measure>)
    reads PartsOf(ms)
    ensures |vals| == |ms| && forall i :: 0 <= i < |ms| ==> vals[i] == ms[i].Val()
  {
    seq(|ms|, i requires 0 <= i < |ms| reads PartsOf(ms) => ms[i].Val())
  }

  ghost predicate SameObjects(ms: seq<MeasureAccum>, ns: seq<MeasureAccum>) {
    |ms| == |ns| && forall i :: 0 <= i < |ms| ==> ms[i].distinct == ns[i].distinct && ms[i].digest == ns[i].digest
  }

  lemma SameObjectsSameParts(ms: seq<MeasureAccum>, ns: seq<MeasureAccum>)
    requires SameObjects(ms, ns)
    ensures PartsOf(ms) == PartsOf(ns) && (Apart(ms) ==> Apart(ns))
  {
    assert forall i :: 0 <= i < |ms| ==> ms[i].Parts() == ns[i].Parts() && ms[i].Sized() == ns[i].Sized();
  }

  lemma SamePartsAt(ms: seq<MeasureAccum>, ns: seq<MeasureAccum>, i: nat)
    requires SameObjects(ms, ns) && i < |ms|
    ensures ms[i].Parts() == ns[i].Parts()
  {
  }

  lemma PartsIn(ms: seq<MeasureAccum>)
    ensures forall i :: 0 <= i < |ms| ==> ms[i].Parts() <= PartsOf(ms)
  {
  }

  lemma NoParts()
    ensures PartsOf([]) == {} && Apart([])
  {
  }

  lemma PartsOfMore(ms: seq<MeasureAccum>, m: MeasureAccum)
    ensures PartsOf(ms + [m]) == PartsOf(ms) + m.Parts()
    ensures Apart(ms) && m.Sized() && PartsOf(ms) !! m.Parts() ==> Apart(ms + [m])
  {
    hide MeasureAccum.Parts;
    var all := ms + [m];
    assert all[|ms|] == m && forall i :: 0 <= i < |ms| ==> all[i] == ms[i];
    PartsIn(ms);
    PartsIn(all);
  }

  lemma PartsOfExist(ms: seq<MeasureAccum>)
    ensures forall x :: x in PartsOf(ms) ==> allocated(x)
  {
  }

  lemma ApartMeans(ms: seq<MeasureAccum>)
    requires Apart(ms)
    ensures forall i :: 0 <= i < |ms| ==> ms[i].Sized() && ms[i].Parts() <= PartsOf(ms)
    ensures forall i, j :: 0 <= i < |ms| && 0 <= j < |ms| && i != j ==> ms[i].Parts() !! ms[j].Parts()
  {
    hide MeasureAccum.Parts;
  }

  lemma ApartReplaced(ms: seq<MeasureAccum>, i: nat, m: MeasureAccum)
    requires Apart(ms) && i < |ms| && m.Sized() && forall j :: 0 <= j < |ms| && j != i ==> m.Parts() !! ms[j].Parts()
    ensures Apart(ms[i := m])
  {
    hide MeasureAccum.Parts;
  }

  lemma PartsReplaced(ms: seq<MeasureAccum>, i: nat, m: MeasureAccum)
    requires i < |ms|
    ensures forall x :: x in PartsOf(ms[i := m]) ==> x in PartsOf(ms) || x in m.Parts()
  {
    hide MeasureAccum.Parts;
  }

  // ---------- one group ----------

  /** Its key never changes; the rest is updated in place. */
  class GroupAccum {
    const key: Key
    var count: int64
    var measures: seq<MeasureAccum>

    ghost predicate Valid()
      reads this
    {
      Apart(measures) && this !in Parts()
    }

    ghost function Parts(): set<object>
      reads this
    {
      PartsOf(measures)
    }

    ghost function Val(): Group
      reads this, Parts()
    {
      Group(count, Vals(measures))
    }

    lemma PartsExist()
      ensures forall x :: x in Parts() ==> allocated(x)
    {
    }

    /** An empty group. */
    constructor (key: Key, shape: Shape)
      requires shape.Valid()
      ensures this.key == key && Valid() && fresh(Parts()) && Val() == NewGroup(shape)
    {
      this.key, count, measures := key, 0, [];
      new;
      var ms := NewMeasureAccums(shape);
      measures := ms;
      assert Vals(measures) == NewGroup(shape).measures;
    }

    /** A group that takes over given measures. */
    constructor Of(key: Key, count: int64, measures: seq<MeasureAccum>)
      requires Apart(measures)
      ensures this.key == key && Valid() && Parts() == PartsOf(measures) && Val() == Group(count, Vals(measures))
    {
      this.key, this.count, this.measures := key, count, measures;
    }

    /** Takes a row into every measure. */
    method AddMeasures(shape: Shape, cols: seq<Column>, r: nat, ghost before: Group, ghost row: Row)
      requires shape.Valid() && |cols| == |row| == shape.numColumns && IsRow(cols, r, row)
      requires Valid() && Val() == before && Fits(shape, before)
      modifies this, Parts()
      ensures Valid() && Parts() == old(Parts()) && Val() == AddToGroup(shape, before, row)
    {
      hide AddValue, AddI64, MeasureAccum.Val, MeasureAccum.Parts, Apart, PartsOf, Vals;
      ghost var start, after := measures, AddToGroup(shape, before, row);
      PartsIn(start);
      count := AddI64(count, 1);
      for i := 0 to |shape.measureIdx|
        invariant count == after.count && SameObjects(start, measures)
        invariant forall j :: 0 <= j < i ==> measures[j].Val() == after.measures[j]
        invariant forall j :: i <= j < |measures| ==> measures[j].Val() == before.measures[j]
      {
        var v := ReadValue(cols[shape.measureIdx[i]], r);
        AddOne(i, v, shape.tools, start);
      }
      SameObjectsSameParts(start, measures);
      assert Vals(measures) == after.measures;
    }

    method AddOne(i: nat, v: Value, tools: Tools, ghost start: seq<MeasureAccum>)
      requires SameObjects(start, measures) && Apart(start) && this !in PartsOf(start) && i < |measures|
      modifies this`measures, start[i].Parts()
      ensures SameObjects(start, measures) && measures[i].Val() == AddValue(old(measures[i].Val()), v, tools)
      ensures forall j :: 0 <= j < |measures| && j != i ==> measures[j].Val() == old(measures[j].Val())
    {
      hide AddValue, MeasureAccum.Val, MeasureAccum.Sized, PartsOf;
      ghost var ms := measures;
      SameObjectsSameParts(start, ms);
      PartsIn(ms);
      SamePartsAt(start, ms, i);
      assert forall j :: 0 <= j < |ms| && j != i ==> ms[j].Parts() !! ms[i].Parts() && this !in ms[j].Parts();
      var m := AddToMeasureAccum(measures[i], v, tools);
      assert forall j :: 0 <= j < |ms| && j != i ==> ms[j].Val() == old(ms[j].Val());
      assert this !in m.Parts();
      measures := measures[i := m];
    }

    /** Merges another group's count and measures into this one. */
    method Merge(other: GroupAccum, shape: Shape, ghost a: Group, ghost b: Group)
      requires shape.Valid() && Fits(shape, a) && Fits(shape, b)
      requires other != this && Valid() && Val() == a && other.Valid() && other.Val() == b
      requires Parts() !! other.Parts() && this !in other.Parts() && other !in Parts()
      modifies this, Parts(), other.Parts()
      ensures Valid() && Val() == MergeGroups(shape, a, b)
      ensures forall x :: x in Parts() ==> x in old(Parts()) || fresh(x)
    {
      hide MergeMeasures, AddI64, MeasureAccum.Val, MeasureAccum.Parts, Apart, PartsOf, Vals;
      ghost var start, theirs, after := measures, other.measures, MergeGroups(shape, a, b);
      PartsIn(start);
      PartsIn(theirs);
      count := AddI64(count, other.count);
      for i := 0 to |measures|
        invariant count == after.count && |measures| == |start| && other.measures == theirs
        invariant Apart(measures) && PartsOf(measures) !! PartsOf(theirs)
        invariant this !in PartsOf(measures) && other !in PartsOf(measures)
        invariant forall j :: i <= j < |start| ==> measures[j] == start[j]
        invariant forall x :: x in PartsOf(measures) ==> x in PartsOf(start) || fresh(x)
        invariant forall j :: 0 <= j < i ==> measures[j].Val() == after.measures[j]
        invariant forall j :: i <= j < |start| ==>
          measures[j].Val() == a.measures[j] && theirs[j].Val() == b.measures[j]
      {
        PartsIn(measures);
        assert MeasureFits(shape, a.measures[i], i) && MeasureFits(shape, b.measures[i], i);
        SameKindSameParts(measures[i], theirs[i]);
        MergeOne(i, other, shape.tools);
      }
      assert Vals(measures) == after.measures;
    }

    method MergeOne(i: nat, other: GroupAccum, tools: Tools)
      requires other != this && Apart(measures) && Apart(other.measures) && PartsOf(measures) !! PartsOf(other.measures)
      requires {this, other} !! PartsOf(measures) + PartsOf(other.measures) && i < |measures| == |other.measures|
      requires AlikeInside(measures[i], other.measures[i])
      modifies this`measures, measures[i].Parts(), other.measures[i].Parts()
      ensures |measures| == |old(measures)| && measures == old(measures)[i := measures[i]] && Apart(measures)
      ensures forall x :: x in PartsOf(measures) ==> x in PartsOf(old(measures)) || fresh(x)
      ensures PartsOf(measures) !! PartsOf(old(other.measures))
      ensures measures[i].Val() == MergeMeasures(old(measures[i].Val()), old(other.measures[i].Val()), tools)
      ensures forall j :: 0 <= j < |measures| && j != i ==>
        measures[j].Val() == old(measures[j].Val()) && other.measures[j].Val() == old(other.measures[j].Val())
    {
      hide MergeMeasures, PartsOf, Apart, MeasureAccum.Val, MeasureAccum.Parts;
      ghost var ms, ns := measures, other.measures;
      ApartMeans(ms);
      ApartMeans(ns);
      PartsOfExist(ms);
      PartsOfExist(ns);
      var m := MergeMeasureAccums(measures[i], other.measures[i], tools);
      PartsReplaced(ms, i, m);
      ApartReplaced(ms, i, m);
      measures := measures[i := m];
    }
  }

  // ---------- groups held together ----------

  /** The objects that the groups consist of: sketches and digests. */
  ghost function AllParts<K>(stored: map<K, GroupAccum>): set<object>
    reads stored.Values
  {
    set k, x | k in stored && x in stored[k].Parts() :: x
  }

  /** The groups and the objects they consist of. */
  ghost function Foot<K>(stored: map<K, GroupAccum>): set<object>
    reads stored.Values
  {
    stored.Values + AllParts(stored)
  }

  /** Every group sits under its key. */
  ghost predicate Keyed(stored: map<Key, GroupAccum>) {
    forall k :: k in stored ==> stored[k].key == k
  }

  lemma KeyedExtends(stored: map<Key, GroupAccum>, g: GroupAccum)
    requires Keyed(stored)
    ensures Keyed(stored[g.key := g])
  {
  }

  /** The groups as values. */
  ghost function AllVals<K>(stored: map<K, GroupAccum>): (m: map<K, Group>)
    reads stored.Values, AllParts(stored)
    ensures m.Keys == stored.Keys
  {
    map k | k in stored :: stored[k].Val()
  }

  /** No object is part of two groups. */
  ghost predicate Tidy<K>(stored: map<K, GroupAccum>)
    reads stored.Values
  {
    && (forall k :: k in stored ==> stored[k].Valid())
    && (forall j, k :: j in stored && k in stored && j != k ==>
          stored[j] != stored[k] && stored[j].Parts() !! stored[k].Parts())
    && stored.Values !! AllParts(stored)
  }

  lemma FootExists<K>(stored: map<K, GroupAccum>)
    ensures forall x :: x in Foot(stored) ==> allocated(x)
    ensures stored.Values <= Foot(stored) && AllParts(stored) <= Foot(stored)
  {
  }

  lemma NothingHeld<K>()
    ensures var none: map<K, GroupAccum> := map[];
            Tidy(none) && AllVals(none) == map[] && Foot(none) == {}
  {
  }

  /** One more group that shares nothing with the others. */
  lemma TidyExtends<K>(stored: map<K, GroupAccum>, key: K, og: GroupAccum)
    requires Tidy(stored) && og.Valid() && key !in stored && og !in Foot(stored) && og.Parts() !! Foot(stored)
    ensures Tidy(stored[key := og]) && AllVals(stored[key := og]) == AllVals(stored)[key := og.Val()]
    ensures Foot(stored[key := og]) == Foot(stored) + {og} + og.Parts()
  {
    hide GroupAccum.Parts, GroupAccum.Val;
    var more := stored[key := og];
    assert key in more && more[key] == og;
    assert forall k :: k in stored ==> more[k] == stored[k];
    assert more.Values == stored.Values + {og};
    assert AllParts(more) == AllParts(stored) + og.Parts();
  }

  /** The converse. */
  lemma TidySplits<K>(stored: map<K, GroupAccum>, key: K, og: GroupAccum)
    requires key !in stored && Tidy(stored[key := og])
    ensures Tidy(stored) && og.Valid() && og !in Foot(stored) && og.Parts() !! Foot(stored)
    ensures AllVals(stored[key := og]) == AllVals(stored)[key := og.Val()]
    ensures Foot(stored[key := og]) == Foot(stored) + {og} + og.Parts()
  {
    hide GroupAccum.Parts, GroupAccum.Val, GroupAccum.Valid;
    var more := stored[key := og];
    assert key in more && more[key] == og;
    assert forall k :: k in stored ==> k in more && more[k] == stored[k];
    assert more.Values == stored.Values + {og};
    assert AllParts(more) == AllParts(stored) + og.Parts();
  }

  lemma GroupAt<K>(stored: map<K, GroupAccum>, key: K)
    requires Tidy(stored) && key in stored
    ensures stored[key].Valid() && AllVals(stored)[key] == stored[key].Val()
    ensures stored[key] in Foot(stored) && stored[key].Parts() <= Foot(stored)
  {
  }

  /** Folds a row into one of the groups. */
  method AddRowTo(ghost stored: map<Key, GroupAccum>, ghost key: Key, g: GroupAccum, shape: Shape, cols: seq<Column>,
                  r: nat, ghost m: GroupMap, ghost row: Row)
    requires Tidy(stored) && AllVals(stored) == m && key in stored && stored[key] == g
    requires shape.Valid() && |cols| == |row| == shape.numColumns && IsRow(cols, r, row) && Fits(shape, m[key])
    modifies g, g.Parts()
    ensures Tidy(stored) && Foot(stored) == old(Foot(stored))
    ensures AllVals(stored) == m[key := AddToGroup(shape, m[key], row)]
  {
    hide AddToGroup, IsRow, Fits, Shape.Valid, GroupAccum.Val, GroupAccum.Valid, GroupAccum.Parts, Tidy, AllVals,
         AllParts, Foot;
    ghost var rest := stored - {key};
    assert stored == rest[key := g];
    TidySplits(rest, key, g);
    FootExists(rest);
    g.AddMeasures(shape, cols, r, m[key], row);
    TidyExtends(rest, key, g);
  }

  /** Merges a group from elsewhere into one of the groups. */
  method MergeGroupInto(ghost stored: map<Key, GroupAccum>, ghost key: Key, g: GroupAccum, og: GroupAccum,
                        shape: Shape, ghost m: GroupMap, ghost b: Group)
    requires Tidy(stored) && AllVals(stored) == m && key in stored && stored[key] == g
    requires og.Valid() && og.Val() == b && og !in Foot(stored) && og.Parts() !! Foot(stored)
    requires shape.Valid() && Fits(shape, m[key]) && Fits(shape, b)
    modifies g, g.Parts(), og.Parts()
    ensures Tidy(stored) && forall x :: x in Foot(stored) ==> x in old(Foot(stored)) || fresh(x)
    ensures AllVals(stored) == m[key := MergeGroups(shape, m[key], b)]
  {
    hide MergeGroups, Fits, Shape.Valid, GroupAccum.Val, GroupAccum.Valid, GroupAccum.Parts, Tidy, AllVals, AllParts,
         Foot;
    ghost var rest := stored - {key};
    assert stored == rest[key := g];
    TidySplits(rest, key, g);
    FootExists(rest);
    g.Merge(og, shape, m[key], b);
    TidyExtends(rest, key, g);
  }

  method NewMeasureAccums(shape: Shape) returns (ms: seq<MeasureAccum>)
    requires shape.Valid()
    ensures Apart(ms) && fresh(PartsOf(ms)) && Vals(ms) == NewGroup(shape).measures
  {
    hide MeasureAccum.Val, MeasureAccum.Parts, PartsOf, Apart, NewMeasure, Shape.WantsOf;
    ms := [];
    NoParts();
    for i := 0 to |shape.measureTypes|
      invariant |ms| == i && Apart(ms) && fresh(PartsOf(ms))
      invariant forall j :: 0 <= j < i ==> ms[j].Val() == NewMeasure(shape.measureTypes[j], shape.WantsOf(j))
    {
      PartsIn(ms);
      PartsOfExist(ms);
      var m := NewMeasureAccum(shape.measureTypes[i], shape.WantsOf(i));
      PartsOfMore(ms, m);
      ms := ms + [m];
    }
  }
}
