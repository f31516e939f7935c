/** The order of group keys in a report: by columns, strings byte by byte, integers and floats by
    value. */
module KeyOrders {
  import opened Words
  import opened Floats
  import opened Values
  import opened States

  // ---------- comparing keys ----------

  /** Byte-wise lexicographic order. */
  function CompareBytes(a: bytes, b: bytes): int {
    if a == [] then (if b == [] then 0 else -1)
    else if b == [] then 1
    else if a[0] < b[0] then -1
    else if b[0] < a[0] then 1
    else CompareBytes(a[1..], b[1..])
  }

  function CompareInts(a: int64, b: int64): int { if a < b then -1 else if b < a then 1 else 0 }

  function Text(v: Value): bytes { if v.Str? then v.s else [] }

  function CompareValues(t: ColumnType, v: Value, w: Value): int {
    match t
    case TypeString => CompareBytes(Text(v), Text(w))
    case TypeInt64 => CompareInts(v.Int(), w.Int())
    case TypeFloat64 => Compare(v.Float(), w.Float())
  }

  /** The comparison of two keys from column i on. */
  function CompareFrom(a: Key, b: Key, types: seq<ColumnType>, i: nat): int
    requires |a| == |b| == |types| && i <= |types|
    decreases |types| - i
  {
    if i == |types| then 0
    else if CompareValues(types[i], a[i], b[i]) != 0 then CompareValues(types[i], a[i], b[i])
    else CompareFrom(a, b, types, i + 1)
  }

  method CompareKeys(a: Key, b: Key, types: seq<ColumnType>) returns (c: int)
    requires |a| == |b| == |types|
    ensures c == CompareFrom(a, b, types, 0)
  {
    hide CompareValues;
    for i := 0 to |types|
      invariant CompareFrom(a, b, types, 0) == CompareFrom(a, b, types, i)
    {
      c := CompareValues(types[i], a[i], b[i]);
      if c != 0 {
        return;
      }
    }
    return 0;
  }

  // ---------- the comparison is an order with ties ----------

  /** Three comparisons that agree with an order: swapping two sides changes the sign, and
      they chain, strictly if one of them is strict. */
  predicate Orderly(xy: int, yx: int, yz: int, xz: int) {
    && yx == 0 - xy
    && (xy <= 0 && yz <= 0 ==> xz <= 0)
    && (xy <= 0 && yz <= 0 && (xy < 0 || yz < 0) ==> xz < 0)
  }

  lemma {:induction false} BytesOrderly(x: bytes, y: bytes, z: bytes)
    ensures Orderly(CompareBytes(x, y), CompareBytes(y, x), CompareBytes(y, z), CompareBytes(x, z))
  {
    if x != [] && y != [] {
      BytesOrderly(x[1..], y[1..], if z == [] then [] else z[1..]);
    }
  }

  lemma ValuesOrderly(t: ColumnType, x: Value, y: Value, z: Value)
    ensures Orderly(CompareValues(t, x, y), CompareValues(t, y, x), CompareValues(t, y, z), CompareValues(t, x, z))
  {
    hide CompareBytes, Compare;
    BytesOrderly(Text(x), Text(y), Text(z));
    FloatsOrderly(x.Float(), y.Float(), z.Float());
  }

  lemma FloatsOrderly(x: uint64, y: uint64, z: uint64)
    ensures Orderly(Compare(x, y), Compare(y, x), Compare(y, z), Compare(x, z))
  {
  }

  lemma {:induction false} KeysOrderly(x: Key, y: Key, z: Key, types: seq<ColumnType>, i: nat)
    requires |x| == |y| == |z| == |types| && i <= |types|
    ensures Orderly(CompareFrom(x, y, types, i), CompareFrom(y, x, types, i),
                    CompareFrom(y, z, types, i), CompareFrom(x, z, types, i))
    decreases |types| - i
  {
    hide CompareValues;
    if i < |types| {
      ValuesOrderly(types[i], x[i], y[i], z[i]);
      ValuesOrderly(types[i], y[i], x[i], z[i]);
      KeysOrderly(x, y, z, types, i + 1);
    }
  }

  // ---------- ties ----------

  lemma {:induction false} BytesTie(a: bytes, b: bytes)
    ensures CompareBytes(a, b) == 0 <==> a == b
  {
    if a != [] && b != [] {
      BytesTie(a[1..], b[1..]);
      assert a == [a[0]] + a[1..] && b == [b[0]] + b[1..];
    }
  }

  /** Different float bits that sort as equal: two NaNs, or the two zeros. */
  predicate Alike(v: Value, w: Value) {
    v == w || (v.F64? && w.F64? && ((IsNaN(v.bits) && IsNaN(w.bits)) || (IsZero(v.bits) && IsZero(w.bits))))
  }

  predicate KeysAlike(a: Key, b: Key) {
    |a| == |b| && forall i :: 0 <= i < |a| ==> Alike(a[i], b[i])
  }

  lemma ValuesTie(v: Value, w: Value)
    requires v.Type() == w.Type()
    ensures CompareValues(v.Type(), v, w) == 0 <==> Alike(v, w)
  {
    hide CompareBytes, Compare;
    BytesTie(Text(v), Text(w));
    CompareTies(v.Float(), w.Float());
  }

  lemma {:induction false} KeysTie(s: Shape, a: Key, b: Key, i: nat)
    requires s.Valid() && KeyTyped(s, a) && KeyTyped(s, b) && i <= |a|
    ensures CompareFrom(a, b, s.groupByTypes, i) == 0 <==> forall j :: i <= j < |a| ==> Alike(a[j], b[j])
    decreases |a| - i
  {
    hide CompareValues, Alike;
    if i < |a| {
      ValuesTie(a[i], b[i]);
      KeysTie(s, a, b, i + 1);
    }
  }

  lemma KeysTieWhole(s: Shape, a: Key, b: Key)
    requires s.Valid() && KeyTyped(s, a) && KeyTyped(s, b)
    ensures |a| == |b| == |s.groupByTypes|
    ensures CompareFrom(a, b, s.groupByTypes, 0) == 0 <==> KeysAlike(a, b)
  {
    hide Alike;
    KeysTie(s, a, b, 0);
  }

  // ---------- which way the order runs ----------

  /** A proper prefix, or a smaller byte at the first difference. */
  ghost predicate BytesBelow(a: bytes, b: bytes) {
    exists n :: AgreeBefore(a, b, n) && n < |b| && (n == |a| || a[n] < b[n])
  }

  /** The first n bytes are the same in both. */
  predicate AgreeBefore(a: bytes, b: bytes, n: int) {
    0 <= n <= |a| && n <= |b| && forall k :: 0 <= k < n ==> a[k] == b[k]
  }

  /** NaN lies below every number. */
  predicate FloatBelow(x: Extended, y: Extended) {
    !y.NotANumber? && (x.NotANumber? || Below(x, y))
  }

  ghost predicate ValueBelow(v: Value, w: Value) {
    || (v.Str? && w.Str? && BytesBelow(v.s, w.s))
    || (v.I64? && w.I64? && v.i < w.i)
    || (v.F64? && w.F64? && FloatBelow(Decode(v.bits), Decode(w.bits)))
  }

  /** From column i on, the keys first differ at column j, and there a is below. */
  ghost predicate BelowAt(a: Key, b: Key, i: nat, j: int) {
    i <= j < |a| && j < |b| && (forall k :: i <= k < j ==> Alike(a[k], b[k])) && ValueBelow(a[j], b[j])
  }

  /** At the first column where the keys are not alike, a is below b. */
  ghost predicate KeyBelow(a: Key, b: Key) { exists j :: BelowAt(a, b, 0, j) }

  lemma {:induction false} BytesMeaning(a: bytes, b: bytes)
    ensures CompareBytes(a, b) < 0 <==> BytesBelow(a, b)
  {
    assert AgreeBefore(a, b, 0);
    if a != [] && b != [] && a[0] == b[0] {
      BytesMeaning(a[1..], b[1..]);
      assert forall n :: AgreeBefore(a[1..], b[1..], n) ==> AgreeBefore(a, b, n + 1);
      assert forall n :: AgreeBefore(a, b, n) && n > 0 ==> AgreeBefore(a[1..], b[1..], n - 1);
    }
  }

  lemma ValuesMeaning(v: Value, w: Value)
    requires v.Type() == w.Type()
    ensures CompareValues(v.Type(), v, w) < 0 <==> ValueBelow(v, w)
  {
    hide CompareBytes, BytesBelow, Magnitude;
    if v.Str? {
      BytesMeaning(v.s, w.s);
    } else if v.F64? && !IsNaN(v.bits) && !IsNaN(w.bits) {
      RankIsValueOrder(v.bits, w.bits);
    }
  }

  lemma {:induction false} CompareMeaningFrom(s: Shape, a: Key, b: Key, i: nat)
    requires s.Valid() && KeyTyped(s, a) && KeyTyped(s, b) && i <= |a|
    ensures CompareFrom(a, b, s.groupByTypes, i) < 0 <==> exists j :: BelowAt(a, b, i, j)
    decreases |a| - i
  {
    hide CompareValues, Alike, ValueBelow;
    if i < |a| {
      ValuesTie(a[i], b[i]);
      ValuesMeaning(a[i], b[i]);
      CompareMeaningFrom(s, a, b, i + 1);
      var next, c := i + 1, CompareValues(s.groupByTypes[i], a[i], b[i]);
      assert forall j :: BelowAt(a, b, i, j) ==> if j == i then c < 0 else c == 0 && BelowAt(a, b, next, j);
      assert forall j :: c == 0 && BelowAt(a, b, next, j) ==> BelowAt(a, b, i, j);
      assert c < 0 ==> BelowAt(a, b, i, i);
    }
  }

  /** Typed keys compare as negative exactly when at the first column where they are not alike the
      first is below the second. */
  lemma CompareMeaning(s: Shape, a: Key, b: Key)
    requires s.Valid() && KeyTyped(s, a) && KeyTyped(s, b)
    ensures CompareFrom(a, b, s.groupByTypes, 0) < 0 <==> KeyBelow(a, b)
  {
    hide CompareFrom, BelowAt;
    CompareMeaningFrom(s, a, b, 0);
  }
}
