/** Comparing group-by tuples, and the byte encoding of a tuple that is fed to the hash. */
module GroupKeys {
  import opened Sequences
  import opened Words
  import opened Values

  // ---------- tuple comparison ----------

  /** Tuples are equal when they agree, type and native value, position by position. */
  method DimsEqual(a: Key, b: Key) returns (equal: bool)
    ensures equal <==> a == b
  {
    if |a| != |b| {
      return false;
    }
    for i := 0 to |a|
      invariant a[..i] == b[..i]
    {
      if a[i].Type() != b[i].Type() {
        return false;
      }
      var same := match a[i]
        case Str(s) => s == b[i].s
        case I64(n) => n == b[i].i
        case F64(bits) => bits == b[i].bits;
      if !same {
        return false;
      }
      assert a[..i + 1] == a[..i] + [a[i]] && b[..i + 1] == b[..i] + [b[i]];
    }
    assert a == a[..|a|] && b == b[..|b|];
    return true;
  }

  // ---------- encoding ----------

  function Uvarint(x: nat): bytes {
    if x < 128 then [x] else [x % 128 + 128] + Uvarint(x / 128)
  }

  function LittleEndian(x: nat, width: nat): bytes {
    if width == 0 then [] else [x % 256] + LittleEndian(x / 256, width - 1)
  }

  /** An int64 reinterpreted as unsigned. */
  function Unsigned(i: int64): uint64 { if i < 0 then i + TWO_TO_THE_64 else i }

  function EncodeValue(v: Value): bytes {
    match v
    case Str(s) => Uvarint(|s|) + s
    case I64(i) => LittleEndian(Unsigned(i), 8)
    case F64(bits) => LittleEndian(bits, 8)
  }

  function Encode(dims: Key): bytes {
    if dims == [] then [] else EncodeValue(dims[0]) + Encode(dims[1..])
  }

  lemma EncodeNext(dims: Key, i: nat)
    requires i <= |dims|
    ensures i < |dims| ==> Encode(dims[i..]) == EncodeValue(dims[i]) + Encode(dims[i + 1..])
    ensures i == |dims| ==> Encode(dims[i..]) == []
  {
    hide EncodeValue;
    if i < |dims| {
      assert dims[i..][1..] == dims[i + 1..];
    }
  }

  method EncodeGroupKey(dims: Key) returns (buf: bytes)
    ensures buf == Encode(dims)
  {
    hide EncodeValue, Encode;
    buf := [];
    assert dims[0..] == dims;
    for i := 0 to |dims|
      invariant Encode(dims) == buf + Encode(dims[i..])
    {
      EncodeNext(dims, i);
      ConcatAssociates(buf, EncodeValue(dims[i]), Encode(dims[i + 1..]));
      buf := buf + EncodeValue(dims[i]);
    }
    EncodeNext(dims, |dims|);
  }

  // ---------- the encoding is injective and prefix-free ----------

  lemma UvarintShape(n: nat, x: bytes)
    ensures n < 128 ==> Uvarint(n) + x == [n] + x
    ensures n >= 128 ==> Uvarint(n) + x == [n % 128 + 128] + (Uvarint(n / 128) + x)
  {
  }

  lemma SameHeadAndTail(a: byte, b: byte, x: bytes, y: bytes)
    requires [a] + x == [b] + y
    ensures a == b && x == y
  {
    assert ([a] + x)[0] == a && ([b] + y)[0] == b;
    assert ([a] + x)[1..] == x && ([b] + y)[1..] == y;
  }

  lemma {:induction false} UvarintPrefixFree(m: nat, n: nat, x: bytes, y: bytes)
    requires Uvarint(m) + x == Uvarint(n) + y
    ensures m == n && x == y
  {
    hide Uvarint;
    UvarintShape(m, x);
    UvarintShape(n, y);
    var lowM: byte, lowN: byte := if m < 128 then m else m % 128 + 128, if n < 128 then n else n % 128 + 128;
    var restM, restN := if m < 128 then x else Uvarint(m / 128) + x, if n < 128 then y else Uvarint(n / 128) + y;
    SameHeadAndTail(lowM, lowN, restM, restN);
    if m >= 128 {
      UvarintPrefixFree(m / 128, n / 128, x, y);
    }
  }

  function Power256(width: nat): nat {
    if width == 0 then 1 else 256 * Power256(width - 1)
  }

  lemma {:induction false} LittleEndianPrefixFree(m: nat, n: nat, width: nat, x: bytes, y: bytes)
    requires m < Power256(width) && n < Power256(width)
    requires LittleEndian(m, width) + x == LittleEndian(n, width) + y
    ensures m == n && x == y
  {
    if width == 0 {
      assert LittleEndian(m, 0) + x == x && LittleEndian(n, 0) + y == y;
    } else {
      var restM, restN := LittleEndian(m / 256, width - 1) + x, LittleEndian(n / 256, width - 1) + y;
      assert LittleEndian(m, width) + x == [m % 256] + restM;
      assert LittleEndian(n, width) + y == [n % 256] + restN;
      SameHeadAndTail(m % 256, n % 256, restM, restN);
      LittleEndianPrefixFree(m / 256, n / 256, width - 1, x, y);
    }
  }

  lemma EightBytesHoldAWord()
    ensures Power256(8) == TWO_TO_THE_64
  {
    assert Power256(2) == 65536;
    assert Power256(4) == 4294967296;
    assert Power256(6) == 281474976710656;
  }

  lemma ValuePrefixFree(v: Value, w: Value, x: bytes, y: bytes)
    requires v.Type() == w.Type()
    requires EncodeValue(v) + x == EncodeValue(w) + y
    ensures v == w && x == y
  {
    hide Uvarint, LittleEndian, Power256;
    EightBytesHoldAWord();
    match v
    case Str(s) =>
      assert Uvarint(|s|) + (s + x) == EncodeValue(v) + x;
      assert Uvarint(|w.s|) + (w.s + y) == EncodeValue(w) + y;
      UvarintPrefixFree(|s|, |w.s|, s + x, w.s + y);
      assert s == (s + x)[..|s|] && x == (s + x)[|s|..];
      assert w.s == (w.s + y)[..|s|] && y == (w.s + y)[|s|..];
    case I64(i) =>
      LittleEndianPrefixFree(Unsigned(i), Unsigned(w.i), 8, x, y);
    case F64(bits) =>
      LittleEndianPrefixFree(bits, w.bits, 8, x, y);
  }

  predicate SameTypes(a: Key, b: Key) {
    |a| == |b| && forall i :: 0 <= i < |a| ==> a[i].Type() == b[i].Type()
  }

  lemma EncodeShape(a: Key, x: bytes)
    requires a != []
    ensures Encode(a) + x == EncodeValue(a[0]) + (Encode(a[1..]) + x)
    ensures a == [a[0]] + a[1..]
  {
    hide EncodeValue;
    ConcatAssociates(EncodeValue(a[0]), Encode(a[1..]), x);
  }

  lemma {:induction false} EncodePrefixFree(a: Key, b: Key, x: bytes, y: bytes)
    requires SameTypes(a, b)
    requires Encode(a) + x == Encode(b) + y
    ensures a == b && x == y
  {
    if a == [] {
      assert Encode(a) + x == x && Encode(b) + y == y;
    } else {
      hide Encode, EncodeValue;
      EncodeShape(a, x);
      EncodeShape(b, y);
      ValuePrefixFree(a[0], b[0], Encode(a[1..]) + x, Encode(b[1..]) + y);
      EncodePrefixFree(a[1..], b[1..], x, y);
    }
  }

  /** For tuples of one vector of column types, equal encodings mean equal tuples. */
  lemma EncodingIsInjective(a: Key, b: Key)
    requires SameTypes(a, b)
    ensures Encode(a) == Encode(b) <==> a == b
  {
    if Encode(a) == Encode(b) {
      EncodePrefixFree(a, b, [], []);
    }
  }

  // ---------- across column types ----------

  predicate HasTypes(a: Key, types: seq<ColumnType>) {
    |a| == |types| && forall i :: 0 <= i < |a| ==> a[i].Type() == types[i]
  }

  const SEVEN_ZEROS: bytes := [0, 0, 0, 0, 0, 0, 0]

  /** A value of each type, all with one encoding: seven zero bytes as a string, and the
      numbers whose eight bytes start with a seven. */
  function SevenOf(t: ColumnType): (v: Value)
    ensures v.Type() == t
  {
    match t
    case TypeString => Str(SEVEN_ZEROS)
    case TypeInt64 => I64(7)
    case TypeFloat64 => F64(7)
  }

  function Sevens(types: seq<ColumnType>): (key: Key)
    ensures HasTypes(key, types)
  {
    seq(|types|, i requires 0 <= i < |types| => SevenOf(types[i]))
  }

  lemma SevensEncodeAlike(t: ColumnType)
    ensures EncodeValue(SevenOf(t)) == [7] + SEVEN_ZEROS
  {
    assert Uvarint(7) == [7];
    assert LittleEndian(0, 1) == [0];
    assert LittleEndian(0, 3) == [0, 0, 0];
    assert LittleEndian(0, 5) == [0, 0, 0, 0, 0];
    assert LittleEndian(0, 7) == SEVEN_ZEROS;
    assert LittleEndian(7, 8) == [7] + SEVEN_ZEROS;
  }

  lemma {:induction false} SevenKeysEncodeAlike(t: seq<ColumnType>, u: seq<ColumnType>)
    requires |t| == |u|
    ensures Encode(Sevens(t)) == Encode(Sevens(u))
  {
    hide EncodeValue, SevenOf;
    if t != [] {
      SevensEncodeAlike(t[0]);
      SevensEncodeAlike(u[0]);
      assert Sevens(t)[1..] == Sevens(t[1..]) && Sevens(u)[1..] == Sevens(u[1..]);
      SevenKeysEncodeAlike(t[1..], u[1..]);
    }
  }

  /** Encodings of tuples of two type vectors of one length never coincide for different tuples
      exactly when the two vectors are the same. */
  lemma EncodingSeparatesOneTypeVector(t: seq<ColumnType>, u: seq<ColumnType>)
    requires |t| == |u|
    ensures (forall a: Key, b: Key :: HasTypes(a, t) && HasTypes(b, u) && Encode(a) == Encode(b) ==> a == b) <==> t == u
  {
    hide Encode, Sevens, SevenOf;
    if t == u {
      forall a: Key, b: Key | HasTypes(a, t) && HasTypes(b, u) && Encode(a) == Encode(b)
        ensures a == b
      {
        EncodingIsInjective(a, b);
      }
    } else {
      SevenKeysEncodeAlike(t, u);
      var i :| 0 <= i < |t| && t[i] != u[i];
      assert Sevens(t)[i].Type() != Sevens(u)[i].Type();
      assert HasTypes(Sevens(t), t) && HasTypes(Sevens(u), u) && Sevens(t) != Sevens(u);
    }
  }

  /** The shortest case: a string of seven zero bytes reads back as the integer 7. */
  lemma EncodingIsAmbiguousAcrossTypes()
    ensures Encode([Str(SEVEN_ZEROS)]) == Encode([I64(7)])
  {
    SevenKeysEncodeAlike([TypeString], [TypeInt64]);
    assert Sevens([TypeString]) == [Str(SEVEN_ZEROS)] && Sevens([TypeInt64]) == [I64(7)];
  }
}
