/** Distinct-count sketches: 2^14 registers, each holding the longest run of leading
    zeros (plus one) seen among the hashes routed to it. */
module HyperLogLogs {
  import opened Words
  import opened Floats

  const REGISTERS: nat := 16384 // 1 << 14
  const TWO_TO_THE_50: int := 0x4_0000_0000_0000

  type Registers = r: seq<uint8> | |r| == REGISTERS witness Zeros(REGISTERS)

  function Zeros(n: nat): (z: seq<uint8>)
    ensures |z| == n
  {
    seq(n, _ => 0)
  }

  const EMPTY: Registers := Zeros(REGISTERS)

  // ---------- routing one hash ----------

  function BitLength(w: nat): nat {
    if w == 0 then 0 else 1 + BitLength(w / 2)
  }

  function LeadingZeros64(w: uint64): int { 64 - BitLength(w) }

  /** The register a hash is routed to: its top 14 bits. */
  function Bucket(hash: uint64): (j: nat)
    ensures j < REGISTERS
  {
    hash / TWO_TO_THE_50
  }

  /** The remaining 50 bits, shifted to the top of the word. */
  function Shifted(hash: uint64): uint64 { (hash * 16384) % TWO_TO_THE_64 }

  /** Length of the leading-zero run plus one, counted over the 64-bit shifted word. */
  function Rho(hash: uint64): (r: uint8)
    ensures 1 <= r <= 50 || r == 65
    ensures r == 65 <==> hash % TWO_TO_THE_50 == 0
  {
    RhoBits(hash);
    LeadingZeros64(Shifted(hash)) + 1
  }

  lemma {:induction false} BitLengthBounds(w: nat)
    requires w > 0
    ensures BitLength(w) >= 1 && Pow2(BitLength(w) - 1) <= w < Pow2(BitLength(w))
  {
    if w == 1 {
      assert BitLength(1) == 1 && Pow2(0) == 1 && Pow2(1) == 2;
    } else {
      hide Pow2;
      BitLengthBounds(w / 2);
      PowSteps(BitLength(w / 2));
    }
  }

  lemma PowSteps(k: nat)
    requires k > 0
    ensures Pow2(k) == 2 * Pow2(k - 1) && Pow2(k + 1) == 2 * Pow2(k)
  {
  }

  lemma {:induction false} BitLengthAtMost(w: nat, k: nat)
    requires w < Pow2(k)
    ensures BitLength(w) <= k
  {
    if w > 0 {
      BitLengthAtMost(w / 2, k - 1);
    }
  }

  function ShiftLeft(w: nat, k: nat): nat {
    if k == 0 then w else 2 * ShiftLeft(w, k - 1)
  }

  lemma {:induction false} BitLengthShift(w: nat, k: nat)
    requires w > 0
    ensures BitLength(ShiftLeft(w, k)) == BitLength(w) + k && ShiftLeft(w, k) > 0
  {
    if k > 0 {
      BitLengthShift(w, k - 1);
      BitLengthDouble(ShiftLeft(w, k - 1));
    }
  }

  lemma ShiftLeftStep(w: nat, k: nat)
    ensures ShiftLeft(w, k + 4) == 16 * ShiftLeft(w, k)
  {
    assert ShiftLeft(w, k + 2) == 4 * ShiftLeft(w, k);
  }

  lemma ShiftBy14(w: nat)
    ensures ShiftLeft(w, 14) == w * 16384
  {
    ShiftLeftStep(w, 0);
    ShiftLeftStep(w, 4);
    ShiftLeftStep(w, 8);
    assert ShiftLeft(w, 13) == 2 * ShiftLeft(w, 12);
  }

  lemma BitLengthDouble(x: nat)
    requires x > 0
    ensures BitLength(2 * x) == BitLength(x) + 1
  {
  }

  lemma PowConstants()
    ensures Pow2(50) == TWO_TO_THE_50
  {
    assert Pow2(8) == 256;
    assert Pow2(14) == 16384;
    assert Pow2(20) == 1048576;
    assert Pow2(26) == 67108864;
    assert Pow2(32) == 4294967296;
    assert Pow2(38) == 274877906944;
    assert Pow2(44) == 17592186044416;
  }

  lemma ShiftDropsTopBits(hash: uint64)
    ensures Shifted(hash) == (hash % TWO_TO_THE_50) * 16384
  {
    var q, low := hash / TWO_TO_THE_50, hash % TWO_TO_THE_50;
    assert hash * 16384 == q * TWO_TO_THE_64 + low * 16384;
  }

  lemma RhoBits(hash: uint64)
    ensures var low := hash % TWO_TO_THE_50;
            && Shifted(hash) == low * 16384
            && BitLength(Shifted(hash)) == (if low == 0 then 0 else BitLength(low) + 14)
            && (low > 0 ==> 1 <= BitLength(low) <= 50)
  {
    hide BitLength, Shifted, Pow2, ShiftLeft;
    var low := hash % TWO_TO_THE_50;
    ShiftDropsTopBits(hash);
    PowConstants();
    BitLengthZero();
    if low > 0 {
      BitLengthAtMost(low, 50);
      BitLengthShift(low, 14);
      ShiftBy14(low);
    }
  }

  lemma BitLengthZero()
    ensures BitLength(0) == 0 && forall w :: w > 0 ==> BitLength(w) >= 1
  {
  }

  /** What rho measures: among the low 50 bits the first rho - 1 are zero and the next is one,
      or all of them are zero, and then rho is 65 and not 51. */
  lemma RhoMeaning(hash: uint64)
    ensures Rho(hash) == 65 <==> hash % TWO_TO_THE_50 == 0
    ensures Rho(hash) != 65 ==>
      1 <= Rho(hash) <= 50 && Pow2(50 - Rho(hash)) <= hash % TWO_TO_THE_50 < Pow2(51 - Rho(hash))
  {
    RhoBits(hash);
    if Rho(hash) != 65 {
      BitLengthBounds(hash % TWO_TO_THE_50);
    }
  }

  // ---------- registers ----------

  function Max(a: uint8, b: uint8): uint8 { if b > a then b else a }

  function AddHash(r: Registers, hash: uint64): Registers {
    var j := Bucket(hash);
    r[j := Max(r[j], Rho(hash))]
  }

  function Union(a: Registers, b: Registers): (u: Registers)
    ensures forall j :: 0 <= j < REGISTERS ==> u[j] == Max(a[j], b[j])
  {
    seq(REGISTERS, j requires 0 <= j < REGISTERS => Max(a[j], b[j]))
  }

  /** The registers after adding every hash in turn. */
  function Sketch(hashes: seq<uint64>): Registers {
    if hashes == [] then EMPTY
    else AddHash(Sketch(hashes[..|hashes| - 1]), hashes[|hashes| - 1])
  }

  /** The hashes that register j is for: those whose top 14 bits are j. */
  predicate RoutedTo(h: uint64, j: nat) { j * TWO_TO_THE_50 <= h < (j + 1) * TWO_TO_THE_50 }

  lemma BucketMeaning(h: uint64, j: nat)
    ensures Bucket(h) == j <==> RoutedTo(h, j)
  {
  }

  /** v is the largest rho among the hashes routed to register j, or 0 if there are none. */
  ghost predicate IsMaxRho(hashes: seq<uint64>, j: nat, v: uint8) {
    && (forall h :: h in hashes && RoutedTo(h, j) ==> Rho(h) <= v)
    && (v == 0 || exists h :: h in hashes && RoutedTo(h, j) && Rho(h) == v)
  }

  lemma {:induction false} SketchMeaning(hashes: seq<uint64>, j: nat)
    requires j < REGISTERS
    ensures IsMaxRho(hashes, j, Sketch(hashes)[j])
    ensures Sketch(hashes)[j] <= 50 || Sketch(hashes)[j] == 65
  {
    hide Rho, Bucket, RoutedTo;
    if hashes != [] {
      var front, last := hashes[..|hashes| - 1], hashes[|hashes| - 1];
      SketchMeaning(front, j);
      BucketMeaning(last, j);
      assert hashes == front + [last];
      var v := Sketch(front)[j];
      if v != 0 {
        var h :| h in front && RoutedTo(h, j) && Rho(h) == v;
        assert h in hashes;
      }
      assert last in hashes;
    }
  }

  /** Order and repetition do not matter: the set of hashes determines every register. */
  lemma SketchDependsOnSet(a: seq<uint64>, b: seq<uint64>)
    requires forall h :: h in a <==> h in b
    ensures Sketch(a) == Sketch(b)
  {
    forall j | 0 <= j < REGISTERS
      ensures Sketch(a)[j] == Sketch(b)[j]
    {
      SketchMeaning(a, j);
      SketchMeaning(b, j);
    }
  }

  lemma UnionAddHash(a: Registers, b: Registers, h: uint64)
    ensures Union(a, AddHash(b, h)) == AddHash(Union(a, b), h)
  {
  }

  lemma UnionEmpty(a: Registers)
    ensures Union(a, EMPTY) == a
  {
    assert forall j :: 0 <= j < REGISTERS ==> Union(a, EMPTY)[j] == a[j];
  }

  lemma AddHashCommutes(r: Registers, g: uint64, h: uint64)
    ensures AddHash(AddHash(r, g), h) == AddHash(AddHash(r, h), g)
  {
  }

  /** Merging two sketches gives the sketch of all the hashes together. */
  lemma {:induction false} UnionIsSketchOfBoth(a: seq<uint64>, b: seq<uint64>)
    ensures Union(Sketch(a), Sketch(b)) == Sketch(a + b)
  {
    if b == [] {
      assert a + b == a;
      UnionEmpty(Sketch(a));
    } else {
      var front, last := b[..|b| - 1], b[|b| - 1];
      UnionIsSketchOfBoth(a, front);
      UnionAddHash(Sketch(a), Sketch(front), last);
      assert (a + b)[..|a + b| - 1] == a + front;
    }
  }

  // ---------- the sketch object ----------

  class HyperLogLog {
    const registers: array<uint8>

    predicate Sized() { registers.Length == REGISTERS }

    ghost function Value(): Registers
      reads registers
    {
      if Sized() then registers[..] else EMPTY
    }

    constructor ()
      ensures Sized() && fresh(registers) && Value() == EMPTY
    {
      registers := new uint8[REGISTERS](_ => 0);
      new;
      assert registers[..] == EMPTY;
    }

    /** A sketch with its own copy of some registers. */
    constructor Copy(from: Registers)
      ensures Sized() && fresh(registers) && Value() == from
    {
      registers := new uint8[REGISTERS](i requires 0 <= i < REGISTERS => from[i]);
      new;
      assert registers[..] == from;
    }

    method AddValue(hash: uint64)
      requires Sized()
      modifies registers
      ensures Value() == AddHash(old(Value()), hash)
    {
      var idx := Bucket(hash);
      var rho := Rho(hash);
      if rho > registers[idx] {
        registers[idx] := rho;
      }
    }
  }

  /** The register-wise maximum, in a new sketch. */
  method Merge(a: HyperLogLog, b: HyperLogLog) returns (out: HyperLogLog)
    requires a.Sized() && b.Sized()
    ensures fresh(out) && fresh(out.registers) && out.Sized()
    ensures out.Value() == Union(a.Value(), b.Value())
  {
    out := new HyperLogLog();
    for i := 0 to REGISTERS
      invariant forall j :: 0 <= j < i ==> out.registers[j] == Max(a.registers[j], b.registers[j])
    {
      out.registers[i] := Max(a.registers[i], b.registers[i]);
    }
  }
}
