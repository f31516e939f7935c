/** Fixed-width machine words: bytes, unsigned and signed 64-bit integers, and
    the bit-mask arithmetic a power-of-two hash table relies on. */
module Words {

  const TWO_TO_THE_63: int := 0x8000_0000_0000_0000
  const TWO_TO_THE_64: int := 0x1_0000_0000_0000_0000

  type byte = x: int | 0 <= x < 256
  type uint8 = x: int | 0 <= x < 256
  type uint64 = x: int | 0 <= x < TWO_TO_THE_64
  type int64 = x: int | -TWO_TO_THE_63 <= x < TWO_TO_THE_63

  /** The int64 congruent to x modulo 2^64. */
  function Wrap(x: int): int64 {
    (x + TWO_TO_THE_63) % TWO_TO_THE_64 - TWO_TO_THE_63
  }

  lemma WrapIsCongruent(x: int)
    ensures (x - Wrap(x)) % TWO_TO_THE_64 == 0
    ensures -TWO_TO_THE_63 <= x < TWO_TO_THE_63 ==> Wrap(x) == x
  {
  }

  /** Two's-complement addition: the overflow wraps around. */
  function AddI64(a: int64, b: int64): int64 {
    var s := a + b;
    if s >= TWO_TO_THE_63 then s - TWO_TO_THE_64
    else if s < -TWO_TO_THE_63 then s + TWO_TO_THE_64
    else s
  }

  lemma AddI64Laws(a: int64, b: int64, c: int64)
    ensures AddI64(a, b) == AddI64(b, a) && AddI64(a, 0) == a
    ensures AddI64(AddI64(a, b), c) == AddI64(a, AddI64(b, c))
    ensures AddI64(AddI64(a, b), c) == AddI64(AddI64(a, c), b)
  {
  }

  /** Wrapping at every addition is the same as wrapping the exact sum once. */
  lemma WrapAbsorbs(x: int, y: int64)
    ensures AddI64(Wrap(x), y) == Wrap(x + y)
  {
    var q := (x + TWO_TO_THE_63) / TWO_TO_THE_64;
    assert Wrap(x) == x - q * TWO_TO_THE_64;
    assert (x + y + TWO_TO_THE_63) == (Wrap(x) + y + TWO_TO_THE_63) + q * TWO_TO_THE_64;
  }

  lemma WrapAddsUp(x: int, y: int)
    ensures AddI64(Wrap(x), Wrap(y)) == Wrap(x + y)
  {
    WrapAbsorbs(x, Wrap(y));
    var q := (y + TWO_TO_THE_63) / TWO_TO_THE_64;
    assert Wrap(y) == y - q * TWO_TO_THE_64;
    assert (x + y + TWO_TO_THE_63) == (x + Wrap(y) + TWO_TO_THE_63) + q * TWO_TO_THE_64;
  }

  predicate IsPowerOfTwo(n: nat) {
    n == 1 || (n > 1 && n % 2 == 0 && IsPowerOfTwo(n / 2))
  }

  /** Bitwise AND of two naturals. */
  function BitAnd(x: nat, y: nat): nat {
    if x == 0 || y == 0 then 0
    else 2 * BitAnd(x / 2, y / 2) + (if x % 2 == 1 && y % 2 == 1 then 1 else 0)
  }

  /** Masking with capacity - 1 is the remainder modulo a power-of-two capacity. */
  lemma {:induction false} MaskIsRemainder(x: nat, n: nat)
    requires IsPowerOfTwo(n)
    ensures BitAnd(x, n - 1) == x % n
  {
    if n == 1 {
    } else if x == 0 {
      RemainderUnique(x, n, 0, 0);
    } else {
      var half := n / 2;
      MaskIsRemainder(x / 2, half);
      HalveRemainder(x, half);
      MaskHalves(x, half);
    }
  }

  lemma MaskHalves(x: nat, half: nat)
    requires x > 0 && half > 0
    ensures BitAnd(x, 2 * half - 1) == 2 * BitAnd(x / 2, half - 1) + x % 2
  {
    assert (2 * half - 1) / 2 == half - 1 && (2 * half - 1) % 2 == 1;
  }

  lemma HalveRemainder(x: nat, half: nat)
    requires half > 0
    ensures x % (2 * half) == 2 * ((x / 2) % half) + x % 2
  {
    var q, r := (x / 2) / half, (x / 2) % half;
    assert x / 2 == half * q + r;
    assert 2 * (half * q) == (2 * half) * q;
    RemainderUnique(x, 2 * half, q, 2 * r + x % 2);
  }

  lemma RemainderUnique(x: nat, n: nat, q: nat, r: nat)
    requires r < n && x == n * q + r
    ensures x % n == r
  {
    var q', r' := x / n, x % n;
    assert x == n * q' + r';
    if q < q' {
      MultipleGap(n, q, q');
    } else if q' < q {
      MultipleGap(n, q', q);
    }
  }

  lemma MultipleGap(n: nat, a: nat, b: nat)
    requires a < b
    ensures n * a + n <= n * b
  {
    if a + 1 < b {
      MultipleGap(n, a, b - 1);
    }
    assert n * b == n * (b - 1) + n;
  }
}
