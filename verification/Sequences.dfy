/** Facts about sequences that several modules share. */
module Sequences {

  /** An element of a sequence can be taken out of it. */
  lemma TakeOut<T>(x: T, rest: multiset<T>, q: seq<T>) returns (before: seq<T>, after: seq<T>)
    requires multiset(q) == multiset{x} + rest
    ensures q == before + [x] + after
    ensures multiset(before + after) == rest
  {
    assert multiset(q)[x] > 0;
    assert x in q;
    var i :| 0 <= i < |q| && q[i] == x;
    before, after := q[..i], q[i + 1..];
    assert q == before + [x] + after;
    assert multiset(q) == multiset(before) + multiset{x} + multiset(after);
    assert multiset(before + after) == multiset(before) + multiset(after) == multiset(q) - multiset{x};
  }

  lemma SplitFirst<T>(p: seq<T>)
    requires p != []
    ensures p == [p[0]] + p[1..] && multiset(p) == multiset{p[0]} + multiset(p[1..])
  {
    assert p == [p[0]] + p[1..];
  }

  lemma SplitLast<T>(p: seq<T>)
    requires p != []
    ensures p == p[..|p| - 1] + [p[|p| - 1]] && multiset(p) == multiset{p[|p| - 1]} + multiset(p[..|p| - 1])
  {
    assert p == p[..|p| - 1] + [p[|p| - 1]];
  }

  lemma ConcatAssociates<T>(x: seq<T>, y: seq<T>, z: seq<T>)
    ensures (x + y) + z == x + (y + z)
  {
  }

  /** Applying a function to every element respects rearrangement. */
  lemma {:induction false} MappedAnyOrder<S, T>(p: seq<S>, q: seq<S>, f: S -> T, fp: seq<T>, fq: seq<T>)
    requires multiset(p) == multiset(q) && |fp| == |p| && |fq| == |q|
    requires forall i :: 0 <= i < |p| ==> fp[i] == f(p[i])
    requires forall i :: 0 <= i < |q| ==> fq[i] == f(q[i])
    ensures multiset(fp) == multiset(fq)
  {
    if p == [] {
      assert |multiset(q)| == 0;
    } else {
      var n := |p| - 1;
      SplitLast(p);
      SplitLast(fp);
      var before, after := TakeOut(p[n], multiset(p[..n]), q);
      var i := |before|;
      assert fq == fq[..i] + [f(p[n])] + fq[i + 1..];
      MappedAnyOrder(p[..n], before + after, f, fp[..n], fq[..i] + fq[i + 1..]);
    }
  }

  // ---------- totals over a sequence ----------

  function Total<T>(xs: seq<T>, f: T -> int): int {
    if xs == [] then 0 else Total(xs[..|xs| - 1], f) + f(xs[|xs| - 1])
  }

  lemma {:induction false} TotalUpdate<T>(xs: seq<T>, f: T -> int, i: nat, x: T)
    requires i < |xs|
    ensures Total(xs[i := x], f) == Total(xs, f) - f(xs[i]) + f(x)
  {
    var n := |xs| - 1;
    if i == n {
      assert xs[i := x][..n] == xs[..n];
    } else {
      TotalUpdate(xs[..n], f, i, x);
      assert xs[i := x][..n] == xs[..n][i := x];
    }
  }

  lemma {:induction false} TotalOfSame<T>(xs: seq<T>, f: T -> int, v: int)
    requires forall i :: 0 <= i < |xs| ==> f(xs[i]) == v
    ensures Total(xs, f) == |xs| * v
  {
    if xs != [] {
      TotalOfSame(xs[..|xs| - 1], f, v);
    }
  }

  lemma {:induction false} TotalAtLeast<T>(xs: seq<T>, f: T -> int, i: nat)
    requires i < |xs| && forall x: T :: f(x) >= 0
    ensures Total(xs, f) >= f(xs[i])
  {
    var n := |xs| - 1;
    if i < n {
      TotalAtLeast(xs[..n], f, i);
    } else if n > 0 {
      TotalAtLeast(xs[..n], f, 0);
    }
  }

  lemma {:induction false} TotalAtLeastBoth<T>(xs: seq<T>, f: T -> int, i: nat, j: nat)
    requires i < j < |xs| && forall x: T :: f(x) >= 0
    ensures Total(xs, f) >= f(xs[i]) + f(xs[j])
  {
    var n := |xs| - 1;
    if j < n {
      TotalAtLeastBoth(xs[..n], f, i, j);
    } else {
      TotalAtLeast(xs[..n], f, i);
    }
  }

  lemma {:induction false} TotalIsNonNegative<T>(xs: seq<T>, f: T -> int)
    requires forall x: T :: f(x) >= 0
    ensures Total(xs, f) >= 0
  {
    if xs != [] {
      TotalIsNonNegative(xs[..|xs| - 1], f);
    }
  }

  // ---------- sorting, in the role of the library's sort.Slice ----------

  /** The relation orders these elements, possibly with ties. */
  ghost predicate IsTotalPreorder<T>(le: (T, T) -> bool, xs: seq<T>) {
    && (forall x, y :: x in xs && y in xs ==> le(x, y) || le(y, x))
    && (forall x, y, z :: x in xs && y in xs && z in xs && le(x, y) && le(y, z) ==> le(x, z))
  }

  ghost predicate SortedBy<T>(le: (T, T) -> bool, xs: seq<T>) {
    forall i, j :: 0 <= i < j < |xs| ==> le(xs[i], xs[j])
  }

  /** Some sorted arrangement of the same elements. */
  method SortBy<T>(le: (T, T) -> bool, xs: seq<T>) returns (ys: seq<T>)
    requires IsTotalPreorder(le, xs)
    ensures SortedBy(le, ys) && multiset(ys) == multiset(xs)
  {
    ys := [];
    for i := 0 to |xs|
      invariant SortedBy(le, ys) && multiset(ys) == multiset(xs[..i])
    {
      var j := 0;
      while j < |ys| && !le(xs[i], ys[j])
        invariant 0 <= j <= |ys|
        invariant forall k :: 0 <= k < j ==> !le(xs[i], ys[k])
      {
        j := j + 1;
      }
      PrefixElements(xs, ys, i);
      InsertKeepsSorted(le, xs, ys, xs[i], j);
      assert xs[..i + 1] == xs[..i] + [xs[i]];
      ys := ys[..j] + [xs[i]] + ys[j..];
    }
    assert xs[..|xs|] == xs;
  }

  lemma PrefixElements<T>(xs: seq<T>, ys: seq<T>, i: nat)
    requires i <= |xs| && multiset(ys) == multiset(xs[..i])
    ensures forall y :: y in ys ==> y in xs
  {
    forall y | y in ys
      ensures y in xs
    {
      assert y in multiset(ys);
      assert y in xs[..i];
    }
  }

  lemma InsertKeepsSorted<T>(le: (T, T) -> bool, xs: seq<T>, ys: seq<T>, x: T, j: nat)
    requires IsTotalPreorder(le, xs) && x in xs && forall y :: y in ys ==> y in xs
    requires SortedBy(le, ys) && j <= |ys|
    requires forall k :: 0 <= k < j ==> !le(x, ys[k])
    requires j < |ys| ==> le(x, ys[j])
    ensures SortedBy(le, ys[..j] + [x] + ys[j..])
    ensures multiset(ys[..j] + [x] + ys[j..]) == multiset(ys) + multiset{x}
  {
    InsertKeepsElements(ys, x, j);
    var zs := ys[..j] + [x] + ys[j..];
    forall a, b | 0 <= a < b < |zs|
      ensures le(zs[a], zs[b])
    {
      var fromA, fromB := if a < j then a else a - 1, if b < j then b else b - 1;
      if a == j {
        assert ys[j] in xs && ys[fromB] in xs;
        assert le(x, ys[j]) && (j == fromB || le(ys[j], ys[fromB]));
      } else if b == j {
        assert ys[a] in xs;
        assert le(ys[a], x);
      } else {
        assert le(ys[fromA], ys[fromB]);
      }
    }
  }

  lemma InsertKeepsElements<T>(ys: seq<T>, x: T, j: nat)
    requires j <= |ys|
    ensures multiset(ys[..j] + [x] + ys[j..]) == multiset(ys) + multiset{x}
  {
    assert ys == ys[..j] + ys[j..];
  }

  /** Without ties there is only one sorted arrangement. */
  lemma {:induction false} SortedIsUnique<T>(le: (T, T) -> bool, p: seq<T>, q: seq<T>)
    requires SortedBy(le, p) && SortedBy(le, q) && multiset(p) == multiset(q)
    requires forall x, y :: x in p && y in p && le(x, y) && le(y, x) ==> x == y
    ensures p == q
    decreases |p|
  {
    assert |multiset(p)| == |multiset(q)|;
    if p == [] {
    } else {
      FirstIsLeast(le, p, q);
      FirstIsLeast(le, q, p);
      assert p[0] in multiset(p) && q[0] in multiset(p);
      assert p[0] == q[0];
      SplitFirst(p);
      SplitFirst(q);
      assert multiset(p[1..]) == multiset(p) - multiset{p[0]};
      assert multiset(q[1..]) == multiset(q) - multiset{q[0]};
      SortedIsUnique(le, p[1..], q[1..]);
    }
  }

  lemma FirstIsLeast<T>(le: (T, T) -> bool, p: seq<T>, q: seq<T>)
    requires SortedBy(le, p) && multiset(p) == multiset(q) && p != [] && q != []
    ensures q[0] in p && (p[0] == q[0] || le(p[0], q[0]))
  {
    assert q[0] in multiset(q);
    assert q[0] in multiset(p);
    var i :| 0 <= i < |p| && p[i] == q[0];
    assert i > 0 ==> le(p[0], p[i]);
  }
}
