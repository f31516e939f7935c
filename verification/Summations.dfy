/** What a running float sum is: some arrangement of rounded additions of exactly the values it
    has taken in. Arrangements differ in rounding, and agree where every sum is exact. */
module Summations {
  import opened Words
  import opened Floats
  import opened Rounding
  import opened Sequences

  /** How a sum came about: values added to a running sum, and sums added to each other. */
  datatype Summation = Nothing | Adding(before: Summation, x: uint64) | Joining(left: Summation, right: Summation)

  function Evaluate(t: Summation): uint64 {
    match t
    case Nothing => 0
    case Adding(before, x) => Plus(Evaluate(before), x)
    case Joining(left, right) => Plus(Evaluate(left), Evaluate(right))
  }

  function Summands(t: Summation): seq<uint64> {
    match t
    case Nothing => []
    case Adding(before, x) => Summands(before) + [x]
    case Joining(left, right) => Summands(left) + Summands(right)
  }

  /** sum is what some arrangement of these values adds up to. */
  ghost predicate IsSumOf(sum: uint64, xs: seq<uint64>) {
    exists t :: multiset(Summands(t)) == multiset(xs) && Evaluate(t) == sum
  }

  lemma SumOfNothing()
    ensures IsSumOf(0, [])
  {
    assert Summands(Nothing) == [] && Evaluate(Nothing) == 0;
  }

  lemma SumPlusOne(sum: uint64, xs: seq<uint64>, x: uint64)
    requires IsSumOf(sum, xs)
    ensures IsSumOf(Plus(sum, x), xs + [x])
  {
    hide Plus;
    var t :| multiset(Summands(t)) == multiset(xs) && Evaluate(t) == sum;
    assert Summands(Adding(t, x)) == Summands(t) + [x] && Evaluate(Adding(t, x)) == Plus(sum, x);
  }

  lemma SumOfBoth(a: uint64, b: uint64, xs: seq<uint64>, ys: seq<uint64>)
    requires IsSumOf(a, xs) && IsSumOf(b, ys)
    ensures IsSumOf(Plus(a, b), xs + ys)
  {
    hide Plus;
    var t :| multiset(Summands(t)) == multiset(xs) && Evaluate(t) == a;
    var u :| multiset(Summands(u)) == multiset(ys) && Evaluate(u) == b;
    assert Summands(Joining(t, u)) == Summands(t) + Summands(u) && Evaluate(Joining(t, u)) == Plus(a, b);
  }

  lemma SumInAnyOrder(sum: uint64, xs: seq<uint64>, ys: seq<uint64>)
    requires IsSumOf(sum, xs) && multiset(xs) == multiset(ys)
    ensures IsSumOf(sum, ys)
  {
    var t :| multiset(Summands(t)) == multiset(xs) && Evaluate(t) == sum;
    assert multiset(Summands(t)) == multiset(ys);
  }

  // ---------- rounding makes the order matter ----------

  /** Next to 2^53 units one unit is lost, and two are not. */
  lemma OneUnitIsLost()
    ensures Round(TWO_TO_THE_53, 1) == TWO_TO_THE_53
    ensures Round(TWO_TO_THE_53 + 1, 1) == TWO_TO_THE_53 && Round(TWO_TO_THE_53 + 2, 1) == TWO_TO_THE_53 + 1
  {
    assert HalfEven(TWO_TO_THE_53, 2) == TWO_TO_THE_52;
    assert HalfEven(TWO_TO_THE_53 + 1, 2) == TWO_TO_THE_52 && HalfEven(TWO_TO_THE_53 + 2, 2) == TWO_TO_THE_52 + 1;
    assert Round(TWO_TO_THE_53 + 1, 2) == TWO_TO_THE_52 && Round(TWO_TO_THE_53 + 2, 2) == TWO_TO_THE_52 + 1;
  }

  /** Numbers that are far enough apart for one of the small ones to be lost next to the big one. */
  lemma FarApart(k: nat) returns (big: uint64, one: uint64, two: uint64)
    requires k < 2045
    ensures IsFinite(big) && IsFinite(one) && Units(big) == TWO_TO_THE_53 * Pow2(k) && Units(one) == Pow2(k)
    ensures Plus(0, big) == big && Plus(0, one) == one && Plus(one, one) == two
    ensures Plus(big, one) == big && Plus(big, two) == big + 1
  {
    hide Round, Magnitude, Pow2;
    PowPositive(k);
    ZeroMagnitude(0);
    var p := GridPattern(TWO_TO_THE_53, k);
    var q := GridPattern(1, k);
    var r := GridPattern(2, k);
    big, one, two := p, q, r;
    OneUnitIsLost();
    RoundScales(TWO_TO_THE_53, k);
    RoundScales(TWO_TO_THE_53 + 1, k);
    RoundScales(TWO_TO_THE_53 + 2, k);
    RoundIsExact(p, 1);
    RoundIsExact(q, 1);
    RoundIsExact(r, 1);
    var w := Pow2(k);
    assert (TWO_TO_THE_53 + 1) * w == TWO_TO_THE_53 * w + w && (TWO_TO_THE_53 + 2) * w == TWO_TO_THE_53 * w + 2 * w;
  }

  /** Three numbers whose sum depends on the order of additions, at any scale. */
  lemma OrderMatters(k: nat) returns (big: uint64, one: uint64)
    requires k < 2045
    ensures IsFinite(big) && IsFinite(one) && Units(big) == TWO_TO_THE_53 * Pow2(k) && Units(one) == Pow2(k)
    ensures IsSumOf(big, [big, one, one]) && big + 1 < TWO_TO_THE_64 && IsSumOf(big + 1, [big, one, one])
  {
    hide Plus, IsSumOf, Units;
    var two;
    big, one, two := FarApart(k);
    assert [] + [big] == [big] && [] + [one] == [one] && [one] + [one] == [one, one];
    assert [big] + [one] == [big, one] && [big, one] + [one] == [big] + [one, one] == [big, one, one];
    SumOfNothing();
    SumPlusOne(0, [], big);
    SumPlusOne(big, [big], one);
    SumPlusOne(big, [big, one], one);
    SumPlusOne(0, [], one);
    SumPlusOne(one, [one], one);
    SumOfBoth(big, two, [big], [one, one]);
  }

  // ---------- exact sums ----------

  function SumUnits(xs: seq<uint64>): int {
    if xs == [] then 0 else SumUnits(xs[..|xs| - 1]) + Units(xs[|xs| - 1])
  }

  /** The sum of the magnitudes. */
  function Bulk(xs: seq<uint64>): nat {
    if xs == [] then 0 else Bulk(xs[..|xs| - 1]) + Magnitude(Payload(xs[|xs| - 1]))
  }

  predicate OnGrid(x: uint64, g: nat)
    requires g > 0
  {
    IsFinite(x) && Units(x) % g == 0
  }

  /** All values are multiples of 2^k units. */
  predicate AllOnGrid(xs: seq<uint64>, k: nat) {
    PowPositive(k);
    forall x :: x in xs ==> OnGrid(x, Pow2(k))
  }

  /** All values are multiples of a power of two, and their magnitudes add up to at most 2^53 times
      that: no partial sum needs rounding. */
  ghost predicate AddsExactly(xs: seq<uint64>) {
    exists k: nat :: k < 2045 && AllOnGrid(xs, k) && Bulk(xs) <= TWO_TO_THE_53 * Pow2(k)
  }

  lemma {:induction false} UnitsConcat(xs: seq<uint64>, ys: seq<uint64>)
    ensures SumUnits(xs + ys) == SumUnits(xs) + SumUnits(ys)
    ensures Bulk(xs + ys) == Bulk(xs) + Bulk(ys)
  {
    hide Units, Magnitude;
    if ys == [] {
      assert xs + ys == xs;
    } else {
      UnitsConcat(xs, ys[..|ys| - 1]);
      assert (xs + ys)[..|xs + ys| - 1] == xs + ys[..|ys| - 1];
    }
  }

  lemma {:induction false} UnitsInAnyOrder(xs: seq<uint64>, ys: seq<uint64>)
    requires multiset(xs) == multiset(ys)
    ensures SumUnits(xs) == SumUnits(ys) && Bulk(xs) == Bulk(ys)
  {
    hide Units, Magnitude;
    if xs == [] {
      assert |multiset(ys)| == 0;
    } else {
      var front, last := xs[..|xs| - 1], xs[|xs| - 1];
      SplitLast(xs);
      var before, after := TakeOut(last, multiset(front), ys);
      UnitsInAnyOrder(front, before + after);
      UnitsConcat(before, after);
      UnitsConcat(before + [last], after);
      UnitsConcat(before, [last]);
      assert [last][..0] == [];
      assert SumUnits([last]) == Units(last) && Bulk([last]) == Magnitude(Payload(last));
    }
  }

  lemma MultipleOf(g: nat, m: int)
    requires g > 0
    ensures (g * m) % g == 0
  {
    var q, r := (g * m) / g, (g * m) % g;
    assert g * m == g * q + r;
    if q < m {
      GapOfInts(g, q, m);
    } else if m < q {
      GapOfInts(g, m, q);
    }
  }

  lemma GapOfInts(g: nat, a: int, b: int)
    requires a < b
    ensures g * a + g <= g * b
  {
    Product(g, b - a - 1);
    assert g * b == g * (a + 1 + (b - a - 1)) == g * a + g + g * (b - a - 1);
  }

  lemma MultiplesAdd(a: int, b: int, g: nat)
    requires g > 0 && a % g == 0 && b % g == 0
    ensures (a + b) % g == 0
  {
    SumOfMultiples(a, b, g, a / g, b / g);
  }

  lemma SumOfMultiples(a: int, b: int, g: nat, p: int, q: int)
    requires g > 0 && a == g * p && b == g * q
    ensures (a + b) % g == 0
  {
    MultipleOf(g, p + q);
    assert a + b == g * (p + q);
  }

  lemma {:induction false} SumStaysOnGrid(xs: seq<uint64>, g: nat)
    requires g > 0 && forall x :: x in xs ==> OnGrid(x, g)
    ensures SumUnits(xs) % g == 0 && Distance(SumUnits(xs), 0) <= Bulk(xs)
  {
    hide Magnitude;
    if xs != [] {
      var front, last := xs[..|xs| - 1], xs[|xs| - 1];
      SumStaysOnGrid(front, g);
      assert OnGrid(last, g);
      MultiplesAdd(SumUnits(front), Units(last), g);
    }
  }

  lemma FactorOf(s: int, g: nat, q: int) returns (m: nat)
    requires g > 0 && s == g * q && Distance(s, 0) <= TWO_TO_THE_53 * g
    ensures m * g == Distance(s, 0) && m <= TWO_TO_THE_53
  {
    m := Distance(q, 0);
    assert m * g == if q < 0 then 0 - g * q else g * q;
    if m > TWO_TO_THE_53 {
      Gap(TWO_TO_THE_53, m, g);
    }
  }

  lemma GridSumHasPattern(s: int, k: nat) returns (p: nat)
    requires k < 2045 && Pow2(k) > 0 && s % Pow2(k) == 0 && Distance(s, 0) <= TWO_TO_THE_53 * Pow2(k)
    ensures Magnitude(p) == Distance(s, 0) && p < POS_INF
  {
    hide Pow2, Magnitude;
    var m := FactorOf(s, Pow2(k), s / Pow2(k));
    p := GridPattern(m, k);
  }

  lemma ZeroUnits()
    ensures Units(0) == 0
  {
    ZeroMagnitude(0);
  }

  // ---------- sums of all arrangements ----------

  /** One step beyond 2^53 of them, and only there, a sum is rounded. */
  function Clamped(s: int, g: nat): int {
    if s == (TWO_TO_THE_53 + 1) * g then TWO_TO_THE_53 * g
    else if s == 0 - (TWO_TO_THE_53 + 1) * g then 0 - TWO_TO_THE_53 * g
    else s
  }

  /** A finite pattern other than the negative zero, of this value. */
  predicate Stands(r: uint64, u: int) { IsFinite(r) && r != NEG_ZERO && Units(r) == u }

  /** One step beyond the limit there is no pattern. */
  lemma NoPatternBeyond(p: nat, k: nat)
    requires k < 2045
    ensures Magnitude(p) != (TWO_TO_THE_53 + 1) * Pow2(k)
    ensures Round((TWO_TO_THE_53 + 1) * Pow2(k), 1) == Round(TWO_TO_THE_53 * Pow2(k), 1)
  {
    OneUnitIsLost();
    hide Magnitude, Round, Pow2;
    PowPositive(k);
    RoundScales(TWO_TO_THE_53 + 1, k);
    RoundScales(TWO_TO_THE_53, k);
    var q := GridPattern(TWO_TO_THE_53, k);
    RoundIsExact(q, 1);
    if Magnitude(p) == (TWO_TO_THE_53 + 1) * Pow2(k) {
      RoundIsExact(p, 1);
      StepsDiffer(Pow2(k));
    }
  }

  lemma StepsDiffer(g: nat)
    requires g > 0
    ensures (TWO_TO_THE_53 + 1) * g == TWO_TO_THE_53 * g + g
  {
  }

  /** A sum of exactly one step beyond the limit loses it. */
  lemma PlusBeyond(x: uint64, y: uint64, k: nat)
    requires k < 2045 && IsFinite(x) && IsFinite(y)
    requires Distance(Units(x) + Units(y), 0) == (TWO_TO_THE_53 + 1) * Pow2(k)
    ensures Stands(Plus(x, y), Clamped(Units(x) + Units(y), Pow2(k)))
  {
    hide Magnitude, Round, Pow2;
    PowPositive(k);
    StepsDiffer(Pow2(k));
    NoPatternBeyond(0, k);
    var q := GridPattern(TWO_TO_THE_53, k);
    RoundIsExact(q, 1);
    SignedMeaning(Units(x) + Units(y) < 0, q);
    ZeroMagnitude(q);
  }

  lemma PlusWithin(x: uint64, y: uint64, k: nat)
    requires k < 2045 && IsFinite(x) && IsFinite(y) && x != NEG_ZERO && Pow2(k) > 0
    requires (Units(x) + Units(y)) % Pow2(k) == 0 && Distance(Units(x) + Units(y), 0) <= TWO_TO_THE_53 * Pow2(k)
    ensures Stands(Plus(x, y), Units(x) + Units(y))
  {
    hide Plus, Units, Magnitude, Pow2;
    var p := GridSumHasPattern(Units(x) + Units(y), k);
    PlusIsExact(x, y, p);
  }

  /** Adding up two parts of a column within the limit but for one step. */
  lemma ClampedSums(a: uint64, b: uint64, xs: seq<uint64>, ys: seq<uint64>, k: nat)
    requires k < 2045 && AllOnGrid(xs + ys, k) && Bulk(xs + ys) <= (TWO_TO_THE_53 + 1) * Pow2(k)
    requires Stands(a, Clamped(SumUnits(xs), Pow2(k)))
    requires IsFinite(b) && Units(b) == Clamped(SumUnits(ys), Pow2(k))
    ensures Stands(Plus(a, b), Clamped(SumUnits(xs + ys), Pow2(k)))
  {
    hide Plus, Units, Magnitude, OnGrid, Pow2, SumUnits, Bulk;
    var g := Pow2(k);
    PowPositive(k);
    UnitsConcat(xs, ys);
    GridParts(xs, ys, k);
    SumStaysOnGrid(xs, g);
    SumStaysOnGrid(ys, g);
    ClampedPlus(a, b, SumUnits(xs), SumUnits(ys), k);
  }

  lemma ClampedPlus(a: uint64, b: uint64, s: int, t: int, k: nat)
    requires k < 2045 && Pow2(k) > 0 && s % Pow2(k) == 0 && t % Pow2(k) == 0
    requires Distance(s, 0) + Distance(t, 0) <= (TWO_TO_THE_53 + 1) * Pow2(k)
    requires Stands(a, Clamped(s, Pow2(k))) && IsFinite(b) && Units(b) == Clamped(t, Pow2(k))
    ensures Stands(Plus(a, b), Clamped(s + t, Pow2(k)))
  {
    hide Plus, Units, Magnitude, Pow2;
    var g := Pow2(k);
    StepsDiffer(g);
    MultiplesOfStep(g);
    MultiplesAdd(s, t, g);
    OneStepOver(s, g);
    OneStepOver(t, g);
    OneStepOver(s + t, g);
    if Distance(s, 0) <= TWO_TO_THE_53 * g && Distance(t, 0) <= TWO_TO_THE_53 * g
       && Distance(s + t, 0) > TWO_TO_THE_53 * g {
      PlusBeyond(a, b, k);
    } else {
      PlusWithin(a, b, k);
    }
  }

  lemma GridParts(xs: seq<uint64>, ys: seq<uint64>, k: nat)
    requires AllOnGrid(xs + ys, k)
    ensures AllOnGrid(xs, k) && AllOnGrid(ys, k)
  {
    hide OnGrid, Pow2;
    PowPositive(k);
    assert forall x :: x in xs || x in ys ==> x in xs + ys;
  }

  lemma MultiplesOfStep(g: nat)
    requires g > 0
    ensures (TWO_TO_THE_53 * g) % g == 0 && (0 - TWO_TO_THE_53 * g) % g == 0
  {
    MultipleOf(g, TWO_TO_THE_53);
    MultipleOf(g, 0 - TWO_TO_THE_53);
  }

  /** A multiple between the limit and one step beyond it is one of the two. */
  lemma OneStepOver(s: int, g: nat)
    requires g > 0 && s % g == 0 && Distance(s, 0) <= (TWO_TO_THE_53 + 1) * g
    ensures Distance(s, 0) <= TWO_TO_THE_53 * g || Distance(s, 0) == (TWO_TO_THE_53 + 1) * g
  {
    StepOver(s, g, s / g);
  }

  lemma StepOver(s: int, g: nat, q: int)
    requires g > 0 && s == g * q && Distance(s, 0) <= (TWO_TO_THE_53 + 1) * g
    ensures Distance(s, 0) <= TWO_TO_THE_53 * g || Distance(s, 0) == (TWO_TO_THE_53 + 1) * g
  {
    var m := Distance(q, 0);
    assert m * g == if q < 0 then 0 - g * q else g * q;
    if m > TWO_TO_THE_53 + 1 {
      Gap(TWO_TO_THE_53 + 1, m, g);
    } else if m < TWO_TO_THE_53 {
      Gap(m, TWO_TO_THE_53, g);
    }
  }

  lemma {:induction false} EvaluatesClamped(t: Summation, k: nat)
    requires k < 2045 && AllOnGrid(Summands(t), k) && Bulk(Summands(t)) <= (TWO_TO_THE_53 + 1) * Pow2(k)
    ensures Stands(Evaluate(t), Clamped(SumUnits(Summands(t)), Pow2(k)))
  {
    hide Plus, Units, Magnitude, OnGrid, Pow2, Clamped, AllOnGrid;
    match t {
      case Nothing =>
        ZeroUnits();
        ClampedZero(k);
      case Adding(before, x) =>
        var xs := Summands(before);
        GridParts(xs, [x], k);
        UnitsConcat(xs, [x]);
        EvaluatesClamped(before, k);
        LoneClamped(x, k);
        ClampedSums(Evaluate(before), x, xs, [x], k);
      case Joining(left, right) =>
        GridParts(Summands(left), Summands(right), k);
        UnitsConcat(Summands(left), Summands(right));
        EvaluatesClamped(left, k);
        EvaluatesClamped(right, k);
        ClampedSums(Evaluate(left), Evaluate(right), Summands(left), Summands(right), k);
    }
  }

  lemma ClampedZero(k: nat)
    ensures Clamped(0, Pow2(k)) == 0
  {
    hide Pow2;
    PowPositive(k);
    StepsDiffer(Pow2(k));
  }

  lemma LoneClamped(x: uint64, k: nat)
    requires k < 2045 && AllOnGrid([x], k)
    ensures IsFinite(x) && SumUnits([x]) == Units(x) == Clamped(SumUnits([x]), Pow2(k))
  {
    hide Magnitude, Pow2, OnGrid, Round;
    PowPositive(k);
    NoPatternBeyond(Payload(x), k);
    assert [x][..0] == [] && [x][0] in [x];
    assert OnGrid(x, Pow2(k));
    GridIsFinite(x, Pow2(k));
  }

  lemma GridIsFinite(x: uint64, g: nat)
    requires g > 0 && OnGrid(x, g)
    ensures IsFinite(x)
  {
  }

  /** Columns on a grid whose magnitudes add up to at most b steps of it have one sum each. */
  ghost predicate OneSumUpTo(k: nat, b: nat) {
    forall xs, x, y :: AllOnGrid(xs, k) && Bulk(xs) <= b * Pow2(k) && IsSumOf(x, xs) && IsSumOf(y, xs) ==> x == y
  }

  lemma OneClampedSum(x: uint64, y: uint64, xs: seq<uint64>, k: nat)
    requires k < 2045 && AllOnGrid(xs, k) && Bulk(xs) <= (TWO_TO_THE_53 + 1) * Pow2(k)
    requires IsSumOf(x, xs) && IsSumOf(y, xs)
    ensures x == y && Stands(x, Clamped(SumUnits(xs), Pow2(k)))
  {
    hide Evaluate, Summands, SumUnits, Bulk, Units, AllOnGrid, Pow2, Clamped;
    var t :| multiset(Summands(t)) == multiset(xs) && Evaluate(t) == x;
    var u :| multiset(Summands(u)) == multiset(xs) && Evaluate(u) == y;
    UnitsInAnyOrder(xs, Summands(t));
    UnitsInAnyOrder(xs, Summands(u));
    GridInAnyOrder(xs, Summands(t), k);
    GridInAnyOrder(xs, Summands(u), k);
    EvaluatesClamped(t, k);
    EvaluatesClamped(u, k);
    SameUnits(x, y);
  }

  lemma GridInAnyOrder(xs: seq<uint64>, ys: seq<uint64>, k: nat)
    requires multiset(xs) == multiset(ys) && AllOnGrid(xs, k)
    ensures AllOnGrid(ys, k)
  {
    hide OnGrid, Pow2;
    PowPositive(k);
    forall y | y in ys
      ensures OnGrid(y, Pow2(k))
    {
      assert y in multiset(ys);
      assert y in multiset(xs);
      assert y in xs;
    }
  }

  /** Where sums are exact, all arrangements of some values add up to the same pattern, the one
      of the exact sum. */
  lemma ExactSumsAgree(a: uint64, b: uint64, xs: seq<uint64>)
    requires IsSumOf(a, xs) && IsSumOf(b, xs) && AddsExactly(xs)
    ensures a == b && IsFinite(a) && Units(a) == SumUnits(xs)
  {
    hide SumUnits, Units, Bulk, OnGrid, Pow2, IsSumOf;
    var k: nat :| k < 2045 && AllOnGrid(xs, k) && Bulk(xs) <= TWO_TO_THE_53 * Pow2(k);
    PowPositive(k);
    StepsDiffer(Pow2(k));
    SumStaysOnGrid(xs, Pow2(k));
    OneClampedSum(a, b, xs, k);
  }

  lemma ProductMonotone(a: nat, b: nat, w: nat)
    requires a <= b
    ensures a * w <= b * w
  {
    if a < b {
      Gap(a, b, w);
    }
  }

  lemma BulkOfThree(big: uint64, one: uint64, k: nat)
    requires IsFinite(big) && IsFinite(one) && Units(big) == TWO_TO_THE_53 * Pow2(k) && Units(one) == Pow2(k)
    ensures Bulk([big, one, one]) == (TWO_TO_THE_53 + 2) * Pow2(k) && Pow2(k) > 0
    ensures AllOnGrid([big, one, one], k)
  {
    hide Pow2, Magnitude;
    PowPositive(k);
    var xs := [big, one, one];
    assert xs[..2] == [big, one] && [big, one][..1] == [big] && [big][..0] == [];
    assert Bulk([big]) == Magnitude(Payload(big));
    assert Bulk([big, one]) == Bulk([big]) + Magnitude(Payload(one));
    ZeroMagnitude(Payload(big));
    ZeroMagnitude(Payload(one));
    MultipleOf(Pow2(k), TWO_TO_THE_53);
    MultipleOf(Pow2(k), 1);
  }

  /** 2^53 + 1 steps are the limit: exactly up to it the order of additions never matters. */
  lemma LimitOfExactness(k: nat, b: nat)
    requires k < 2045
    ensures OneSumUpTo(k, b) <==> b <= TWO_TO_THE_53 + 1
  {
    hide Pow2, AllOnGrid, Bulk, IsSumOf;
    PowPositive(k);
    if b <= TWO_TO_THE_53 + 1 {
      forall xs, x, y | AllOnGrid(xs, k) && Bulk(xs) <= b * Pow2(k) && IsSumOf(x, xs) && IsSumOf(y, xs)
        ensures x == y
      {
        ProductMonotone(b, TWO_TO_THE_53 + 1, Pow2(k));
        OneClampedSum(x, y, xs, k);
      }
    } else {
      ProductMonotone(TWO_TO_THE_53 + 2, b, Pow2(k));
      var big, one := OrderMatters(k);
      BulkOfThree(big, one, k);
      assert IsSumOf(big, [big, one, one]) && IsSumOf(big + 1, [big, one, one]);
    }
  }
}
