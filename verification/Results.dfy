/** The report of an aggregation: every group once, in the order of its keys. */
module Results {
  import opened Words
  import opened Rounding
  import opened Averages
  import opened Values
  import opened Sequences
  import D = Digests
  import opened Accumulators
  import opened Groups
  import opened Representations
  import opened GroupAccums
  import opened GroupTables
  import opened States
  import opened Aggregators
  import opened Outputs
  import opened KeyOrders

  // ---------- the listing ----------

  ghost predicate KeyAmong(groups: seq<GroupResult>, k: Key) {
    exists i :: 0 <= i < |groups| && groups[i].key == k
  }

  /** Every group of the map exactly once. */
  ghost predicate Lists(s: Shape, groups: seq<GroupResult>, m: GroupMap)
    requires s.Valid() && AllFit(s, m)
  {
    && (forall i :: 0 <= i < |groups| ==>
          groups[i].key in m && groups[i] == ToResult(s, groups[i].key, m[groups[i].key]))
    && (forall i, j :: 0 <= i < j < |groups| ==> groups[i].key != groups[j].key)
    && (forall k :: k in m ==> KeyAmong(groups, k))
  }

  function KeyOrder(types: seq<ColumnType>): (GroupResult, GroupResult) -> bool {
    (x: GroupResult, y: GroupResult) => |x.key| == |y.key| == |types| && CompareFrom(x.key, y.key, types, 0) <= 0
  }

  /** The groups of the map in the order of their keys. */
  ghost predicate IsReport(s: Shape, groups: seq<GroupResult>, m: GroupMap)
    requires s.Valid() && AllFit(s, m)
  {
    Lists(s, groups, m) && SortedBy(KeyOrder(s.groupByTypes), groups)
  }

  /** Every group is below those after it, or sorts as equal to them. */
  ghost predicate Ascends(groups: seq<GroupResult>) {
    forall i, j :: 0 <= i < j < |groups| ==>
      KeyBelow(groups[i].key, groups[j].key) || KeysAlike(groups[i].key, groups[j].key)
  }

  /** A listing is a report exactly when its keys ascend. */
  lemma ReportAscends(s: Shape, groups: seq<GroupResult>, m: GroupMap)
    requires s.Valid() && AllFit(s, m) && KeysTyped(s, m) && Lists(s, groups, m)
    ensures IsReport(s, groups, m) <==> Ascends(groups)
  {
    hide CompareFrom, KeyBelow, KeysAlike, AllFit, KeyTyped, ToResult;
    forall i, j | 0 <= i < j < |groups|
      ensures KeyOrder(s.groupByTypes)(groups[i], groups[j])
              <==> KeyBelow(groups[i].key, groups[j].key) || KeysAlike(groups[i].key, groups[j].key)
    {
      assert KeyTyped(s, groups[i].key) && KeyTyped(s, groups[j].key);
      CompareMeaning(s, groups[i].key, groups[j].key);
      KeysTieWhole(s, groups[i].key, groups[j].key);
    }
  }

  lemma KeyOrderIsPreorder(s: Shape, groups: seq<GroupResult>)
    requires forall x :: x in groups ==> |x.key| == |s.groupByTypes|
    ensures IsTotalPreorder(KeyOrder(s.groupByTypes), groups)
  {
    hide CompareFrom;
    forall x, y, z | x in groups && y in groups && z in groups
      ensures Orderly(CompareFrom(x.key, y.key, s.groupByTypes, 0), CompareFrom(y.key, x.key, s.groupByTypes, 0),
                      CompareFrom(y.key, z.key, s.groupByTypes, 0), CompareFrom(x.key, z.key, s.groupByTypes, 0))
    {
      KeysOrderly(x.key, y.key, z.key, s.groupByTypes, 0);
    }
  }

  lemma ListsNothing(s: Shape)
    requires s.Valid()
    ensures AllFit(s, map[]) && Lists(s, [], map[])
  {
  }

  lemma ListsExtend(s: Shape, groups: seq<GroupResult>, m: GroupMap, key: Key, g: Group)
    requires s.Valid() && AllFit(s, m) && Fits(s, g) && Lists(s, groups, m) && key !in m
    ensures AllFit(s, m[key := g]) && Lists(s, groups + [ToResult(s, key, g)], m[key := g])
  {
    hide MeasureResults, Fits;
    var all := groups + [ToResult(s, key, g)];
    forall k | k in m[key := g]
      ensures KeyAmong(all, k)
    {
      if k == key {
        assert all[|groups|].key == k;
      } else {
        var i :| 0 <= i < |groups| && groups[i].key == k;
        assert all[i].key == k;
      }
    }
  }

  /** Rearranging a listing leaves it a listing. */
  lemma ListsPermuted(s: Shape, groups: seq<GroupResult>, sorted: seq<GroupResult>, m: GroupMap)
    requires s.Valid() && AllFit(s, m) && Lists(s, groups, m) && multiset(sorted) == multiset(groups)
    ensures Lists(s, sorted, m)
  {
    hide ToResult, Fits;
    forall x | x in sorted
      ensures x in groups && x.key in m && x == ToResult(s, x.key, m[x.key])
    {
      assert x in multiset(sorted);
      assert x in groups;
    }
    KeysStayDistinct(groups, sorted);
    forall k | k in m
      ensures KeyAmong(sorted, k)
    {
      assert KeyAmong(groups, k);
      var i :| 0 <= i < |groups| && groups[i].key == k;
      assert groups[i] in multiset(groups);
      assert groups[i] in multiset(sorted);
      var j :| 0 <= j < |sorted| && sorted[j] == groups[i];
    }
  }

  lemma KeysStayDistinct(groups: seq<GroupResult>, sorted: seq<GroupResult>)
    requires forall i, j :: 0 <= i < j < |groups| ==> groups[i].key != groups[j].key
    requires multiset(sorted) == multiset(groups)
    ensures forall i, j :: 0 <= i < j < |sorted| ==> sorted[i].key != sorted[j].key
  {
    forall i, j | 0 <= i < j < |sorted|
      ensures sorted[i].key != sorted[j].key
    {
      var x, y := sorted[i], sorted[j];
      assert x in multiset(groups) && y in multiset(groups);
      assert x in groups && y in groups;
      if x.key == y.key {
        assert x == y;
        TwiceInSequence(sorted, i, j);
        OnceInSequence(groups, x);
      }
    }
  }

  lemma TwiceInSequence<T>(xs: seq<T>, i: nat, j: nat)
    requires i < j < |xs| && xs[i] == xs[j]
    ensures multiset(xs)[xs[i]] >= 2
  {
    var front, back := xs[..j], xs[j..];
    assert xs == front + back;
    assert xs[i] == front[i] && xs[i] in multiset(front);
    assert xs[j] == back[0] && xs[j] in multiset(back);
  }

  lemma OnceInSequence<T>(xs: seq<T>, x: T)
    requires forall i, j :: 0 <= i < j < |xs| ==> xs[i] != xs[j]
    ensures multiset(xs)[x] <= 1
  {
    if x in xs {
      var i :| 0 <= i < |xs| && xs[i] == x;
      assert xs == xs[..i] + [x] + xs[i + 1..];
      assert x !in xs[..i] && x !in xs[i + 1..];
      assert multiset(xs) == multiset(xs[..i]) + multiset{x} + multiset(xs[i + 1..]);
    }
  }

  // ---------- making the report ----------

  /** One value; a percentile makes the digest flush. */
  method ReportFunc(m: MeasureAccum, count: int64, fn: AggFunc, tools: Tools) returns (o: Output)
    requires m.Sized() && (fn == Distinct ==> m.distinct != null) && (fn.Percentile? ==> m.digest != null)
    modifies m.Parts()
    ensures m.Val() == if fn.Percentile? then Settled(old(m.Val()), tools) else old(m.Val())
    ensures o == OutputOf(old(m.Val()), count, fn, tools)
  {
    hide D.Flushed, D.Estimate, QuantileFor, IntMean, Divide, FromInt;
    match fn {
      case Sum => o := if m.typ == TypeInt64 then Whole(m.numbers.sumI64) else FloatSum(m.numbers.sumF64);
      case Min => o := if m.typ == TypeInt64 then Whole(m.numbers.minI64) else Bits(m.numbers.minF64);
      case Max => o := if m.typ == TypeInt64 then Whole(m.numbers.maxI64) else Bits(m.numbers.maxF64);
      case Avg =>
        o := if m.typ == TypeInt64 then Bits(IntMean(m.numbers.sumI64, count))
             else FloatAverage(Divide(m.numbers.sumF64, FromInt(count)));
      case Distinct => o := DistinctEstimate(m.distinct.registers[..]);
      case Percentile(q) =>
        if m.digest.unbounded || QuantileFor(q).Infinite? {
          m.digest.FlushPending(tools.digester);
          o := NotModelled;
        } else {
          var x := m.digest.Quantile(tools.digester, QuantileFor(q));
          o := Estimated(x);
        }
    }
  }

  /** Every function of one measure. */
  method ReportMeasure(m: MeasureAccum, count: int64, ms: MeasureSpec, tools: Tools) returns (r: seq<MeasureResult>)
    requires m.Sized() && Answerable(m.Val(), ms.funcs) && (m.digest != null <==> WantsPercentile(ms))
    modifies m.Parts()
    ensures m.Val() == Settled(old(m.Val()), tools) && Answerable(old(m.Val()), ms.funcs)
    ensures r == ResultsOf(old(m.Val()), count, ms, tools)
  {
    hide OutputOf, Settled;
    ghost var v := m.Val();
    r := [];
    for j := 0 to |ms.funcs|
      invariant r == ResultsOf(v, count, ms, tools)[..j]
      invariant m.Val() == v || m.Val() == Settled(v, tools)
      invariant (exists k :: 0 <= k < j && ms.funcs[k].Percentile?) ==> m.Val() == Settled(v, tools)
    {
      SettledOutput(v, count, ms.funcs[j], tools);
      var o := ReportFunc(m, count, ms.funcs[j], tools);
      r := r + [MeasureResult(ms.column, ms.funcs[j], o)];
    }
    NothingToSettle(v, tools);
  }

  lemma NothingToSettle(m: Measure, tools: Tools)
    ensures m.digest.None? ==> Settled(m, tools) == m
  {
  }

  /** Every function of one measure of a group; the others stay as they are. */
  method ReportAt(ms: seq<MeasureAccum>, i: nat, count: int64, spec: MeasureSpec, tools: Tools)
    returns (r: seq<MeasureResult>)
    requires Apart(ms) && i < |ms| && Answerable(ms[i].Val(), spec.funcs)
    requires (ms[i].digest != null <==> WantsPercentile(spec))
    modifies ms[i].Parts()
    ensures ms[i].Val() == Settled(old(ms[i].Val()), tools) && Answerable(old(ms[i].Val()), spec.funcs)
    ensures r == ResultsOf(old(ms[i].Val()), count, spec, tools)
    ensures forall j :: 0 <= j < |ms| && j != i ==> ms[j].Val() == old(ms[j].Val())
  {
    hide MeasureAccum.Val, Settled, ResultsOf, Answerable;
    assert forall j :: 0 <= j < |ms| && j != i ==> ms[j].Parts() !! ms[i].Parts();
    r := ReportMeasure(ms[i], count, spec, tools);
  }

  /** Every function of every measure of a group. */
  method ReportGroup(g: GroupAccum, s: Shape, ghost before: Group) returns (r: GroupResult)
    requires s.Valid() && g.Valid() && g.Val() == before && Fits(s, before)
    modifies g.Parts()
    ensures g.Valid() && g.Parts() == old(g.Parts()) && g.Val() == SettledGroup(before, s.tools)
    ensures r == ToResult(s, g.key, before)
  {
    hide MeasureAccum.Val, MeasureAccum.Parts, PartsOf, Apart, Vals, Settled, ResultsOf, Answerable, Fits, Shape.Valid;
    ghost var ms := g.measures;
    PartsIn(ms);
    GroupSizes(s, before);
    var results: seq<MeasureResult> := [];
    for i := 0 to |s.spec.measures|
      invariant results == MeasureResults(s, before, i)
      invariant forall j :: 0 <= j < i ==> ms[j].Val() == Settled(before.measures[j], s.tools)
      invariant forall j :: i <= j < |ms| ==> ms[j].Val() == before.measures[j]
    {
      FittingIsAnswerable(s, before, i);
      DigestWanted(s, before, ms[i], i);
      var more := ReportAt(g.measures, i, g.count, s.spec.measures[i], s.tools);
      results := results + more;
    }
    assert Vals(ms) == SettledGroup(before, s.tools).measures;
    return GroupResult(g.key, g.count, results);
  }

  lemma DigestWanted(s: Shape, g: Group, m: MeasureAccum, i: nat)
    requires s.Valid() && Fits(s, g) && i < |g.measures| && m.Val() == g.measures[i]
    ensures i < |s.spec.measures| && (m.digest != null <==> WantsPercentile(s.spec.measures[i]))
  {
    assert MeasureFits(s, g.measures[i], i);
  }

  /** Reports one of the groups held together. */
  method ReportOne(ghost stored: map<Key, GroupAccum>, g: GroupAccum, s: Shape, ghost m: GroupMap)
    returns (r: GroupResult)
    requires Tidy(stored) && AllVals(stored) == m && g.key in stored && stored[g.key] == g
    requires s.Valid() && Fits(s, m[g.key])
    modifies g.Parts()
    ensures Tidy(stored) && Foot(stored) == old(Foot(stored))
    ensures AllVals(stored) == m[g.key := SettledGroup(m[g.key], s.tools)]
    ensures r == ToResult(s, g.key, m[g.key])
  {
    hide Fits, Shape.Valid, GroupAccum.Val, GroupAccum.Valid, GroupAccum.Parts, SettledGroup, ToResult, Tidy, AllVals,
         AllParts, Foot;
    ghost var rest := stored - {g.key};
    assert stored == rest[g.key := g];
    TidySplits(rest, g.key, g);
    FootExists(rest);
    r := ReportGroup(g, s, m[g.key]);
    TidyExtends(rest, g.key, g);
  }

  /** The groups of a map, those in the first i slots settled. */
  ghost function SettledUpTo(s: Shape, t: Layout, o: GroupMap, i: nat): GroupMap {
    map k | k in o :: if k in Aggregator.Done(t, o, i) then SettledGroup(o[k], s.tools) else o[k]
  }

  lemma SettledUpToSteps(s: Shape, t: Layout, h: Key -> uint64, o: GroupMap, i: nat)
    requires t.Good(h) && o.Keys == t.stored.Keys && i < |t.slots| == |t.full|
    ensures !t.full[i] ==> SettledUpTo(s, t, o, i + 1) == SettledUpTo(s, t, o, i)
    ensures t.full[i] ==> t.slots[i] != null && t.slots[i].key in o
    ensures t.full[i] ==> SettledUpTo(s, t, o, i)[t.slots[i].key] == o[t.slots[i].key]
    ensures t.full[i] ==> SettledUpTo(s, t, o, i)[t.slots[i].key := SettledGroup(o[t.slots[i].key], s.tools)]
                          == SettledUpTo(s, t, o, i + 1)
  {
    hide Layout.Good, Aggregator.Done, SettledGroup;
    Aggregator.DoneSteps(t, h, o, i);
  }

  lemma SettledUpToEnds(s: Shape, t: Layout, h: Key -> uint64, o: GroupMap)
    requires t.Good(h) && o.Keys == t.stored.Keys
    ensures SettledUpTo(s, t, o, 0) == o && SettledUpTo(s, t, o, |t.slots|) == SettledMap(s, o)
  {
    hide Layout.Good, Aggregator.Done, SettledGroup;
    Aggregator.DoneEnds(t, h, o);
  }

  /** Reports one group of an aggregator. */
  method ReportSlot(agg: Aggregator, g: GroupAccum, ghost m: GroupMap) returns (r: GroupResult)
    requires agg.Valid() && agg.View() == m && AllFit(agg.shape, m)
    requires g.key in agg.table.stored && agg.table.stored[g.key] == g
    modifies g.Parts()
    ensures agg.Valid() && agg.Repr() == old(agg.Repr()) && agg.table.Arrays() == old(agg.table.Arrays())
    ensures agg.shape.Valid() && g.key in m && Fits(agg.shape, m[g.key]) && r == ToResult(agg.shape, g.key, m[g.key])
    ensures agg.View() == m[g.key := SettledGroup(m[g.key], agg.shape.tools)]
  {
    hide AllFit, GroupTable.Valid, Hasher.OfKey, ToResult, Shape.Valid, Fits, Tidy, Foot, AllVals, AllParts,
         SettledGroup, GroupAccum.Val, GroupAccum.Valid, GroupAccum.Parts;
    GroupAt(agg.table.stored, g.key);
    agg.FitsAt(m, g.key);
    r := ReportOne(agg.table.stored, g, agg.shape, m);
    SettledFits(agg.shape, m[g.key]);
    agg.FitsExtend(m, g.key, SettledGroup(m[g.key], agg.shape.tools));
  }

  /** Reports every group in slot order. */
  method ListGroups(agg: Aggregator, ghost o: GroupMap) returns (groups: seq<GroupResult>)
    requires agg.Valid() && agg.View() == o && AllFit(agg.shape, o) && agg.shape.Valid()
    modifies agg.Repr()
    ensures agg.Valid() && agg.Repr() == old(agg.Repr()) && agg.View() == SettledMap(agg.shape, o)
    ensures Lists(agg.shape, groups, o)
  {
    hide AllFit, GroupTable.Valid, Aggregator.Done, Layout.Good, Hasher.OfKey, ToResult, Lists, Shape.Valid, Fits, Tidy,
         Foot, AllParts, SettledUpTo, SettledMap, SettledGroup, GroupAccum.Val, GroupAccum.Valid, GroupAccum.Parts;
    ghost var t, h, s := agg.table.Arrays(), agg.table.hashOf, agg.shape;
    agg.table.ArraysAreGood();
    Aggregator.DoneEnds(t, h, o);
    SettledUpToEnds(s, t, h, o);
    groups := [];
    ListsNothing(s);
    hide Aggregator.Valid, Aggregator.View;
    for i := 0 to agg.table.slots.Length
      invariant agg.Valid() && agg.Repr() == old(agg.Repr()) && agg.table.Arrays() == t
      invariant agg.View() == SettledUpTo(s, t, o, i) && AllFit(s, SettledUpTo(s, t, o, i))
      invariant AllFit(s, Aggregator.Done(t, o, i)) && Lists(s, groups, Aggregator.Done(t, o, i))
    {
      Aggregator.DoneSteps(t, h, o, i);
      SettledUpToSteps(s, t, h, o, i);
      if agg.table.full[i] {
        var g := agg.table.slots[i];
        agg.FitsAt(o, g.key);
        PartsInRepr(agg, g);
        ListsExtend(s, groups, Aggregator.Done(t, o, i), g.key, o[g.key]);
        var r := ReportSlot(agg, g, SettledUpTo(s, t, o, i));
        agg.ViewFits();
        groups := groups + [r];
      }
    }
  }

  lemma PartsInRepr(agg: Aggregator, g: GroupAccum)
    requires agg.Valid() && g.key in agg.table.stored && agg.table.stored[g.key] == g
    ensures g.Parts() <= agg.Repr()
  {
    hide GroupTable.Valid, AllFit, Hasher.OfKey;
    GroupAt(agg.table.stored, g.key);
  }

  /** Sorts a listing by key. */
  method SortGroups(s: Shape, raw: seq<GroupResult>, ghost m: GroupMap) returns (groups: seq<GroupResult>)
    requires s.Valid() && AllFit(s, m) && KeysTyped(s, m) && Lists(s, raw, m)
    ensures IsReport(s, groups, m)
  {
    hide AllFit, Lists, Shape.Valid, KeysTyped, KeyOrder, SortedBy, IsTotalPreorder;
    ListedKeysAreSized(s, raw, m);
    KeyOrderIsPreorder(s, raw);
    groups := SortBy(KeyOrder(s.groupByTypes), raw);
    ListsPermuted(s, raw, groups, m);
  }

  /** Reports the groups in slot order and sorts them by key. Reporting flushes every digest. */
  method Report(agg: Aggregator) returns (groups: seq<GroupResult>)
    requires agg.Valid() && KeysTyped(agg.shape, agg.View())
    modifies agg.Repr()
    ensures agg.shape.Valid() && AllFit(agg.shape, old(agg.View())) && IsReport(agg.shape, groups, old(agg.View()))
    ensures agg.Valid() && agg.Repr() == old(agg.Repr()) && agg.View() == SettledMap(agg.shape, old(agg.View()))
  {
    hide AllFit, Lists, IsReport, Shape.Valid, SettledMap, KeysTyped, Aggregator.View, Aggregator.Valid, Tidy, AllParts;
    ghost var m := agg.View();
    agg.ViewFits();
    var raw := ListGroups(agg, m);
    FootExists(agg.table.stored);
    groups := SortGroups(agg.shape, raw, m);
  }

  lemma ListedKeysAreSized(s: Shape, groups: seq<GroupResult>, m: GroupMap)
    requires s.Valid() && AllFit(s, m) && KeysTyped(s, m) && Lists(s, groups, m)
    ensures forall x :: x in groups ==> |x.key| == |s.groupByTypes|
  {
    hide ToResult;
  }

  /** Reporting again gives the same: what a report lists is what it lists once the digests have
      been flushed. */
  lemma ReportAgain(s: Shape, groups: seq<GroupResult>, m: GroupMap)
    requires s.Valid() && AllFit(s, m)
    ensures AllFit(s, SettledMap(s, m)) && (IsReport(s, groups, SettledMap(s, m)) <==> IsReport(s, groups, m))
  {
    hide Fits, ToResult, SettledGroup, SortedBy, KeyOrder;
    SettledMapFits(s, m);
    forall k | k in m
      ensures ToResult(s, k, SettledMap(s, m)[k]) == ToResult(s, k, m[k])
    {
      SettledFits(s, m[k]);
      SameResult(s, k, m[k]);
    }
  }

  lemma SameResult(s: Shape, key: Key, g: Group)
    requires s.Valid() && Fits(s, g) && Fits(s, SettledGroup(g, s.tools))
    ensures ToResult(s, key, SettledGroup(g, s.tools)) == ToResult(s, key, g)
  {
    hide Fits, MeasureResults;
    SettledResults(s, g, |s.spec.measures|);
  }

  // ---------- when the report is unique ----------

  /** Two different groups whose keys sort as equal. */
  ghost predicate HasTie(m: GroupMap) {
    exists a, b :: a in m && b in m && a != b && KeysAlike(a, b)
  }

  lemma ListingsAreArrangements(s: Shape, p: seq<GroupResult>, q: seq<GroupResult>, m: GroupMap)
    requires s.Valid() && AllFit(s, m) && Lists(s, p, m) && Lists(s, q, m)
    ensures multiset(p) == multiset(q)
  {
    hide ToResult, Fits;
    forall x: GroupResult
      ensures multiset(p)[x] == multiset(q)[x]
    {
      OnceInSequence(p, x);
      OnceInSequence(q, x);
      SameMembers(s, p, q, m, x);
      SameMembers(s, q, p, m, x);
      assert x in p <==> x in multiset(p);
      assert x in q <==> x in multiset(q);
    }
  }

  lemma SameMembers(s: Shape, p: seq<GroupResult>, q: seq<GroupResult>, m: GroupMap, x: GroupResult)
    requires s.Valid() && AllFit(s, m) && Lists(s, p, m) && Lists(s, q, m)
    ensures x in p ==> x in q
  {
    hide ToResult, Fits;
    if x in p {
      assert KeyAmong(q, x.key);
      var j :| 0 <= j < |q| && q[j].key == x.key;
      assert q[j] == x;
    }
  }

  /** Two reports of the same groups are the same sequence, whatever the seeds, the insertion
      order and the layout of the tables they came from, if no two keys tie. */
  lemma ReportIsUnique(s: Shape, p: seq<GroupResult>, q: seq<GroupResult>, m: GroupMap)
    requires s.Valid() && AllFit(s, m) && KeysTyped(s, m) && !HasTie(m)
    requires IsReport(s, p, m) && IsReport(s, q, m)
    ensures p == q
  {
    hide ToResult, Fits, CompareFrom, KeysAlike, KeyTyped;
    ListingsAreArrangements(s, p, q, m);
    forall x, y | x in p && y in p && KeyOrder(s.groupByTypes)(x, y) && KeyOrder(s.groupByTypes)(y, x)
      ensures x == y
    {
      KeysOrderly(x.key, y.key, x.key, s.groupByTypes, 0);
      KeysTieWhole(s, x.key, y.key);
      assert !HasTie(m);
    }
    SortedIsUnique(KeyOrder(s.groupByTypes), p, q);
  }

  /** With a tie, every report has another one beside it. */
  lemma TieMakesAnotherReport(s: Shape, p: seq<GroupResult>, m: GroupMap) returns (q: seq<GroupResult>)
    requires s.Valid() && AllFit(s, m) && KeysTyped(s, m) && HasTie(m) && IsReport(s, p, m)
    ensures IsReport(s, q, m) && q != p
  {
    hide ToResult, Fits, CompareFrom, KeysAlike, KeyTyped, IsTotalPreorder;
    var a, b :| a in m && b in m && a != b && KeysAlike(a, b);
    assert KeyAmong(p, a) && KeyAmong(p, b);
    var i :| 0 <= i < |p| && p[i].key == a;
    var j :| 0 <= j < |p| && p[j].key == b;
    KeysTieWhole(s, a, b);
    KeysOrderly(a, b, a, s.groupByTypes, 0);
    ListedKeysAreSized(s, p, m);
    KeyOrderIsPreorder(s, p);
    q := p[i := p[j]][j := p[i]];
    SwapKeepsElements(p, i, j);
    ListsPermuted(s, p, q, m);
    SwapKeepsSorted(KeyOrder(s.groupByTypes), p, i, j);
  }

  lemma SwapKeepsElements<T>(p: seq<T>, i: nat, j: nat)
    requires i < |p| && j < |p|
    ensures multiset(p[i := p[j]][j := p[i]]) == multiset(p)
  {
  }

  lemma SwapKeepsSorted<T>(le: (T, T) -> bool, p: seq<T>, i: nat, j: nat)
    requires i < |p| && j < |p| && SortedBy(le, p) && IsTotalPreorder(le, p)
    requires le(p[i], p[j]) && le(p[j], p[i])
    ensures SortedBy(le, p[i := p[j]][j := p[i]])
  {
    var q := p[i := p[j]][j := p[i]];
    forall x, y | 0 <= x < y < |q|
      ensures le(q[x], q[y])
    {
      var x', y' := if x == i then j else if x == j then i else x, if y == i then j else if y == j then i else y;
      assert q[x] == p[x'] && q[y] == p[y'];
      assert le(p[x'], p[x]) && le(p[y], p[y']);
      assert le(p[x], p[y]);
      assert le(p[x'], p[y]);
    }
  }

  /** Grouping by strings and integers alone leaves no room for ties. */
  lemma NoTieWithoutFloats(s: Shape, m: GroupMap)
    requires s.Valid() && KeysTyped(s, m) && forall i :: 0 <= i < |s.groupByTypes| ==> s.groupByTypes[i] != TypeFloat64
    ensures !HasTie(m)
  {
    forall a, b | a in m && b in m && KeysAlike(a, b)
      ensures a == b
    {
      assert KeyTyped(s, a) && KeyTyped(s, b);
      assert forall i :: 0 <= i < |a| ==> Alike(a[i], b[i]) && a[i] == b[i];
    }
  }

  // ---------- what the rows say about the report ----------

  /** Two rows whose keys differ and sort as equal. */
  ghost predicate RowsTie(s: Shape, rows: seq<Row>)
    requires s.Valid() && RowsFit(s, rows)
  {
    exists i, j :: 0 <= i < |rows| && 0 <= j < |rows| && s.KeyOf(rows[i]) != s.KeyOf(rows[j])
      && KeysAlike(s.KeyOf(rows[i]), s.KeyOf(rows[j]))
  }

  lemma {:induction false} SomeRowHas(s: Shape, rows: seq<Row>, key: Key)
    requires s.Valid() && RowsFit(s, rows)
    ensures RowsWithKey(s, rows, key) != [] <==> exists i :: 0 <= i < |rows| && s.KeyOf(rows[i]) == key
  {
    hide Shape.KeyOf;
    if rows != [] {
      var n := |rows| - 1;
      SomeRowHas(s, rows[..n], key);
      if i :| 0 <= i < n && s.KeyOf(rows[i]) == key {
        assert s.KeyOf(rows[..n][i]) == key;
      }
    }
  }

  /** The groups tie exactly when two rows do: a caller can look for it beforehand. */
  lemma TieMeaning(s: Shape, m: GroupMap, rows: seq<Row>)
    requires s.Valid() && Represents(s, m, rows)
    ensures RowsFit(s, rows) && (HasTie(m) <==> RowsTie(s, rows))
  {
    hide Shape.KeyOf, KeysAlike, RowsWithKey, IsGroupOf, Fits;
    forall key
      ensures key in m <==> exists i :: 0 <= i < |rows| && s.KeyOf(rows[i]) == key
    {
      assert Accounts(s, m, rows, key);
      SomeRowHas(s, rows, key);
    }
    if HasTie(m) {
      var a, b :| a in m && b in m && a != b && KeysAlike(a, b);
      var i :| 0 <= i < |rows| && s.KeyOf(rows[i]) == a;
      var j :| 0 <= j < |rows| && s.KeyOf(rows[j]) == b;
    }
    if RowsTie(s, rows) {
      var i, j :| 0 <= i < |rows| && 0 <= j < |rows| && s.KeyOf(rows[i]) != s.KeyOf(rows[j])
        && KeysAlike(s.KeyOf(rows[i]), s.KeyOf(rows[j]));
      assert s.KeyOf(rows[i]) in m && s.KeyOf(rows[j]) in m;
    }
  }

  /** Grouping by one float column, the rows 0.0 and -0.0 tie. */
  lemma ZerosTie(s: Shape)
    requires s.Valid() && s.numColumns == 1 && s.groupByIdx == [0]
    ensures var rows := [[F64(0)], [F64(TWO_TO_THE_63)]];
            RowsFit(s, rows) && HasTie(GroupBy(s, rows))
  {
    hide GroupBy, HasTie;
    var rows := [[F64(0)], [F64(TWO_TO_THE_63)]];
    assert s.KeyOf(rows[0]) == [F64(0)] && s.KeyOf(rows[1]) == [F64(TWO_TO_THE_63)];
    assert [F64(0)][0] != [F64(TWO_TO_THE_63)][0];
    assert RowsTie(s, rows);
    GroupByMeaning(s, rows);
    TieMeaning(s, GroupBy(s, rows), rows);
  }

  // ---------- reports of the same rows ----------

  /** The same groups, all of them empty. */
  ghost function Emptied(s: Shape, m: GroupMap): (r: GroupMap)
    requires s.Valid()
    ensures AllFit(s, r)
  {
    map k | k in m :: NewGroup(s)
  }

  ghost function EmptiedReport(s: Shape, p: seq<GroupResult>): seq<GroupResult>
    requires s.Valid()
  {
    seq(|p|, i requires 0 <= i < |p| => ToResult(s, p[i].key, NewGroup(s)))
  }

  lemma EmptiedIsListing(s: Shape, p: seq<GroupResult>, m: GroupMap)
    requires s.Valid() && AllFit(s, m) && Lists(s, p, m)
    ensures Lists(s, EmptiedReport(s, p), Emptied(s, m))
  {
    hide ToResult, Fits, NewGroup, Shape.Valid;
    var q := EmptiedReport(s, p);
    EmptiedKeys(s, p);
    forall k | k in Emptied(s, m)
      ensures KeyAmong(q, k)
    {
      assert KeyAmong(p, k);
      var i :| 0 <= i < |p| && p[i].key == k;
      assert q[i].key == k;
    }
  }

  lemma EmptiedKeys(s: Shape, p: seq<GroupResult>)
    requires s.Valid()
    ensures |EmptiedReport(s, p)| == |p|
    ensures forall i :: 0 <= i < |p| ==> EmptiedReport(s, p)[i].key == p[i].key
  {
    hide Fits, NewGroup, MeasureResults;
  }

  lemma EmptiedIsReport(s: Shape, p: seq<GroupResult>, m: GroupMap)
    requires s.Valid() && AllFit(s, m) && IsReport(s, p, m)
    ensures IsReport(s, EmptiedReport(s, p), Emptied(s, m))
  {
    hide Lists, CompareFrom, EmptiedReport, Fits, NewGroup;
    var q := EmptiedReport(s, p);
    EmptiedIsListing(s, p, m);
    EmptiedKeys(s, p);
    forall i, j | 0 <= i < j < |q|
      ensures KeyOrder(s.groupByTypes)(q[i], q[j])
    {
      assert KeyOrder(s.groupByTypes)(p[i], p[j]);
    }
  }

  /** Equal values, or two percentiles, or two sums or averages of floats. */
  predicate ValuesAgree(x: MeasureResult, y: MeasureResult) {
    || x.value == y.value
    || x.func.Percentile?
    || (x.value.FloatSum? && y.value.FloatSum?)
    || (x.value.FloatAverage? && y.value.FloatAverage?)
  }

  predicate MeasuresAgree(p: seq<MeasureResult>, q: seq<MeasureResult>) {
    && |p| == |q|
    && forall j :: 0 <= j < |p| ==> p[j].column == q[j].column && p[j].func == q[j].func && ValuesAgree(p[j], q[j])
  }

  /** The same result but for what depends on the order of events: the values of percentiles, and the
      rounding of float sums and averages. */
  predicate ResultsAgree(x: GroupResult, y: GroupResult) {
    x.key == y.key && x.count == y.count && MeasuresAgree(x.measures, y.measures)
  }

  lemma MeasuresAgreeInParts(p: seq<MeasureResult>, q: seq<MeasureResult>,
                             p': seq<MeasureResult>, q': seq<MeasureResult>)
    requires MeasuresAgree(p, q) && MeasuresAgree(p', q')
    ensures MeasuresAgree(p + p', q + q')
  {
    hide ValuesAgree;
  }

  lemma NothingReported(s: Shape, a: Group, b: Group)
    requires s.Valid() && Fits(s, a) && Fits(s, b)
    ensures MeasuresAgree(MeasureResults(s, a, 0), MeasureResults(s, b, 0))
  {
    hide Fits;
  }

  lemma {:induction false} GroupsReportAlike(s: Shape, a: Group, b: Group, n: nat)
    requires s.Valid() && Fits(s, a) && Fits(s, b) && AgreeUpToOrder(a, b) && n <= |s.spec.measures|
    ensures MeasuresAgree(MeasureResults(s, a, n), MeasureResults(s, b, n))
  {
    hide Fits, SameUpToOrder, MeasuresAgree, ResultsOf, Answerable, Shape.Valid;
    if n == 0 {
      NothingReported(s, a, b);
    } else {
      GroupsReportAlike(s, a, b, n - 1);
      GroupSizes(s, a);
      FittingIsAnswerable(s, a, n - 1);
      FittingIsAnswerable(s, b, n - 1);
      var x, y, spec := a.measures[n - 1], b.measures[n - 1], s.spec.measures[n - 1];
      MeasuresReportAlike(x, y, a.count, spec, s.tools);
      MeasuresAgreeInParts(MeasureResults(s, a, n - 1), MeasureResults(s, b, n - 1),
                           ResultsOf(x, a.count, spec, s.tools), ResultsOf(y, a.count, spec, s.tools));
    }
  }

  lemma MeasuresReportAlike(a: Measure, b: Measure, count: int64, ms: MeasureSpec, tools: Tools)
    requires SameUpToOrder(a, b) && Answerable(a, ms.funcs) && Answerable(b, ms.funcs)
    ensures MeasuresAgree(ResultsOf(a, count, ms, tools), ResultsOf(b, count, ms, tools))
  {
    hide PercentileOf, IntMean, Divide, FromInt;
  }

  /** Two aggregates of the same rows, however they were put together and laid out, have reports
      that differ at most in the values of percentiles and the rounding of float sums and averages,
      if no two keys tie. Where order leaves no trace the report is the same sequence. */
  lemma ReportsAgree(s: Shape, a: GroupMap, b: GroupMap, rows: seq<Row>, p: seq<GroupResult>, q: seq<GroupResult>)
    requires s.Valid() && Represents(s, a, rows) && Represents(s, b, rows) && KeysTyped(s, a) && !RowsTie(s, rows)
    requires IsReport(s, p, a) && IsReport(s, q, b)
    ensures |p| == |q| && forall i :: 0 <= i < |p| ==> ResultsAgree(p[i], q[i])
    ensures Determined(s, rows) ==> p == q
  {
    hide Represents, RowsTie, HasTie, SortedBy, MeasureResults, Fits, AgreeUpToOrder, NewGroup, KeyTyped,
         Determined;
    RepresentationsAgree(s, a, b, rows);
    RepresentedFits(s, a, rows);
    RepresentedFits(s, b, rows);
    TieMeaning(s, a, rows);
    EmptiedIsReport(s, p, a);
    EmptiedIsReport(s, q, b);
    SameTies(s, a);
    assert Emptied(s, a) == Emptied(s, b);
    ReportIsUnique(s, EmptiedReport(s, p), EmptiedReport(s, q), Emptied(s, a));
    assert |EmptiedReport(s, p)| == |p| && |EmptiedReport(s, q)| == |q|;
    forall i | 0 <= i < |p|
      ensures ResultsAgree(p[i], q[i])
    {
      assert EmptiedReport(s, p)[i].key == EmptiedReport(s, q)[i].key;
      GroupsReportAlike(s, a[p[i].key], b[p[i].key], |s.spec.measures|);
      CountsAgree(a[p[i].key], b[p[i].key]);
    }
    if Determined(s, rows) {
      ReportIsUnique(s, p, q, a);
    }
  }

  lemma SameTies(s: Shape, m: GroupMap)
    requires s.Valid() && KeysTyped(s, m)
    ensures KeysTyped(s, Emptied(s, m)) && (HasTie(Emptied(s, m)) <==> HasTie(m))
  {
    hide KeysAlike, KeyTyped, NewGroup;
  }

  lemma CountsAgree(a: Group, b: Group)
    requires AgreeUpToOrder(a, b)
    ensures a.count == b.count
  {
  }
}
