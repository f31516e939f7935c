/** Snapshots of group state: what one process sends to another to be merged. */
module States {
  import opened Words
  import opened Values
  import opened Accumulators
  import opened Groups
  import HLL = HyperLogLogs

  /** Registers are absent unless the measure counts distinct values; a snapshot from
      outside may carry any number of them. */
  datatype MeasureState = MeasureState(typ: ColumnType, numbers: Numbers, registers: Option<seq<uint8>>)

  datatype GroupState = GroupState(key: Key, count: int64, measures: seq<MeasureState>)

  function ToMeasureState(m: Measure): MeasureState {
    MeasureState(m.typ, m.numbers, if m.distinct.Some? then Some(m.distinct.value) else None)
  }

  function ToState(key: Key, g: Group): (st: GroupState)
  {
    GroupState(key, g.count, seq(|g.measures|, i requires 0 <= i < |g.measures| => ToMeasureState(g.measures[i])))
  }

  predicate MeasureStateFits(s: Shape, ms: MeasureState, i: nat)
    requires s.Valid() && i < |s.measureTypes|
  {
    && ms.typ == s.measureTypes[i]
    && ms.registers.Some? == s.WantsOf(i).distinct
    && (ms.registers.Some? ==> |ms.registers.value| == HLL.REGISTERS)
  }

  predicate KeyTyped(s: Shape, key: Key)
    requires s.Valid()
  {
    |key| == |s.groupByTypes| && forall i :: 0 <= i < |key| ==> key[i].Type() == s.groupByTypes[i]
  }

  /** The snapshot has the arity and types this aggregation expects. */
  predicate StateFits(s: Shape, st: GroupState)
    requires s.Valid()
  {
    && KeyTyped(s, st.key)
    && |st.measures| == |s.measureTypes|
    && forall i :: 0 <= i < |st.measures| ==> MeasureStateFits(s, st.measures[i], i)
  }

  function FromMeasureState(s: Shape, ms: MeasureState, i: nat): (m: Measure)
    requires s.Valid() && Distributable(s.spec) && i < |s.measureTypes| && MeasureStateFits(s, ms, i)
    ensures MeasureFits(s, m, i)
  {
    Measure(ms.typ, ms.numbers, if ms.registers.Some? then Some(ms.registers.value) else None, None)
  }

  function FromState(s: Shape, st: GroupState): (g: Group)
    requires s.Valid() && Distributable(s.spec) && StateFits(s, st)
    ensures Fits(s, g)
  {
    Group(st.count, seq(|st.measures|, i requires 0 <= i < |st.measures| =>
      assert MeasureStateFits(s, st.measures[i], i);
      FromMeasureState(s, st.measures[i], i)))
  }

  /** A group survives the trip into a snapshot and back. */
  lemma SnapshotRoundTrip(s: Shape, key: Key, g: Group)
    requires s.Valid() && Distributable(s.spec) && KeyTyped(s, key) && Fits(s, g)
    ensures StateFits(s, ToState(key, g)) && FromState(s, ToState(key, g)) == g
  {
    var st := ToState(key, g);
    forall i | 0 <= i < |st.measures|
      ensures MeasureStateFits(s, st.measures[i], i) && FromMeasureState(s, st.measures[i], i) == g.measures[i]
    {
      assert MeasureFits(s, g.measures[i], i);
    }
    assert FromState(s, st).measures == g.measures;
  }

  // ---------- folding groups and snapshots into a map ----------

  function MergeOne(s: Shape, m: GroupMap, key: Key, g: Group): (r: GroupMap)
    requires s.Valid() && AllFit(s, m) && Fits(s, g)
    ensures AllFit(s, r)
  {
    m[key := if key in m then MergeGroups(s, m[key], g) else g]
  }

  function MergeStates(s: Shape, m: GroupMap, states: seq<GroupState>): (r: GroupMap)
    requires s.Valid() && Distributable(s.spec) && AllFit(s, m)
    requires forall i :: 0 <= i < |states| ==> StateFits(s, states[i])
    ensures AllFit(s, r)
  {
    if states == [] then m
    else
      var n := |states| - 1;
      MergeOne(s, MergeStates(s, m, states[..n]), states[n].key, FromState(s, states[n]))
  }

  lemma MergeMapsExtends(s: Shape, a: GroupMap, b: GroupMap, key: Key, g: Group)
    requires s.Valid() && AllFit(s, a) && AllFit(s, b) && Fits(s, g) && key !in b
    ensures AllFit(s, b[key := g])
    ensures MergeMaps(s, a, b[key := g]) == MergeOne(s, MergeMaps(s, a, b), key, g)
  {
    hide MergeGroups, Fits;
    var l, r := MergeMaps(s, a, b[key := g]), MergeOne(s, MergeMaps(s, a, b), key, g);
    assert l.Keys == r.Keys;
    assert l[key] == r[key];
    assert forall k :: k in l && k != key ==> l[k] == r[k];
  }

  /** states lists the groups of m, each exactly once, in any order. */
  ghost predicate Exports(states: seq<GroupState>, m: GroupMap) {
    && (forall i :: 0 <= i < |states| ==> states[i].key in m && states[i] == ToState(states[i].key, m[states[i].key]))
    && (forall i, j :: 0 <= i < j < |states| ==> states[i].key != states[j].key)
    && (forall k :: k in m ==> KeyListed(states, k))
  }

  ghost predicate KeysTyped(s: Shape, m: GroupMap)
    requires s.Valid()
  {
    forall k :: k in m ==> KeyTyped(s, k)
  }

  ghost predicate KeyListed(states: seq<GroupState>, k: Key) {
    exists i :: 0 <= i < |states| && states[i].key == k
  }

  /** The groups whose keys are listed in a prefix of the snapshots. */
  ghost function Listed(states: seq<GroupState>, m: GroupMap): GroupMap {
    map k | k in m && KeyListed(states, k) :: m[k]
  }

  lemma ListedNone(states: seq<GroupState>, m: GroupMap)
    ensures Listed(states[..0], m) == map[]
  {
  }

  lemma KeyListedStep(states: seq<GroupState>, n: nat, k: Key)
    requires n < |states|
    ensures KeyListed(states[..n + 1], k) <==> KeyListed(states[..n], k) || states[n].key == k
  {
    if KeyListed(states[..n], k) {
      var i :| 0 <= i < n && states[..n][i].key == k;
      assert states[..n + 1][i].key == k;
    }
    if states[n].key == k {
      assert states[..n + 1][n].key == k;
    }
  }

  lemma ListedSteps(states: seq<GroupState>, n: nat, m: GroupMap)
    requires n < |states| && Exports(states, m)
    ensures states[n].key !in Listed(states[..n], m) && states[n].key in m
    ensures Listed(states[..n + 1], m) == Listed(states[..n], m)[states[n].key := m[states[n].key]]
  {
    hide ToState;
    forall k | k in m
      ensures KeyListed(states[..n + 1], k) <==> KeyListed(states[..n], k) || states[n].key == k
    {
      KeyListedStep(states, n, k);
    }
  }

  lemma ExportedStateFits(s: Shape, states: seq<GroupState>, n: nat, m: GroupMap)
    requires s.Valid() && Distributable(s.spec) && AllFit(s, m) && KeysTyped(s, m) && n < |states| && Exports(states, m)
    ensures StateFits(s, states[n]) && states[n].key in m && FromState(s, states[n]) == m[states[n].key]
  {
    hide ToState, FromState, Fits;
    SnapshotRoundTrip(s, states[n].key, m[states[n].key]);
  }

  lemma {:induction false} MergeStatesPrefix(s: Shape, a: GroupMap, states: seq<GroupState>, n: nat, m: GroupMap)
    requires s.Valid() && Distributable(s.spec) && AllFit(s, a) && AllFit(s, m) && KeysTyped(s, m) && n <= |states|
    requires Exports(states, m)
    ensures forall i :: 0 <= i < n ==> StateFits(s, states[i])
    ensures AllFit(s, Listed(states[..n], m))
    ensures MergeStates(s, a, states[..n]) == MergeMaps(s, a, Listed(states[..n], m))
  {
    hide MergeGroups, Fits, StateFits, FromState, ToState, Exports, MergeMaps, MergeOne, KeyListed;
    if n == 0 {
      ListedNone(states, m);
      MergeMapsEmpty(s, a);
    } else {
      MergeStatesPrefix(s, a, states, n - 1, m);
      ListedSteps(states, n - 1, m);
      ExportedStateFits(s, states, n - 1, m);
      MergeMapsExtends(s, a, Listed(states[..n - 1], m), states[n - 1].key, m[states[n - 1].key]);
      assert states[..n][..n - 1] == states[..n - 1];
    }
  }

  lemma MergeMapsEmpty(s: Shape, a: GroupMap)
    requires s.Valid() && AllFit(s, a)
    ensures AllFit(s, map[]) && MergeMaps(s, a, map[]) == a && MergeMaps(s, map[], a) == a
  {
  }

  /** Merging an exported list of snapshots is merging the map it was exported from; into an
      empty aggregator it reproduces that map. */
  lemma MergeStatesIsMergeMaps(s: Shape, a: GroupMap, states: seq<GroupState>, m: GroupMap)
    requires s.Valid() && Distributable(s.spec) && AllFit(s, a) && AllFit(s, m) && KeysTyped(s, m) && Exports(states, m)
    ensures forall i :: 0 <= i < |states| ==> StateFits(s, states[i])
    ensures MergeStates(s, a, states) == MergeMaps(s, a, m)
    ensures MergeStates(s, map[], states) == m
  {
    hide FromState, StateFits, ToState, Fits, MergeGroups, MergeOne, KeyTyped;
    MergeStatesPrefix(s, a, states, |states|, m);
    MergeStatesPrefix(s, map[], states, |states|, m);
    assert states[..|states|] == states;
    assert forall k :: k in m ==> KeyListed(states, k);
    assert Listed(states, m) == m;
    MergeMapsEmpty(s, m);
  }

  lemma ExportsExtend(states: seq<GroupState>, m: GroupMap, key: Key, g: Group)
    requires Exports(states, m) && key !in m
    ensures Exports(states + [ToState(key, g)], m[key := g])
  {
    hide ToState;
    var all := states + [ToState(key, g)];
    StateKey(key, g);
    forall k | k in m[key := g]
      ensures KeyListed(all, k)
    {
      if k == key {
        assert all[|states|].key == k;
      } else {
        var i :| 0 <= i < |states| && states[i].key == k;
        assert all[i].key == k;
      }
    }
  }

  lemma StateKey(key: Key, g: Group)
    ensures ToState(key, g).key == key
  {
  }

  ghost predicate AllStatesFit(s: Shape, states: seq<GroupState>)
    requires s.Valid()
  {
    forall i :: 0 <= i < |states| ==> StateFits(s, states[i])
  }

  lemma MergeStatesStep(s: Shape, m: GroupMap, states: seq<GroupState>, i: nat)
    requires s.Valid() && Distributable(s.spec) && AllFit(s, m) && i < |states| && AllStatesFit(s, states)
    ensures AllStatesFit(s, states[..i]) && AllStatesFit(s, states[..i + 1])
    ensures MergeStates(s, m, states[..i + 1]) ==
            MergeOne(s, MergeStates(s, m, states[..i]), states[i].key, FromState(s, states[i]))
  {
    hide MergeOne, FromState, StateFits;
    assert states[..i + 1][..i] == states[..i];
  }
}
