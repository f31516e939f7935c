/** Snapshots of groups on the heap: each register array is a copy of its own. */
module Snapshots {
  import opened Words
  import opened Values
  import opened Accumulators
  import opened Groups
  import opened GroupAccums
  import opened States
  import HLL = HyperLogLogs

  /** Registers are null unless the measure counts distinct values. */
  datatype MeasureSnapshot = MeasureSnapshot(typ: ColumnType, numbers: Numbers, registers: array?<uint8>)
  {
    function Contents(): MeasureState
      reads registers
    {
      MeasureState(typ, numbers, if registers != null then Some(registers[..]) else None)
    }
  }

  datatype GroupSnapshot = GroupSnapshot(key: Key, count: int64, measures: seq<MeasureSnapshot>)
  {
    ghost function Arrays(): set<object> {
      set i | 0 <= i < |measures| && measures[i].registers != null :: measures[i].registers
    }

    ghost function Contents(): (st: GroupState)
      reads Arrays()
      ensures st.key == key && st.count == count && |st.measures| == |measures|
      ensures forall i :: 0 <= i < |measures| ==> st.measures[i] == measures[i].Contents()
    {
      GroupState(key, count, seq(|measures|, i requires 0 <= i < |measures| reads Arrays() => measures[i].Contents()))
    }
  }

  ghost function ArraysOf(snaps: seq<GroupSnapshot>): set<object> {
    set i, a | 0 <= i < |snaps| && a in snaps[i].Arrays() :: a
  }

  lemma ArraysExist(snaps: seq<GroupSnapshot>)
    ensures forall x :: x in ArraysOf(snaps) ==> allocated(x)
  {
  }

  /** What the snapshots say, as values. */
  ghost function ContentsOf(snaps: seq<GroupSnapshot>): (states: seq<GroupState>)
    reads ArraysOf(snaps)
    ensures |states| == |snaps| && forall i :: 0 <= i < |snaps| ==> states[i] == snaps[i].Contents()
  {
    seq(|snaps|, i requires 0 <= i < |snaps| reads ArraysOf(snaps) => snaps[i].Contents())
  }

  lemma OneMoreSnapshot(snaps: seq<GroupSnapshot>, snap: GroupSnapshot)
    ensures ArraysOf(snaps + [snap]) == ArraysOf(snaps) + snap.Arrays()
    ensures ContentsOf(snaps + [snap]) == ContentsOf(snaps) + [snap.Contents()]
  {
    hide GroupSnapshot.Contents, GroupSnapshot.Arrays;
    var all := snaps + [snap];
    assert all[|snaps|] == snap && forall i :: 0 <= i < |snaps| ==> all[i] == snaps[i];
  }

  // ---------- taking a snapshot ----------

  method CopyRegisters(from: array<uint8>) returns (to: array<uint8>)
    ensures fresh(to) && to[..] == from[..]
  {
    to := new uint8[from.Length](i requires 0 <= i < from.Length reads from => from[i]);
  }

  method SnapshotMeasure(m: MeasureAccum) returns (ms: MeasureSnapshot)
    requires m.Sized()
    ensures ms.registers != null ==> fresh(ms.registers)
    ensures ms.Contents() == ToMeasureState(m.Val())
  {
    ms := MeasureSnapshot(m.typ, m.numbers, null);
    if m.distinct != null {
      var registers := CopyRegisters(m.distinct.registers);
      ms := ms.(registers := registers);
    }
  }

  /** A copy of a group's state that shares nothing with it. */
  method Snapshot(g: GroupAccum) returns (snap: GroupSnapshot)
    requires g.Valid()
    ensures fresh(snap.Arrays()) && snap.Contents() == ToState(g.key, g.Val())
  {
    hide ToMeasureState;
    var measures: seq<MeasureSnapshot> := [];
    for i := 0 to |g.measures|
      invariant |measures| == i
      invariant forall j :: 0 <= j < i ==> measures[j].registers != null ==> fresh(measures[j].registers)
      invariant forall j :: 0 <= j < i ==> measures[j].Contents() == ToMeasureState(g.measures[j].Val())
    {
      var ms := SnapshotMeasure(g.measures[i]);
      measures := measures + [ms];
    }
    snap := GroupSnapshot(g.key, g.count, measures);
    assert snap.Contents().measures == ToState(g.key, g.Val()).measures;
  }

  /** One more snapshot beside others. */
  method SnapshotMore(snaps: seq<GroupSnapshot>, g: GroupAccum) returns (more: seq<GroupSnapshot>)
    requires g.Valid()
    ensures forall x :: x in ArraysOf(more) ==> x in ArraysOf(snaps) || fresh(x)
    ensures ContentsOf(more) == ContentsOf(snaps) + [ToState(g.key, g.Val())]
  {
    hide ToState, GroupAccum.Val, GroupAccum.Valid, GroupSnapshot.Contents;
    ArraysExist(snaps);
    var snap := Snapshot(g);
    OneMoreSnapshot(snaps, snap);
    more := snaps + [snap];
  }

  // ---------- rebuilding a group ----------

  /** Checks one measure and rebuilds it, with its own copy of the registers. */
  method RestoreMeasure(s: Shape, ms: MeasureSnapshot, i: nat) returns (r: Option<MeasureAccum>)
    requires s.Valid() && Distributable(s.spec) && i < |s.measureTypes|
    ensures r.Some? <==> MeasureStateFits(s, ms.Contents(), i)
    ensures r.Some? ==>
      r.value.Sized() && fresh(r.value.Parts()) && r.value.Val() == FromMeasureState(s, ms.Contents(), i)
  {
    if ms.typ != s.measureTypes[i] || s.WantsOf(i).distinct != (ms.registers != null) {
      return None;
    }
    var m := MeasureAccum(ms.typ, ms.numbers, null, null);
    if ms.registers != null {
      if ms.registers.Length != HLL.REGISTERS {
        return None;
      }
      var sketch := new HLL.HyperLogLog.Copy(ms.registers[..]);
      m := m.(distinct := sketch);
    }
    return Some(m);
  }

  method KeyFits(key: Key, types: seq<ColumnType>) returns (ok: bool)
    ensures ok <==> |key| == |types| && forall j :: 0 <= j < |key| ==> key[j].Type() == types[j]
  {
    if |key| != |types| {
      return false;
    }
    for i := 0 to |key|
      invariant forall j :: 0 <= j < i ==> key[j].Type() == types[j]
    {
      if key[i].Type() != types[i] {
        return false;
      }
    }
    return true;
  }

  /** Checks and rebuilds every measure. */
  method RestoreMeasures(s: Shape, snaps: seq<MeasureSnapshot>, ghost states: seq<MeasureState>)
    returns (measures: seq<MeasureAccum>, ok: bool)
    requires s.Valid() && Distributable(s.spec)
    requires |snaps| == |states| && forall j :: 0 <= j < |snaps| ==> snaps[j].Contents() == states[j]
    ensures ok <==>
      |states| == |s.measureTypes| && forall j :: 0 <= j < |states| ==> MeasureStateFits(s, states[j], j)
    ensures ok ==>
      && |measures| == |states| && Apart(measures) && fresh(PartsOf(measures))
      && forall j :: 0 <= j < |states| ==> measures[j].Val() == FromMeasureState(s, states[j], j)
  {
    hide MeasureStateFits, FromMeasureState, Distributable, MeasureAccum.Val, MeasureAccum.Parts, PartsOf, Apart,
         Shape.Valid;
    measures := [];
    if |snaps| != |s.measureTypes| {
      return measures, false;
    }
    NoParts();
    for i := 0 to |snaps|
      invariant |measures| == i && Apart(measures) && fresh(PartsOf(measures))
      invariant forall j :: 0 <= j < i ==> MeasureStateFits(s, states[j], j)
      invariant forall j :: 0 <= j < i ==> measures[j].Val() == FromMeasureState(s, states[j], j)
    {
      PartsIn(measures);
      PartsOfExist(measures);
      var r := RestoreMeasure(s, snaps[i], i);
      if r.None? {
        return measures, false;
      }
      PartsOfMore(measures, r.value);
      measures := measures + [r.value];
    }
    return measures, true;
  }

  lemma RebuiltGroup(s: Shape, st: GroupState, vals: seq<Measure>)
    requires s.Valid() && Distributable(s.spec) && StateFits(s, st) && |vals| == |st.measures|
    requires forall j :: 0 <= j < |vals| ==>
      MeasureStateFits(s, st.measures[j], j) && vals[j] == FromMeasureState(s, st.measures[j], j)
    ensures FromState(s, st) == Group(st.count, vals)
  {
    hide FromMeasureState, MeasureStateFits;
    assert FromState(s, st).measures == vals;
  }

  /** Checks a snapshot against this aggregation and rebuilds its group; null if it is malformed. */
  method Restore(s: Shape, snap: GroupSnapshot) returns (g: GroupAccum?)
    requires s.Valid() && Distributable(s.spec)
    ensures g != null <==> StateFits(s, snap.Contents())
    ensures g != null ==>
      fresh(g) && g.Valid() && fresh(g.Parts()) && g.key == snap.key && g.Val() == FromState(s, snap.Contents())
  {
    hide MeasureStateFits, FromMeasureState, FromState, Distributable, MeasureAccum.Val, Apart, PartsOf, Shape.Valid,
         GroupAccum.Val, GroupAccum.Valid, GroupAccum.Parts;
    ghost var st := snap.Contents();
    var keyFits := KeyFits(snap.key, s.groupByTypes);
    if !keyFits {
      return null;
    }
    var measures, ok := RestoreMeasures(s, snap.measures, st.measures);
    if !ok {
      return null;
    }
    ghost var vals := Vals(measures);
    RebuiltGroup(s, st, vals);
    PartsOfExist(measures);
    g := new GroupAccum.Of(snap.key, snap.count, measures);
    assert snap.Contents() == st;
  }

  // ---------- snapshots as messages ----------

  /** What one snapshot says, as a message. */
  method PackOne(snap: GroupSnapshot) returns (st: GroupState)
    ensures st == snap.Contents()
  {
    var measures: seq<MeasureState> := [];
    for i := 0 to |snap.measures|
      invariant |measures| == i && forall j :: 0 <= j < i ==> measures[j] == snap.measures[j].Contents()
    {
      measures := measures + [snap.measures[i].Contents()];
    }
    st := GroupState(snap.key, snap.count, measures);
    assert st.measures == snap.Contents().measures;
  }

  method Pack(snaps: seq<GroupSnapshot>) returns (states: seq<GroupState>)
    ensures states == ContentsOf(snaps)
  {
    hide GroupSnapshot.Contents;
    states := [];
    for i := 0 to |snaps|
      invariant |states| == i && forall j :: 0 <= j < i ==> states[j] == snaps[j].Contents()
    {
      var st := PackOne(snaps[i]);
      states := states + [st];
    }
  }

  /** A snapshot on this side of the wire, with arrays of its own. */
  method UnpackOne(st: GroupState) returns (snap: GroupSnapshot)
    ensures snap.Contents() == st && fresh(snap.Arrays())
  {
    var measures: seq<MeasureSnapshot> := [];
    for i := 0 to |st.measures|
      invariant |measures| == i
      invariant forall j :: 0 <= j < i ==> measures[j].registers != null ==> fresh(measures[j].registers)
      invariant forall j :: 0 <= j < i ==> measures[j].Contents() == st.measures[j]
    {
      var ms := st.measures[i];
      var registers: array?<uint8> := null;
      if ms.registers.Some? {
        registers := new uint8[|ms.registers.value|](k requires 0 <= k < |ms.registers.value| => ms.registers.value[k]);
        assert registers[..] == ms.registers.value;
      }
      measures := measures + [MeasureSnapshot(ms.typ, ms.numbers, registers)];
    }
    snap := GroupSnapshot(st.key, st.count, measures);
    assert snap.Contents().measures == st.measures;
  }

  method Unpack(states: seq<GroupState>) returns (snaps: seq<GroupSnapshot>)
    ensures ContentsOf(snaps) == states && fresh(ArraysOf(snaps))
  {
    hide GroupSnapshot.Contents;
    snaps := [];
    for i := 0 to |states|
      invariant |snaps| == i && fresh(ArraysOf(snaps))
      invariant forall j :: 0 <= j < i ==> snaps[j].Contents() == states[j]
    {
      var snap := UnpackOne(states[i]);
      OneMoreSnapshot(snaps, snap);
      snaps := snaps + [snap];
    }
    assert ContentsOf(snaps) == states;
  }
}
