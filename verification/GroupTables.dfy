/** The open-addressing hash table from group keys to running groups.

    Linear probing over power-of-two capacities, with every hash cached beside its slot.
    The hash function is arbitrary: a bad one lengthens probe chains but can never confuse
    two keys, because a hit is confirmed by comparing keys. */
module GroupTables {
  import opened Words
  import opened Values
  import opened GroupKeys
  import opened GroupAccums

  // ---------- probe order ----------

  /** The slot a hash starts probing at, computed by masking. */
  function Home(hash: uint64, capacity: nat): (i: nat)
    requires IsPowerOfTwo(capacity)
    ensures i < capacity
  {
    MaskIsRemainder(hash, capacity);
    BitAnd(hash, capacity - 1)
  }

  lemma HomeIsRemainder(hash: uint64, capacity: nat)
    requires IsPowerOfTwo(capacity)
    ensures Home(hash, capacity) == hash % capacity
  {
    MaskIsRemainder(hash, capacity);
  }

  /** The slot probed after i, computed by masking. */
  function Next(i: nat, capacity: nat): (j: nat)
    requires IsPowerOfTwo(capacity) && i < capacity
    ensures j == if i + 1 == capacity then 0 else i + 1
  {
    MaskIsRemainder(i + 1, capacity);
    RemainderUnique(i + 1, capacity, if i + 1 == capacity then 1 else 0, if i + 1 == capacity then 0 else i + 1);
    BitAnd(i + 1, capacity - 1)
  }

  /** j is probed strictly before i by a search that starts at home. */
  predicate Before(home: nat, j: nat, i: nat) {
    if home <= i then home <= j < i else home <= j || j < i
  }

  lemma OneComesFirst(home: nat, i: nat, j: nat)
    requires i != j
    ensures Before(home, i, j) || Before(home, j, i)
  {
  }

  /** How many steps a search at i still needs to reach e. */
  function Distance(i: nat, e: nat, capacity: nat): nat
    requires i < capacity && e < capacity
  {
    if i <= e then e - i else e + capacity - i
  }

  function CountFull(full: seq<bool>): nat {
    if full == [] then 0 else CountFull(full[..|full| - 1]) + (if full[|full| - 1] then 1 else 0)
  }

  lemma {:induction false} CountFullBound(full: seq<bool>)
    ensures CountFull(full) <= |full|
    ensures CountFull(full) < |full| ==> exists e :: 0 <= e < |full| && !full[e]
  {
    if full != [] {
      var front := full[..|full| - 1];
      CountFullBound(front);
      if CountFull(full) < |full| && full[|full| - 1] {
        var e :| 0 <= e < |front| && !front[e];
        assert !full[e];
      }
    }
  }

  lemma {:induction false} CountFullUpdate(full: seq<bool>, i: nat)
    requires i < |full| && !full[i]
    ensures CountFull(full[i := true]) == CountFull(full) + 1
  {
    var n := |full| - 1;
    if i < n {
      CountFullUpdate(full[..n], i);
      assert full[i := true][..n] == full[..n][i := true];
    } else {
      assert full[i := true][..n] == full[..n];
    }
  }

  lemma {:induction false} CountFullEmpty(full: seq<bool>)
    requires forall i :: 0 <= i < |full| ==> !full[i]
    ensures CountFull(full) == 0
  {
    if full != [] {
      CountFullEmpty(full[..|full| - 1]);
    }
  }

  const INITIAL_CAPACITY: nat := 16

  /** The table is kept at most 70% full. */
  predicate WithinLoad(size: nat, capacity: nat) { 10 * size <= 7 * capacity }

  /** The three parallel arrays of a table, with the map they represent: the group each key
      maps to, and the slot it sits in. */
  datatype Layout = Layout(
    hashes: seq<uint64>, slots: seq<GroupAccum?>, full: seq<bool>,
    stored: map<Key, GroupAccum>, slotOf: map<Key, nat>)
  {
    predicate Sized() {
      IsPowerOfTwo(|slots|) && |slots| >= INITIAL_CAPACITY && |hashes| == |full| == |slots|
    }

    /** Slot i holds the group its key maps to, under that key's hash. */
    ghost predicate Holds(hashOf: Key -> uint64, i: nat)
      requires Sized() && i < |slots|
    {
      && slots[i] != null
      && slots[i].key in stored && stored[slots[i].key] == slots[i]
      && slots[i].key in slotOf && slotOf[slots[i].key] == i
      && hashes[i] == hashOf(slots[i].key)
    }

    ghost predicate AllHold(hashOf: Key -> uint64)
      requires Sized()
    {
      forall i :: 0 <= i < |slots| && full[i] ==> Holds(hashOf, i)
    }

    ghost predicate AllFound()
      requires Sized()
    {
      && slotOf.Keys == stored.Keys
      && forall k :: k in stored ==>
           slotOf[k] < |slots| && full[slotOf[k]] && slots[slotOf[k]] == stored[k] && stored[k].key == k
    }

    /** Every slot before i on the probe chain of this hash is occupied. */
    ghost predicate Crowded(hash: uint64, i: nat)
      requires Sized() && i < |slots|
    {
      forall j :: 0 <= j < |slots| && Before(Home(hash, |slots|), j, i) ==> full[j]
    }

    /** No gap separates an occupied slot from the start of its probe chain. */
    ghost predicate AllReachable()
      requires Sized()
    {
      forall i :: 0 <= i < |slots| && full[i] ==> Crowded(hashes[i], i)
    }

    ghost predicate Good(hashOf: Key -> uint64) {
      && Sized()
      && AllHold(hashOf)
      && AllFound()
      && AllReachable()
      && CountFull(full) == |stored|
    }

    /** Every slot before i on the probe chain of this hash is occupied by some other key. */
    ghost predicate Missed(hash: uint64, key: Key, i: nat)
      requires Sized() && i < |slots|
    {
      forall j :: 0 <= j < |slots| && Before(Home(hash, |slots|), j, i) ==>
        full[j] && slots[j] != null && slots[j].key != key
    }

    lemma MissedStart(hash: uint64, key: Key)
      requires Sized()
      ensures Missed(hash, key, Home(hash, |slots|)) && Crowded(hash, Home(hash, |slots|))
    {
      hide Home;
    }

    lemma MissedStep(hash: uint64, key: Key, i: nat)
      requires Sized() && i < |slots| && Missed(hash, key, i)
      requires full[i] && slots[i] != null && slots[i].key != key
      ensures Missed(hash, key, Next(i, |slots|))
    {
      hide Home, Next, IsPowerOfTwo;
    }

    lemma CrowdedStep(hash: uint64, i: nat)
      requires Sized() && i < |slots| && Crowded(hash, i) && full[i]
      ensures Crowded(hash, Next(i, |slots|))
    {
      hide Home, Next, IsPowerOfTwo;
    }

    /** A search for a stored key meets only occupied slots on its way. */
    lemma NoGapBefore(hashOf: Key -> uint64, key: Key, i: nat)
      requires Good(hashOf) && i < |slots| && Missed(hashOf(key), key, i) && key in stored
      ensures full[i]
    {
      hide Home, IsPowerOfTwo;
      var p := slotOf[key];
      assert Holds(hashOf, p) && Crowded(hashes[p], p);
      if i != p {
        OneComesFirst(Home(hashes[p], |slots|), i, p);
      }
    }

    /** A search that reaches a gap has proved the key absent. */
    lemma GapMeansAbsent(hashOf: Key -> uint64, key: Key, i: nat)
      requires Good(hashOf) && i < |slots| && Missed(hashOf(key), key, i) && !full[i]
      ensures key !in stored
    {
      hide Good, Missed;
      if key in stored {
        NoGapBefore(hashOf, key, i);
      }
    }

    /** The table never fills up, so every probe chain ends at a gap. */
    lemma SomeGap(hashOf: Key -> uint64) returns (e: nat)
      requires Good(hashOf) && (|stored| < |slots| || WithinLoad(|stored|, |slots|))
      ensures Sized() && e < |slots| && !full[e]
    {
      CountFullBound(full);
      e :| 0 <= e < |slots| && !full[e];
    }

    lemma OccupantOf(hashOf: Key -> uint64, i: nat)
      requires Good(hashOf) && i < |slots| && full[i]
      ensures slots[i] != null && hashes[i] == hashOf(slots[i].key)
      ensures slots[i].key in stored && stored[slots[i].key] == slots[i]
    {
      assert Holds(hashOf, i);
    }

    /** The part of the map that sits in the first i slots. */
    ghost function UpTo(i: nat): map<Key, GroupAccum> {
      map k | k in stored && k in slotOf && slotOf[k] < i :: stored[k]
    }

    lemma UpToStep(hashOf: Key -> uint64, i: nat)
      requires Good(hashOf) && i < |slots|
      ensures !full[i] ==> UpTo(i + 1) == UpTo(i)
      ensures full[i] ==> slots[i] != null && slots[i].key !in UpTo(i)
      ensures full[i] ==> UpTo(i + 1) == UpTo(i)[slots[i].key := slots[i]]
    {
      hide IsPowerOfTwo, AllReachable;
      if full[i] {
        assert Holds(hashOf, i);
      }
      assert forall k :: k in stored && slotOf[k] == i ==> full[i] && slots[i].key == k;
    }

    lemma UpToEnds(hashOf: Key -> uint64)
      requires Good(hashOf)
      ensures UpTo(0) == map[] && UpTo(|slots|) == stored
    {
    }

    lemma SizeFacts(hashOf: Key -> uint64)
      requires Good(hashOf)
      ensures Sized() && IsPowerOfTwo(2 * |slots|)
    {
      hide IsPowerOfTwo;
      DoubledPowerOfTwo(|slots|);
    }

    /** The layout after putting g under this hash in slot i. */
    function Put(hash: uint64, g: GroupAccum, i: nat): Layout
      requires Sized() && i < |slots|
    {
      Layout(hashes[i := hash], slots[i := g], full[i := true], stored[g.key := g], slotOf[g.key := i])
    }

    lemma PutHolds(hashOf: Key -> uint64, g: GroupAccum, i: nat, j: nat)
      requires Good(hashOf) && i < |slots| && !full[i] && g.key !in stored
      requires j < |slots| && Put(hashOf(g.key), g, i).full[j]
      ensures Put(hashOf(g.key), g, i).Holds(hashOf, j)
    {
      hide Home, IsPowerOfTwo, CountFull, AllReachable, Crowded;
      if j != i {
        assert Holds(hashOf, j);
      }
    }

    lemma PutCrowded(hash: uint64, g: GroupAccum, i: nat, home: uint64, j: nat)
      requires Sized() && i < |slots| && j < |slots| && Crowded(home, j)
      ensures Put(hash, g, i).Crowded(home, j)
    {
      hide Home, IsPowerOfTwo, CountFull;
    }

    lemma PutFound(hash: uint64, g: GroupAccum, i: nat)
      requires Sized() && AllFound() && i < |slots| && !full[i] && g.key !in stored
      ensures Put(hash, g, i).AllFound()
    {
      hide IsPowerOfTwo;
    }

    lemma PutKeepsGood(hashOf: Key -> uint64, g: GroupAccum, i: nat)
      requires Good(hashOf) && i < |slots| && !full[i] && g.key !in stored && Crowded(hashOf(g.key), i)
      ensures Put(hashOf(g.key), g, i).Good(hashOf)
    {
      hide Home, IsPowerOfTwo, Crowded, Holds;
      var after := Put(hashOf(g.key), g, i);
      CountFullUpdate(full, i);
      PutFound(hashOf(g.key), g, i);
      forall j | 0 <= j < |slots| && after.full[j]
        ensures after.Holds(hashOf, j) && after.Crowded(after.hashes[j], j)
      {
        PutHolds(hashOf, g, i, j);
        PutCrowded(hashOf(g.key), g, i, after.hashes[j], j);
      }
    }
  }

  lemma EmptyIsGood(t: Layout, hashOf: Key -> uint64)
    requires t.Sized() && t.stored == map[] && t.slotOf == map[]
    requires forall i :: 0 <= i < |t.full| ==> !t.full[i]
    ensures t.Good(hashOf)
  {
    CountFullEmpty(t.full);
  }

  lemma DoubledPowerOfTwo(n: nat)
    requires IsPowerOfTwo(n)
    ensures IsPowerOfTwo(2 * n)
  {
    assert (2 * n) / 2 == n;
  }

  class GroupTable {
    var hashes: array<uint64>
    var slots: array<GroupAccum?>
    var full: array<bool>
    var size: nat

    /** The hash each key is stored under: any function at all. */
    ghost const hashOf: Key -> uint64
    ghost var stored: map<Key, GroupAccum>
    ghost var slotOf: map<Key, nat>

    ghost function Arrays(): Layout
      reads this, hashes, slots, full
    {
      Layout(hashes[..], slots[..], full[..], stored, slotOf)
    }

    ghost predicate Valid()
      reads this, hashes, slots, full
    {
      && Arrays().Good(hashOf)
      && size == |stored|
      && WithinLoad(size, slots.Length)
    }

    ghost function Repr(): set<object>
      reads this
    {
      {this, hashes, slots, full}
    }

    lemma ArraysAreGood()
      requires Valid()
      ensures Arrays().Good(hashOf) && hashes.Length == full.Length == slots.Length
    {
    }

    constructor (ghost hashOf: Key -> uint64)
      ensures Valid() && stored == map[] && this.hashOf == hashOf
      ensures fresh(Repr())
    {
      this.hashOf := hashOf;
      hashes, slots, full := new uint64[0], new GroupAccum?[0], new bool[0];
      size := 0;
      new;
      assert IsPowerOfTwo(INITIAL_CAPACITY) by {
        assert IsPowerOfTwo(2) && IsPowerOfTwo(4) && IsPowerOfTwo(8);
      }
      Clear(INITIAL_CAPACITY);
    }

    /** Fresh, empty arrays of the given capacity. */
    method Clear(capacity: nat)
      requires IsPowerOfTwo(capacity) && capacity >= INITIAL_CAPACITY
      modifies this`hashes, this`slots, this`full, this`stored, this`slotOf
      ensures fresh(hashes) && fresh(slots) && fresh(full)
      ensures Arrays().Good(hashOf) && stored == map[] && slots.Length == capacity
    {
      hide Layout.Good, IsPowerOfTwo;
      hashes := new uint64[capacity](_ => 0);
      slots := new GroupAccum?[capacity](_ => null);
      full := new bool[capacity](_ => false);
      stored, slotOf := map[], map[];
      EmptyIsGood(Arrays(), hashOf);
    }

    // ---------- lookup: one probe loop per key shape ----------

    method FindByString(hash: uint64, s: bytes) returns (g: GroupAccum?, ok: bool)
      requires Valid() && hash == hashOf([Str(s)])
      ensures ok <==> [Str(s)] in stored
      ensures g == if ok then stored[[Str(s)]] else null
    {
      ghost var t, key := Arrays(), [Str(s)];
      hide Home, IsPowerOfTwo, Layout.Good, Layout.Missed, Layout.Crowded;
      ghost var gap := t.SomeGap(hashOf);
      t.MissedStart(hash, key);
      var idx: nat := Home(hash, slots.Length);
      while full[idx]
        invariant idx < slots.Length && t.Missed(hash, key, idx)
        decreases Distance(idx, gap, slots.Length)
      {
        t.OccupantOf(hashOf, idx);
        if hashes[idx] == hash {
          var c := slots[idx];
          if |c.key| == 1 && c.key[0].Type() == TypeString && c.key[0].s == s {
            assert c.key == key;
            return c, true;
          }
        }
        t.MissedStep(hash, key, idx);
        idx := Next(idx, slots.Length);
      }
      t.GapMeansAbsent(hashOf, key, idx);
      return null, false;
    }

    method FindByI64(hash: uint64, v: int64) returns (g: GroupAccum?, ok: bool)
      requires Valid() && hash == hashOf([I64(v)])
      ensures ok <==> [I64(v)] in stored
      ensures g == if ok then stored[[I64(v)]] else null
    {
      ghost var t, key := Arrays(), [I64(v)];
      hide Home, IsPowerOfTwo, Layout.Good, Layout.Missed, Layout.Crowded;
      ghost var gap := t.SomeGap(hashOf);
      t.MissedStart(hash, key);
      var idx: nat := Home(hash, slots.Length);
      while full[idx]
        invariant idx < slots.Length && t.Missed(hash, key, idx)
        decreases Distance(idx, gap, slots.Length)
      {
        t.OccupantOf(hashOf, idx);
        if hashes[idx] == hash {
          var c := slots[idx];
          if |c.key| == 1 && c.key[0].Type() == TypeInt64 && c.key[0].i == v {
            assert c.key == key;
            return c, true;
          }
        }
        t.MissedStep(hash, key, idx);
        idx := Next(idx, slots.Length);
      }
      t.GapMeansAbsent(hashOf, key, idx);
      return null, false;
    }

    method FindByF64(hash: uint64, bits: uint64) returns (g: GroupAccum?, ok: bool)
      requires Valid() && hash == hashOf([F64(bits)])
      ensures ok <==> [F64(bits)] in stored
      ensures g == if ok then stored[[F64(bits)]] else null
    {
      ghost var t, key := Arrays(), [F64(bits)];
      hide Home, IsPowerOfTwo, Layout.Good, Layout.Missed, Layout.Crowded;
      ghost var gap := t.SomeGap(hashOf);
      t.MissedStart(hash, key);
      var idx: nat := Home(hash, slots.Length);
      while full[idx]
        invariant idx < slots.Length && t.Missed(hash, key, idx)
        decreases Distance(idx, gap, slots.Length)
      {
        t.OccupantOf(hashOf, idx);
        if hashes[idx] == hash {
          var c := slots[idx];
          if |c.key| == 1 && c.key[0].Type() == TypeFloat64 && c.key[0].bits == bits {
            assert c.key == key;
            return c, true;
          }
        }
        t.MissedStep(hash, key, idx);
        idx := Next(idx, slots.Length);
      }
      t.GapMeansAbsent(hashOf, key, idx);
      return null, false;
    }

    method FindByDims(hash: uint64, dims: Key) returns (g: GroupAccum?, ok: bool)
      requires Valid() && hash == hashOf(dims)
      ensures ok <==> dims in stored
      ensures g == if ok then stored[dims] else null
    {
      ghost var t, key := Arrays(), dims;
      hide Home, IsPowerOfTwo, Layout.Good, Layout.Missed, Layout.Crowded;
      ghost var gap := t.SomeGap(hashOf);
      t.MissedStart(hash, key);
      var idx: nat := Home(hash, slots.Length);
      while full[idx]
        invariant idx < slots.Length && t.Missed(hash, key, idx)
        decreases Distance(idx, gap, slots.Length)
      {
        t.OccupantOf(hashOf, idx);
        if hashes[idx] == hash {
          var c := slots[idx];
          var equal := DimsEqual(c.key, dims);
          if equal {
            return c, true;
          }
        }
        t.MissedStep(hash, key, idx);
        idx := Next(idx, slots.Length);
      }
      t.GapMeansAbsent(hashOf, key, idx);
      return null, false;
    }

    // ---------- insertion ----------

    /** Puts g in the first gap of its probe chain. */
    method Place(hash: uint64, g: GroupAccum)
      requires Arrays().Good(hashOf) && |stored| < slots.Length
      requires hash == hashOf(g.key) && g.key !in stored
      modifies this`stored, this`slotOf, hashes, slots, full
      ensures Arrays().Good(hashOf) && stored == old(stored)[g.key := g]
    {
      ghost var t := Arrays();
      hide Home, IsPowerOfTwo, Layout.Good, Layout.Missed, Layout.Crowded;
      ghost var gap := t.SomeGap(hashOf);
      t.MissedStart(hash, g.key);
      var idx: nat := Home(hash, slots.Length);
      while full[idx]
        invariant Arrays() == t && idx < slots.Length && t.Crowded(hash, idx)
        decreases Distance(idx, gap, slots.Length)
      {
        t.CrowdedStep(hash, idx);
        idx := Next(idx, slots.Length);
      }
      t.PutKeepsGood(hashOf, g, idx);
      Fill(hash, g, idx, t);
    }

    /** Occupies a slot. */
    method Fill(hash: uint64, g: GroupAccum, idx: nat, ghost t: Layout)
      requires Arrays() == t && t.Sized() && idx < slots.Length
      modifies this`stored, this`slotOf, hashes, slots, full
      ensures Arrays() == t.Put(hash, g, idx) && stored == old(stored)[g.key := g]
    {
      hashes[idx] := hash;
      slots[idx] := g;
      full[idx] := true;
      stored, slotOf := stored[g.key := g], slotOf[g.key := idx];
    }

    /** Doubles the capacity and puts every group back under its cached hash. */
    method Grow()
      requires Valid()
      modifies this
      ensures Arrays().Good(hashOf) && fresh(hashes) && fresh(slots) && fresh(full)
      ensures stored == old(stored) && size == old(size)
      ensures slots.Length == 2 * old(slots.Length)
    {
      hide Layout.Good, IsPowerOfTwo;
      var oldHashes, oldSlots, oldFull := hashes, slots, full;
      ghost var t := Arrays();
      t.SizeFacts(hashOf);
      Clear(slots.Length * 2);
      Reinsert(oldHashes, oldSlots, oldFull, t);
    }

    method Reinsert(oldHashes: array<uint64>, oldSlots: array<GroupAccum?>, oldFull: array<bool>, ghost t: Layout)
      requires t.Good(hashOf) && t.hashes == oldHashes[..] && t.slots == oldSlots[..] && t.full == oldFull[..]
      requires oldHashes != hashes && oldSlots != slots && oldFull != full
      requires Arrays().Good(hashOf) && stored == map[] && slots.Length > |t.slots|
      modifies this`stored, this`slotOf, hashes, slots, full
      ensures Arrays().Good(hashOf) && stored == t.stored
    {
      hide Layout.Good, Layout.UpTo, IsPowerOfTwo;
      t.SizeFacts(hashOf);
      t.UpToEnds(hashOf);
      for i := 0 to oldFull.Length
        invariant Arrays().Good(hashOf) && |stored| <= i && stored == t.UpTo(i)
        invariant t.hashes == oldHashes[..] && t.slots == oldSlots[..] && t.full == oldFull[..]
      {
        t.UpToStep(hashOf, i);
        if oldFull[i] {
          t.OccupantOf(hashOf, i);
          Place(oldHashes[i], oldSlots[i]);
        }
      }
    }

    /** Doubles the table if one more group would be too many. */
    method MakeRoom()
      requires Valid()
      modifies this
      ensures Arrays().Good(hashOf) && fresh(Repr() - old(Repr()))
      ensures stored == old(stored) && size == old(size) == |stored| < slots.Length
      ensures WithinLoad(size + 1, slots.Length)
    {
      hide Layout.Good, IsPowerOfTwo;
      Arrays().SizeFacts(hashOf);
      if 10 * (size + 1) > 7 * slots.Length {
        Grow();
      }
    }

    method InsertNew(hash: uint64, g: GroupAccum)
      requires Valid() && hash == hashOf(g.key) && g.key !in stored
      modifies Repr()
      ensures Valid() && fresh(Repr() - old(Repr()))
      ensures stored == old(stored)[g.key := g]
    {
      hide Layout.Good, IsPowerOfTwo;
      MakeRoom();
      Place(hash, g);
      size := size + 1;
    }
  }
}
