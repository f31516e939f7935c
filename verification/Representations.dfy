/** What a map of groups says about the rows it was made from, however they were added and
    merged, and the laws that follow: merging partial maps is aggregating all the rows together. */
module Representations {
  import opened Sequences
  import opened Words
  import opened Values
  import opened Accumulators
  import opened Groups
  import D = Digests

  // ---------- rows by key ----------

  /** The rows that carry a given key, in order. */
  function RowsWithKey(s: Shape, rows: seq<Row>, key: Key): (r: seq<Row>)
    requires s.Valid() && RowsFit(s, rows)
    ensures RowsFit(s, r)
  {
    if rows == [] then []
    else
      var front, last := rows[..|rows| - 1], rows[|rows| - 1];
      if s.KeyOf(last) == key then RowsWithKey(s, front, key) + [last] else RowsWithKey(s, front, key)
  }

  lemma {:induction false} RowsWithKeyConcat(s: Shape, p: seq<Row>, q: seq<Row>, key: Key)
    requires s.Valid() && RowsFit(s, p) && RowsFit(s, q)
    ensures RowsFit(s, p + q) && RowsWithKey(s, p + q, key) == RowsWithKey(s, p, key) + RowsWithKey(s, q, key)
  {
    hide Shape.KeyOf;
    if q == [] {
      assert p + q == p;
    } else {
      RowsWithKeyConcat(s, p, q[..|q| - 1], key);
      assert (p + q)[..|p + q| - 1] == p + q[..|q| - 1];
    }
  }

  lemma {:induction false} RowsWithKeyAnyOrder(s: Shape, p: seq<Row>, q: seq<Row>, key: Key)
    requires s.Valid() && RowsFit(s, p) && RowsFit(s, q) && multiset(p) == multiset(q)
    ensures multiset(RowsWithKey(s, p, key)) == multiset(RowsWithKey(s, q, key))
  {
    hide Shape.KeyOf;
    if p == [] {
      assert |multiset(q)| == 0;
    } else {
      var last := p[|p| - 1];
      SplitLast(p);
      var before, after := TakeOut(last, multiset(p[..|p| - 1]), q);
      FitsInParts(s, before, last, after);
      RowsWithKeyAnyOrder(s, p[..|p| - 1], before + after, key);
      RowsWithKeyConcat(s, before, after, key);
      RowsWithKeyConcat(s, before + [last], after, key);
      RowsWithKeyConcat(s, before, [last], key);
      assert [last][..0] == [];
      assert RowsWithKey(s, [last], key) == if s.KeyOf(last) == key then [last] else [];
    }
  }

  lemma FitsInParts(s: Shape, before: seq<Row>, row: Row, after: seq<Row>)
    requires RowsFit(s, before + [row] + after)
    ensures RowsFit(s, before) && RowsFit(s, [row]) && RowsFit(s, after) && RowsFit(s, before + after)
  {
    var all := before + [row] + after;
    assert forall r :: 0 <= r < |before| ==> before[r] == all[r];
    assert row == all[|before|];
    assert forall r :: 0 <= r < |after| ==> after[r] == all[|before| + 1 + r];
  }

  function MeasureColumn(s: Shape, rows: seq<Row>, i: nat): (vs: seq<Value>)
    requires s.Valid() && RowsFit(s, rows) && i < |s.measureTypes|
    ensures |vs| == |rows|
  {
    seq(|rows|, r requires 0 <= r < |rows| => s.MeasureValue(rows[r], i))
  }

  lemma MeasureColumnAnyOrder(s: Shape, p: seq<Row>, q: seq<Row>, i: nat)
    requires s.Valid() && RowsFit(s, p) && RowsFit(s, q) && i < |s.measureTypes| && multiset(p) == multiset(q)
    ensures multiset(MeasureColumn(s, p, i)) == multiset(MeasureColumn(s, q, i))
  {
    MappedAnyOrder(p, q, row => if |row| == s.numColumns then s.MeasureValue(row, i) else I64(0),
                   MeasureColumn(s, p, i), MeasureColumn(s, q, i));
  }

  // ---------- one group ----------

  /** A group counts its rows (modulo 2^64) and each of its measures has taken in exactly their
      values. */
  ghost predicate IsGroupOf(s: Shape, g: Group, rows: seq<Row>)
    requires s.Valid() && RowsFit(s, rows)
  {
    && |g.measures| == |s.measureTypes|
    && g.count == Wrap(|rows|)
    && forall i :: 0 <= i < |g.measures| ==> HasColumn(s, g.measures[i], rows, i)
  }

  ghost predicate HasColumn(s: Shape, m: Measure, rows: seq<Row>, i: nat)
    requires s.Valid() && RowsFit(s, rows) && i < |s.measureTypes|
  {
    IsMeasureOf(m, s.measureTypes[i], s.WantsOf(i), MeasureColumn(s, rows, i), s.tools)
  }

  lemma GroupOfFits(s: Shape, g: Group, rows: seq<Row>)
    requires s.Valid() && RowsFit(s, rows) && IsGroupOf(s, g, rows)
    ensures Fits(s, g)
  {
    hide Shape.WantsOf;
    forall i | 0 <= i < |g.measures|
      ensures MeasureFits(s, g.measures[i], i)
    {
      assert HasColumn(s, g.measures[i], rows, i);
    }
  }

  lemma NewGroupIsEmpty(s: Shape)
    requires s.Valid()
    ensures IsGroupOf(s, NewGroup(s), [])
  {
    hide IsMeasureOf, NewMeasure;
    WrapIsCongruent(0);
    forall i | 0 <= i < |s.measureTypes|
      ensures HasColumn(s, NewGroup(s).measures[i], [], i)
    {
      NewMeasureIsEmpty(s.measureTypes[i], s.WantsOf(i), s.tools);
    }
  }

  lemma AddedToGroup(s: Shape, g: Group, rows: seq<Row>, row: Row)
    requires s.Valid() && RowsFit(s, rows) && |row| == s.numColumns && IsGroupOf(s, g, rows) && Fits(s, g)
    ensures RowsFit(s, rows + [row]) && IsGroupOf(s, AddToGroup(s, g, row), rows + [row])
  {
    hide AddValue, AddI64, Wrap, IsMeasureOf, Fits, Shape.WantsOf;
    WrapAbsorbs(|rows|, 1);
    forall i | 0 <= i < |g.measures|
      ensures HasColumn(s, AddToGroup(s, g, row).measures[i], rows + [row], i)
    {
      assert HasColumn(s, g.measures[i], rows, i);
      AddedToMeasure(g.measures[i], s.measureTypes[i], s.WantsOf(i), MeasureColumn(s, rows, i),
                     s.MeasureValue(row, i), s.tools);
      assert MeasureColumn(s, rows + [row], i) == MeasureColumn(s, rows, i) + [s.MeasureValue(row, i)];
    }
  }

  lemma MergedGroup(s: Shape, a: Group, b: Group, p: seq<Row>, q: seq<Row>)
    requires s.Valid() && RowsFit(s, p) && RowsFit(s, q) && IsGroupOf(s, a, p) && IsGroupOf(s, b, q)
    requires Fits(s, a) && Fits(s, b)
    ensures RowsFit(s, p + q) && IsGroupOf(s, MergeGroups(s, a, b), p + q)
  {
    hide MergeMeasures, AddI64, Wrap, IsMeasureOf, Shape.WantsOf;
    WrapAddsUp(|p|, |q|);
    forall i | 0 <= i < |a.measures|
      ensures HasColumn(s, MergeGroups(s, a, b).measures[i], p + q, i)
    {
      assert MeasureFits(s, a.measures[i], i) && MeasureFits(s, b.measures[i], i);
      assert HasColumn(s, a.measures[i], p, i) && HasColumn(s, b.measures[i], q, i);
      MergedMeasure(a.measures[i], b.measures[i], s.measureTypes[i], s.WantsOf(i),
                    MeasureColumn(s, p, i), MeasureColumn(s, q, i), s.tools);
      assert MeasureColumn(s, p + q, i) == MeasureColumn(s, p, i) + MeasureColumn(s, q, i);
    }
  }

  lemma GroupAnyOrder(s: Shape, g: Group, p: seq<Row>, q: seq<Row>)
    requires s.Valid() && RowsFit(s, p) && RowsFit(s, q) && multiset(p) == multiset(q) && IsGroupOf(s, g, p)
    ensures IsGroupOf(s, g, q)
  {
    hide IsMeasureOf, Shape.WantsOf, MeasureColumn;
    assert |multiset(p)| == |multiset(q)|;
    forall i | 0 <= i < |g.measures|
      ensures HasColumn(s, g.measures[i], q, i)
    {
      assert HasColumn(s, g.measures[i], p, i);
      MeasureColumnAnyOrder(s, p, q, i);
      MeasureAnyOrder(g.measures[i], s.measureTypes[i], s.WantsOf(i),
                      MeasureColumn(s, p, i), MeasureColumn(s, q, i), s.tools);
    }
  }

  /** Equal but for the states of digests and the rounding of float sums. */
  ghost predicate AgreeUpToOrder(a: Group, b: Group) {
    && a.count == b.count && |a.measures| == |b.measures|
    && forall i :: 0 <= i < |a.measures| ==> SameUpToOrder(a.measures[i], b.measures[i])
  }

  ghost predicate ColumnsAddExactly(s: Shape, rows: seq<Row>)
    requires s.Valid() && RowsFit(s, rows)
  {
    forall i :: 0 <= i < |s.measureTypes| ==> SumsExactly(s.measureTypes[i], MeasureColumn(s, rows, i))
  }

  lemma GroupsAgree(s: Shape, a: Group, b: Group, rows: seq<Row>)
    requires s.Valid() && RowsFit(s, rows) && IsGroupOf(s, a, rows) && IsGroupOf(s, b, rows)
    ensures AgreeUpToOrder(a, b)
    ensures Distributable(s.spec) && ColumnsAddExactly(s, rows) ==> a == b
  {
    hide IsMeasureOf, SameUpToOrder, MeasureColumn, WantsPercentile, SumsExactly;
    forall i | 0 <= i < |a.measures|
      ensures SameUpToOrder(a.measures[i], b.measures[i])
      ensures Distributable(s.spec) && ColumnsAddExactly(s, rows) ==> a.measures[i] == b.measures[i]
    {
      assert HasColumn(s, a.measures[i], rows, i) && HasColumn(s, b.measures[i], rows, i);
      MeasureIsDetermined(a.measures[i], b.measures[i], s.measureTypes[i], s.WantsOf(i),
                          MeasureColumn(s, rows, i), s.tools);
    }
  }

  // ---------- maps of groups ----------

  /** The key has a group exactly when some row carries it, and then its group is that of the
      rows that do. */
  ghost predicate Accounts(s: Shape, m: GroupMap, rows: seq<Row>, key: Key)
    requires s.Valid() && RowsFit(s, rows)
  {
    && (key in m <==> RowsWithKey(s, rows, key) != [])
    && (key in m ==> IsGroupOf(s, m[key], RowsWithKey(s, rows, key)))
  }

  /** The map is an aggregate of these rows: everything is determined but the states of digests,
      each some digest of its group's column, and the rounding of float sums, each the sum of its
      group's column in some order of additions. */
  ghost predicate Represents(s: Shape, m: GroupMap, rows: seq<Row>)
    requires s.Valid()
  {
    AllFit(s, m) && RowsFit(s, rows) && forall key :: Accounts(s, m, rows, key)
  }

  lemma NothingRepresented(s: Shape)
    requires s.Valid()
    ensures Represents(s, map[], [])
  {
  }

  lemma AddRowRepresents(s: Shape, m: GroupMap, rows: seq<Row>, row: Row)
    requires s.Valid() && Represents(s, m, rows) && |row| == s.numColumns
    ensures Represents(s, AddRow(s, m, row), rows + [row])
  {
    hide IsGroupOf, AddToGroup, NewGroup, Fits;
    var all := rows + [row];
    assert all[..|rows|] == rows;
    forall key
      ensures Accounts(s, AddRow(s, m, row), all, key)
    {
      assert Accounts(s, m, rows, key);
      if s.KeyOf(row) == key {
        NewGroupIsEmpty(s);
        AddedToGroup(s, GroupOf(s, m, key), RowsWithKey(s, rows, key), row);
      }
    }
  }

  /** Folding rows into an aggregate of others gives an aggregate of them all. */
  lemma {:induction false} AddRowsRepresent(s: Shape, m: GroupMap, p: seq<Row>, q: seq<Row>)
    requires s.Valid() && Represents(s, m, p) && RowsFit(s, q)
    ensures Represents(s, AddRows(s, m, q), p + q)
  {
    hide Represents, AddRow;
    RepresentedFits(s, m, p);
    if q == [] {
      assert p + q == p;
    } else {
      var front, last := q[..|q| - 1], q[|q| - 1];
      AddRowsRepresent(s, m, p, front);
      RepresentedFits(s, AddRows(s, m, front), p + front);
      AddRowRepresents(s, AddRows(s, m, front), p + front, last);
      assert p + front + [last] == p + q;
    }
  }

  lemma RepresentedFits(s: Shape, m: GroupMap, rows: seq<Row>)
    requires s.Valid() && Represents(s, m, rows)
    ensures AllFit(s, m) && RowsFit(s, rows)
  {
  }

  /** A group-by is an aggregate of its rows. */
  lemma GroupByMeaning(s: Shape, rows: seq<Row>)
    requires s.Valid() && RowsFit(s, rows)
    ensures Represents(s, GroupBy(s, rows), rows)
  {
    hide Represents, AddRows;
    NothingRepresented(s);
    AddRowsRepresent(s, map[], [], rows);
    assert [] + rows == rows;
  }

  /** Merging aggregates of two lists of rows gives an aggregate of them all. */
  lemma MergeRepresents(s: Shape, a: GroupMap, b: GroupMap, p: seq<Row>, q: seq<Row>)
    requires s.Valid() && Represents(s, a, p) && Represents(s, b, q)
    ensures Represents(s, MergeMaps(s, a, b), p + q)
  {
    hide IsGroupOf, MergeGroups, Fits, RowsWithKey;
    forall key
      ensures Accounts(s, MergeMaps(s, a, b), p + q, key)
    {
      assert Accounts(s, a, p, key) && Accounts(s, b, q, key);
      RowsWithKeyConcat(s, p, q, key);
      if key !in a {
        assert RowsWithKey(s, p + q, key) == RowsWithKey(s, q, key);
      } else if key !in b {
        assert RowsWithKey(s, p + q, key) == RowsWithKey(s, p, key);
      } else {
        MergedGroup(s, a[key], b[key], RowsWithKey(s, p, key), RowsWithKey(s, q, key));
      }
    }
  }

  lemma RepresentsAnyOrder(s: Shape, m: GroupMap, p: seq<Row>, q: seq<Row>)
    requires s.Valid() && Represents(s, m, p) && multiset(p) == multiset(q)
    ensures Represents(s, m, q)
  {
    hide IsGroupOf, Fits, RowsWithKey;
    RowsFitAnyOrder(s, p, q);
    forall key
      ensures Accounts(s, m, q, key)
    {
      assert Accounts(s, m, p, key);
      RowsWithKeyAnyOrder(s, p, q, key);
      var p', q' := RowsWithKey(s, p, key), RowsWithKey(s, q, key);
      assert |multiset(p')| == |multiset(q')|;
      if key in m {
        GroupAnyOrder(s, m[key], p', q');
      }
    }
  }

  lemma RowsFitAnyOrder(s: Shape, p: seq<Row>, q: seq<Row>)
    requires RowsFit(s, p) && multiset(p) == multiset(q)
    ensures RowsFit(s, q)
  {
    forall r | 0 <= r < |q|
      ensures |q[r]| == s.numColumns
    {
      assert q[r] in multiset(q);
      assert q[r] in p;
    }
  }

  /** An aggregate of some rows is still one after its digests were flushed. */
  lemma SettledRepresents(s: Shape, m: GroupMap, rows: seq<Row>)
    requires s.Valid() && Represents(s, m, rows)
    ensures Represents(s, SettledMap(s, m), rows)
  {
    hide Fits, IsGroupOf, SettledGroup, RowsWithKey;
    SettledMapFits(s, m);
    forall key
      ensures Accounts(s, SettledMap(s, m), rows, key)
    {
      assert Accounts(s, m, rows, key);
      if key in m {
        SettledIsGroupOf(s, m[key], RowsWithKey(s, rows, key));
      }
    }
  }

  lemma SettledIsGroupOf(s: Shape, g: Group, rows: seq<Row>)
    requires s.Valid() && RowsFit(s, rows) && IsGroupOf(s, g, rows)
    ensures IsGroupOf(s, SettledGroup(g, s.tools), rows)
  {
    hide D.Describes, MeasureColumn, Shape.WantsOf, D.Flushed;
    forall i | 0 <= i < |g.measures|
      ensures HasColumn(s, SettledGroup(g, s.tools).measures[i], rows, i)
    {
      assert HasColumn(s, g.measures[i], rows, i);
      if s.WantsOf(i).percentile {
        var xs := Samples(s.measureTypes[i], MeasureColumn(s, rows, i));
        D.FlushedDescribes(s.tools.digester, g.measures[i].digest.value, xs);
      }
    }
  }

  /** The order of events leaves no trace: no percentile is asked for, and in every group the
      float columns add up without rounding, if there are any. */
  ghost predicate Determined(s: Shape, rows: seq<Row>)
    requires s.Valid() && RowsFit(s, rows)
  {
    Distributable(s.spec) && forall key :: ColumnsAddExactly(s, RowsWithKey(s, rows, key))
  }

  lemma NoFloatsAreDetermined(s: Shape, rows: seq<Row>)
    requires s.Valid() && RowsFit(s, rows) && Distributable(s.spec)
    requires forall i :: 0 <= i < |s.measureTypes| ==> s.measureTypes[i] != TypeFloat64
    ensures Determined(s, rows)
  {
    hide RowsWithKey, MeasureColumn, Distributable;
  }

  /** Two aggregates of the same rows agree but for the states of digests and the rounding of float
      sums; without either they are equal. */
  lemma RepresentationsAgree(s: Shape, a: GroupMap, b: GroupMap, rows: seq<Row>)
    requires s.Valid() && Represents(s, a, rows) && Represents(s, b, rows)
    ensures a.Keys == b.Keys && forall key :: key in a ==> AgreeUpToOrder(a[key], b[key])
    ensures RowsFit(s, rows) && (Determined(s, rows) ==> a == b)
  {
    hide IsGroupOf, Fits, RowsWithKey, AgreeUpToOrder, Distributable, ColumnsAddExactly;
    forall key
      ensures key in a <==> key in b
      ensures key in a ==> AgreeUpToOrder(a[key], b[key])
      ensures key in a && Determined(s, rows) ==> a[key] == b[key]
    {
      assert Accounts(s, a, rows, key) && Accounts(s, b, rows, key);
      if key in a {
        GroupsAgree(s, a[key], b[key], RowsWithKey(s, rows, key));
      }
    }
  }

  // ---------- the laws of aggregation where order leaves no trace ----------

  /** The homomorphism: aggregating two parts and merging equals aggregating everything. */
  lemma MergeIsGroupByOfBoth(s: Shape, p: seq<Row>, q: seq<Row>)
    requires s.Valid() && RowsFit(s, p) && RowsFit(s, q)
    ensures RowsFit(s, p + q)
    ensures Determined(s, p + q) ==> MergeMaps(s, GroupBy(s, p), GroupBy(s, q)) == GroupBy(s, p + q)
  {
    hide MergeMaps, GroupBy, Represents, Determined;
    GroupByMeaning(s, p);
    GroupByMeaning(s, q);
    GroupByMeaning(s, p + q);
    MergeRepresents(s, GroupBy(s, p), GroupBy(s, q), p, q);
    RepresentationsAgree(s, MergeMaps(s, GroupBy(s, p), GroupBy(s, q)), GroupBy(s, p + q), p + q);
  }

  /** Any two arrival orders of the same rows give the same groups. */
  lemma GroupByDependsOnMultiset(s: Shape, p: seq<Row>, q: seq<Row>)
    requires s.Valid() && RowsFit(s, p) && Determined(s, p) && multiset(p) == multiset(q)
    ensures RowsFit(s, q) && GroupBy(s, p) == GroupBy(s, q)
  {
    hide GroupBy, Represents, Determined;
    RowsFitAnyOrder(s, p, q);
    GroupByMeaning(s, p);
    GroupByMeaning(s, q);
    RepresentsAnyOrder(s, GroupBy(s, q), q, p);
    RepresentationsAgree(s, GroupBy(s, p), GroupBy(s, q), p);
  }
}
