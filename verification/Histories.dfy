/** How a map of groups came about: rows folded in, maps merged and reports made, in any
    arrangement. */
module Histories {
  import opened Values
  import opened Quantiles
  import opened Digests
  import A = Accumulators
  import opened Groups
  import opened Representations

  /** A report flushes every digest, and changes nothing else. */
  datatype History =
    | Nothing
    | Adding(before: History, rows: seq<Row>)
    | Reporting(before: History)
    | Merging(left: History, right: History)

  ghost predicate HistoryFits(s: Shape, h: History) {
    match h
    case Nothing => true
    case Adding(before, rows) => HistoryFits(s, before) && RowsFit(s, rows)
    case Reporting(before) => HistoryFits(s, before)
    case Merging(left, right) => HistoryFits(s, left) && HistoryFits(s, right)
  }

  ghost function Made(s: Shape, h: History): (m: GroupMap)
    requires s.Valid() && HistoryFits(s, h)
    ensures AllFit(s, m)
  {
    match h
    case Nothing => map[]
    case Adding(before, rows) => AddRows(s, Made(s, before), rows)
    case Reporting(before) =>
      SettledMapFits(s, Made(s, before));
      SettledMap(s, Made(s, before))
    case Merging(left, right) => MergeMaps(s, Made(s, left), Made(s, right))
  }

  function Taken(h: History): seq<Row> {
    match h
    case Nothing => []
    case Adding(before, rows) => Taken(before) + rows
    case Reporting(before) => Taken(before)
    case Merging(left, right) => Taken(left) + Taken(right)
  }

  /** Whatever the history, the map is an aggregate of exactly the rows taken in. */
  lemma {:induction false} HistoryMeaning(s: Shape, h: History)
    requires s.Valid() && HistoryFits(s, h)
    ensures Represents(s, Made(s, h), Taken(h))
  {
    hide Represents, AddRows, MergeMaps, SettledMap, AllFit;
    match h {
      case Nothing =>
        NothingRepresented(s);
      case Adding(before, rows) =>
        HistoryMeaning(s, before);
        AddRowsRepresent(s, Made(s, before), Taken(before), rows);
      case Reporting(before) =>
        HistoryMeaning(s, before);
        SettledRepresents(s, Made(s, before), Taken(before));
      case Merging(left, right) =>
        HistoryMeaning(s, left);
        HistoryMeaning(s, right);
        MergeRepresents(s, Made(s, left), Made(s, right), Taken(left), Taken(right));
    }
  }

  /** Two histories of the same rows agree but for the states of digests and the rounding of float
      sums; without either they make the same map. */
  lemma HistoriesAgree(s: Shape, h: History, k: History)
    requires s.Valid() && HistoryFits(s, h) && HistoryFits(s, k) && multiset(Taken(h)) == multiset(Taken(k))
    ensures Made(s, h).Keys == Made(s, k).Keys
    ensures forall key :: key in Made(s, h) ==> AgreeUpToOrder(Made(s, h)[key], Made(s, k)[key])
    ensures RowsFit(s, Taken(k)) && (Determined(s, Taken(k)) ==> Made(s, h) == Made(s, k))
  {
    hide Represents, Made, AgreeUpToOrder, Determined;
    HistoryMeaning(s, h);
    HistoryMeaning(s, k);
    RepresentsAnyOrder(s, Made(s, h), Taken(h), Taken(k));
    RepresentationsAgree(s, Made(s, h), Made(s, k), Taken(k));
  }

  // ---------- digests after any history ----------

  /** What the rows of a group offer the digest of one of its measures. */
  function Offered(s: Shape, rows: seq<Row>, key: Key, i: nat): seq<Sample>
    requires s.Valid() && RowsFit(s, rows) && i < |s.measureTypes|
  {
    A.Samples(s.measureTypes[i], MeasureColumn(s, RowsWithKey(s, rows, key), i))
  }

  lemma DigestOf(s: Shape, m: GroupMap, rows: seq<Row>, key: Key, i: nat)
    requires s.Valid() && Represents(s, m, rows) && key in m && i < |s.measureTypes| && s.WantsOf(i).percentile
    ensures RowsFit(s, rows) && |m[key].measures| == |s.measureTypes| && m[key].measures[i].digest.Some?
    ensures Describes(m[key].measures[i].digest.value, Offered(s, rows, key, i))
  {
    hide RowsWithKey, MeasureColumn, Describes, Fits, Shape.WantsOf, AllFit;
    assert Accounts(s, m, rows, key);
    assert HasColumn(s, m[key].measures[i], RowsWithKey(s, rows, key), i);
  }

  /** In every aggregate of some rows, and so after any history, the digest of a group weighs
      exactly the numbers of the group's column, keeps at most 99 centroids, and estimates
      percentiles that never decrease and lie between the least and the greatest of them; of no
      numbers it estimates NaN. */
  lemma PercentilesMeaning(s: Shape, m: GroupMap, rows: seq<Row>, key: Key, i: nat, p: real, q: real)
    requires s.Valid() && Represents(s, m, rows) && key in m && i < |s.measureTypes| && s.WantsOf(i).percentile
    requires 0.0 <= p <= q <= 1.0 && Infinite !in Offered(s, rows, key, i)
    ensures |m[key].measures| == |s.measureTypes| && m[key].measures[i].digest.Some?
    ensures var d, vs := m[key].measures[i].digest.value, NumbersIn(Offered(s, rows, key, i));
            var x, y := Estimate(s.tools.digester, d, Number(p)), Estimate(s.tools.digester, d, Number(q));
            && Summarises(d, vs) && |d.centroids| <= 99
            && (vs == [] ==> x.NaN? && y.NaN?)
            && (vs != [] ==>
                  x.Number? && y.Number? && IsMin(vs, d.min) && IsMax(vs, d.max) && d.min <= x.v <= y.v <= d.max)
  {
    hide Represents, Offered, Summarises, Estimate, NumbersIn, IsMin, IsMax;
    DigestOf(s, m, rows, key, i);
    var d, vs := m[key].measures[i].digest.value, NumbersIn(Offered(s, rows, key, i));
    EstimateMeaning(s.tools.digester, d, vs, p, q);
    EstimateMeaning(s.tools.digester, d, vs, q, q);
  }
}
