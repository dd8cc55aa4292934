/** The reducers over a path-edge table: link volumes (total demand per
    traversed link) and the cost matrix (mean demand and summed length per
    OD pair). */
module Aggregation {
  import opened Tables
  import opened Grouping
  import opened OdPair

  function Demand(r: PathRow): real { r.demand }

  function Length(r: PathRow): real { r.lengthMetres }

  /** Person-kilometres of a demand over a length given in metres. */
  function PersonKm(demand: real, lengthMetres: real): real {
    demand * (lengthMetres / 1000.0)
  }

  /** The person-kilometres a single path row contributes. */
  function RowPersonKm(r: PathRow): real { PersonKm(r.demand, r.lengthMetres) }

  // ---------------------------------------------------------------- link volumes

  /** The link-volume grouping key `(i_node, j_node, length_metres, WKT)`. */
  type LinkKey = (Node, Node, real, string)

  function LinkKeyOf(r: PathRow): LinkKey { (r.iNode, r.jNode, r.lengthMetres, r.wkt) }

  function LinkRowKey(l: LinkRow): LinkKey { (l.iNode, l.jNode, l.lengthMetres, l.wkt) }

  function LinkDemand(l: LinkRow): real { l.demand }

  function LinkPersonKm(l: LinkRow): real { l.personKm }

  /** The link-volume row of one key: the summed demand and its person-km. */
  function LinkRowOf(rows: seq<PathRow>, k: LinkKey): LinkRow {
    var s := SumWhere(rows, LinkKeyOf, k, Demand);
    LinkRow(k.0, k.1, k.2, k.3, s, PersonKm(s, k.2))
  }

  /** The link-volume table of a path-edge table. */
  function LinkResults(rows: seq<PathRow>): seq<LinkRow> {
    Map(DistinctKeys(rows, LinkKeyOf), k => LinkRowOf(rows, k))
  }

  /** The link-volume table has one row per distinct link key of the path
      rows and no other: a link no path traverses is absent. Each row's demand
      is the sum of demand over the path rows with its key, and its person-km
      is that demand times its length in kilometres. */
  lemma {:induction false} LinkResultsRows(rows: seq<PathRow>)
    ensures var r := LinkResults(rows);
      forall a, b :: 0 <= a < b < |r| ==> LinkRowKey(r[a]) != LinkRowKey(r[b])
    ensures var r := LinkResults(rows);
      forall k :: (exists i :: 0 <= i < |r| && LinkRowKey(r[i]) == k) <==> Occurs(rows, LinkKeyOf, k)
    ensures var r := LinkResults(rows);
      forall i :: 0 <= i < |r| ==>
        && r[i].demand == SumWhere(rows, LinkKeyOf, LinkRowKey(r[i]), Demand)
        && r[i].personKm == r[i].demand * (r[i].lengthMetres / 1000.0)
  {
    var ks := DistinctKeys(rows, LinkKeyOf);
    var r := LinkResults(rows);
    assert forall i :: 0 <= i < |r| ==> LinkRowKey(r[i]) == ks[i];
    forall k | Occurs(rows, LinkKeyOf, k) ensures exists i :: 0 <= i < |r| && LinkRowKey(r[i]) == k {
      var i :| 0 <= i < |ks| && ks[i] == k;
      assert LinkRowKey(r[i]) == k;
    }
  }

  /** Link volumes conserve demand: the link demands add up to the demand of
      all path rows. */
  lemma {:induction false} LinkDemandConserved(rows: seq<PathRow>)
    ensures Total(LinkResults(rows), LinkDemand) == Total(rows, Demand)
  {
    var ks := DistinctKeys(rows, LinkKeyOf);
    MapTotal(rows, LinkKeyOf, Demand, ks, k => LinkRowOf(rows, k), LinkDemand);
    GroupTotal(rows, LinkKeyOf, Demand);
  }

  /** Link volumes conserve person-kilometres: the link person-km add up to
      the person-km of all path rows. */
  lemma {:induction false} LinkPersonKmConserved(rows: seq<PathRow>)
    ensures Total(LinkResults(rows), LinkPersonKm) == Total(rows, RowPersonKm)
  {
    var ks := DistinctKeys(rows, LinkKeyOf);
    var f := k => LinkRowOf(rows, k);
    forall k | k in ks ensures LinkPersonKm(f(k)) == SumWhere(rows, LinkKeyOf, k, RowPersonKm) {
      SumWhereScale(rows, LinkKeyOf, k, Demand, RowPersonKm, k.2 / 1000.0);
    }
    MapTotal(rows, LinkKeyOf, RowPersonKm, ks, f, LinkPersonKm);
    GroupTotal(rows, LinkKeyOf, RowPersonKm);
  }

  // ---------------------------------------------------------------- cost matrix

  /** The cost-matrix grouping key `(od_pair, origin_zone, dest_zone)`. */
  type CostKey = (Option<string>, Node, Node)

  function CostKeyOf(r: PathRow): CostKey { (r.odPair, r.originZone, r.destZone) }

  /** A row with a missing `od_pair` has no group: the grouping drops it. */
  predicate Labelled(r: PathRow) { r.odPair.Some? }

  /** The cost-matrix row of one key: mean demand and summed length. */
  function CostRowOf(rows: seq<PathRow>, k: CostKey): CostRow {
    CostRow(k.1, k.2, MeanWhere(rows, CostKeyOf, k, Demand), SumWhere(rows, CostKeyOf, k, Length))
  }

  /** The cost matrix of a path-edge table. */
  function CostMatrix(rows: seq<PathRow>): seq<CostRow> {
    var labelled := Filter(rows, Labelled);
    Map(DistinctKeys(labelled, CostKeyOf), k => CostRowOf(labelled, k))
  }

  /** The cost matrix has one row per distinct `(od_pair, origin, dest)` of the
      labelled path rows, in the order of `ks`; each row's demand is the mean
      demand of that group and its length the summed length of the group. */
  lemma {:induction false} CostMatrixGroups(rows: seq<PathRow>) returns (ks: seq<CostKey>)
    ensures |ks| == |CostMatrix(rows)| && Distinct(ks)
    ensures forall k :: k in ks <==> k.0.Some? && Occurs(rows, CostKeyOf, k)
    ensures forall i :: 0 <= i < |ks| ==>
      && CostMatrix(rows)[i].originZone == ks[i].1
      && CostMatrix(rows)[i].destZone == ks[i].2
      && CostMatrix(rows)[i].demand == MeanWhere(rows, CostKeyOf, ks[i], Demand)
      && CostMatrix(rows)[i].lengthMetres == SumWhere(rows, CostKeyOf, ks[i], Length)
  {
    var labelled := Filter(rows, Labelled);
    ks := DistinctKeys(labelled, CostKeyOf);
    LabelledKeys(rows);
    forall i | 0 <= i < |ks|
      ensures CostMatrix(rows)[i].demand == MeanWhere(rows, CostKeyOf, ks[i], Demand)
      ensures CostMatrix(rows)[i].lengthMetres == SumWhere(rows, CostKeyOf, ks[i], Length)
    {
      assert ks[i].0.Some?;
      FilterKeepsGroup(rows, Labelled, CostKeyOf, ks[i], Demand);
      FilterKeepsGroup(rows, Labelled, CostKeyOf, ks[i], Length);
    }
  }

  /** The keys of the labelled rows are the keys of the table whose label is
      present. */
  lemma {:induction false} LabelledKeys(rows: seq<PathRow>)
    ensures forall k :: Occurs(Filter(rows, Labelled), CostKeyOf, k) <==> k.0.Some? && Occurs(rows, CostKeyOf, k)
  {
    var labelled := Filter(rows, Labelled);
    forall k ensures Occurs(labelled, CostKeyOf, k) <==> k.0.Some? && Occurs(rows, CostKeyOf, k) {
      if Occurs(labelled, CostKeyOf, k) {
        var n :| 0 <= n < |labelled| && CostKeyOf(labelled[n]) == k;
        assert labelled[n] in rows;
        var m :| 0 <= m < |rows| && rows[m] == labelled[n];
      }
      if k.0.Some? && Occurs(rows, CostKeyOf, k) {
        var m :| 0 <= m < |rows| && CostKeyOf(rows[m]) == k;
        assert rows[m] in labelled;
        var n :| 0 <= n < |labelled| && labelled[n] == rows[m];
      }
    }
  }

  /** On a table whose labels are the `od_pair` stamps of their own zones, the
      cost matrix has each OD pair at most once. */
  lemma {:induction false} CostMatrixOdDistinct(rows: seq<PathRow>, how: Rendering)
    requires forall n :: 0 <= n < |rows| && rows[n].odPair.Some? ==>
      rows[n].odPair.value == OdPairString(how, rows[n].originZone, rows[n].destZone)
    ensures var m := CostMatrix(rows);
      forall a, b :: 0 <= a < b < |m| ==> (m[a].originZone, m[a].destZone) != (m[b].originZone, m[b].destZone)
  {
    var ks := CostMatrixGroups(rows);
    forall k | k in ks ensures k.0 == Some(OdPairString(how, k.1, k.2)) {
      var n :| 0 <= n < |rows| && CostKeyOf(rows[n]) == k;
    }
  }

  /** The cost matrix of a single route: one row with the route's OD pair, the
      route's demand and its total length. */
  lemma {:induction false} CostMatrixSingleRoute(rows: seq<PathRow>, odLabel: string, o: Node, d: Node, demand: real)
    requires |rows| > 0
    requires forall n :: 0 <= n < |rows| ==>
      rows[n].odPair == Some(odLabel) && rows[n].originZone == o && rows[n].destZone == d
      && rows[n].demand == demand
    ensures CostMatrix(rows) == [CostRow(o, d, demand, Total(rows, Length))]
  {
    var k := (Some(odLabel), o, d);
    FilterAllKept(rows, Labelled);
    var f := k => CostRowOf(rows, k);
    SingleGroup(rows, CostKeyOf, k, Length);
    assert CostMatrix(rows) == Map(DistinctKeys(rows, CostKeyOf), f);
    assert CostMatrix(rows) == [f(k)];
    assert CostKeyOf(rows[0]) == k;
    ConstantGroupMean(rows, CostKeyOf, k, Demand, demand);
  }
}
