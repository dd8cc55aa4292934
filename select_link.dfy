/** Select-link analysis: the OD pairs whose paths use one chosen link, their
    full paths, and the link volumes of those paths; and the batch over a table
    of chosen links, which prepends each successful run's tables. */
module SelectLink {
  import opened Tables
  import opened Grouping
  import opened Aggregation

  /** The row traverses the link from `i` to `j`. */
  predicate OnLink(r: PathRow, i: Node, j: Node) {
    r.iNode == i && r.jNode == j
  }

  function OnLinkOf(i: Node, j: Node): PathRow -> bool {
    r => OnLink(r, i, j)
  }

  type OdKey = (Node, Node)

  function OdKeyOf(r: PathRow): OdKey { (r.originZone, r.destZone) }

  function SlaOdKey(p: SlaOdPair): OdKey { (p.originZone, p.destZone) }

  /** The distinct OD pairs of the rows that traverse the nominated link. */
  function LinkOds(rows: seq<PathRow>, link: NominatedLink): seq<OdKey> {
    DistinctKeys(Filter(rows, OnLinkOf(link.iNode, link.jNode)), OdKeyOf)
  }

  /** The OD-pair table of one run, each pair tagged with the nominated link's description. */
  function SlaOdPairsOf(rows: seq<PathRow>, link: NominatedLink): seq<SlaOdPair> {
    Map(LinkOds(rows, link), OdPairRow(link.locationDesc))
  }

  /** An OD pair as a row of the OD-pair table, tagged with a description. */
  function OdPairRow(desc: string): OdKey -> SlaOdPair {
    (k: OdKey) => SlaOdPair(k.0, k.1, desc)
  }

  /** The OD-pair rows with the same OD pair as `r`. */
  function SameOd(r: PathRow): SlaOdPair -> bool {
    p => SlaOdKey(p) == OdKeyOf(r)
  }

  /** The inner join of one path row with the OD-pair table on
      `(origin_zone, dest_zone)`. */
  function JoinOd(odPairs: seq<SlaOdPair>): PathRow -> seq<SlaPathRow> {
    (r: PathRow) => Map(Filter(odPairs, SameOd(r)), MergeOd(r))
  }

  /** A path row merged with a matching OD-pair row: the row and its description. */
  function MergeOd(r: PathRow): SlaOdPair -> SlaPathRow {
    (p: SlaOdPair) => SlaPathRow(r, p.locationDesc)
  }

  /** The inner join of the path table with the OD-pair table, in path-table order. */
  function SlaPaths(rows: seq<PathRow>, odPairs: seq<SlaOdPair>): seq<SlaPathRow> {
    ConcatMap(rows, JoinOd(odPairs))
  }

  function PathOf(r: SlaPathRow): PathRow { r.path }

  /** The link volumes of the select-link paths, tagged with the description. */
  function SlaLinksOf(paths: seq<SlaPathRow>, desc: string): seq<SlaLinkRow> {
    Map(LinkResults(Map(paths, PathOf)), l => SlaLinkRow(desc, l))
  }

  /** One select-link run over a path table. */
  function RunSelectLink(rows: seq<PathRow>, link: NominatedLink): SlaResult {
    var odPairs := SlaOdPairsOf(rows, link);
    var paths := SlaPaths(rows, odPairs);
    SlaResult(odPairs, paths, SlaLinksOf(paths, link.locationDesc))
  }

  /** Some row with this OD pair traverses the link from `i` to `j`. */
  ghost predicate OdUsesLink(rows: seq<PathRow>, i: Node, j: Node, k: OdKey) {
    exists m :: 0 <= m < |rows| && OnLink(rows[m], i, j) && OdKeyOf(rows[m]) == k
  }

  /** An OD pair is among the nominated link's OD pairs exactly when one of its rows
      traverses the link. */
  lemma {:induction false} LinkOdsExact(rows: seq<PathRow>, link: NominatedLink, k: OdKey)
    ensures k in LinkOds(rows, link) <==> OdUsesLink(rows, link.iNode, link.jNode, k)
  {
    var on := Filter(rows, OnLinkOf(link.iNode, link.jNode));
    if k in LinkOds(rows, link) {
      var n :| 0 <= n < |on| && OdKeyOf(on[n]) == k;
      assert on[n] in rows;
      var m :| 0 <= m < |rows| && rows[m] == on[n];
    }
    if OdUsesLink(rows, link.iNode, link.jNode, k) {
      var m :| 0 <= m < |rows| && OnLink(rows[m], link.iNode, link.jNode) && OdKeyOf(rows[m]) == k;
      assert rows[m] in on;
      var n :| 0 <= n < |on| && on[n] == rows[m];
      assert Occurs(on, OdKeyOf, k);
    }
  }

  /** The OD-pair table is exactly the distinct OD pairs having a row on the
      link, each once and tagged with the nominated link's description. */
  lemma {:induction false} SlaOdPairsExact(rows: seq<PathRow>, link: NominatedLink)
    ensures var ods := SlaOdPairsOf(rows, link);
      forall k :: (exists n :: 0 <= n < |ods| && SlaOdKey(ods[n]) == k) <==> OdUsesLink(rows, link.iNode, link.jNode, k)
    ensures var ods := SlaOdPairsOf(rows, link);
      forall a, b :: 0 <= a < b < |ods| ==> SlaOdKey(ods[a]) != SlaOdKey(ods[b])
    ensures var ods := SlaOdPairsOf(rows, link);
      forall n :: 0 <= n < |ods| ==> ods[n].locationDesc == link.locationDesc
  {
    var ks := LinkOds(rows, link);
    var ods := SlaOdPairsOf(rows, link);
    assert forall n :: 0 <= n < |ods| ==> SlaOdKey(ods[n]) == ks[n];
    forall k ensures (exists n :: 0 <= n < |ods| && SlaOdKey(ods[n]) == k) <==> OdUsesLink(rows, link.iNode, link.jNode, k) {
      LinkOdsExact(rows, link, k);
      if k in ks {
        var n :| 0 <= n < |ks| && ks[n] == k;
        assert SlaOdKey(ods[n]) == k;
      }
    }
  }

  /** Joining a row with an OD-pair table whose pairs are distinct and all
      carry `desc` gives the row tagged with `desc` when its OD pair is in the
      table, and nothing otherwise. */
  lemma {:induction false} JoinOdDistinct(ods: seq<SlaOdPair>, desc: string, r: PathRow)
    requires forall a, b :: 0 <= a < b < |ods| ==> SlaOdKey(ods[a]) != SlaOdKey(ods[b])
    requires forall n :: 0 <= n < |ods| ==> ods[n].locationDesc == desc
    ensures JoinOd(ods)(r) == if Occurs(ods, SlaOdKey, OdKeyOf(r)) then [SlaPathRow(r, desc)] else []
  {
    if Occurs(ods, SlaOdKey, OdKeyOf(r)) {
      var n :| 0 <= n < |ods| && SlaOdKey(ods[n]) == OdKeyOf(r);
      JoinOdHit(ods, desc, r, n);
    } else {
      FilterNone(ods, SameOd(r));
    }
  }

  /** A row whose OD pair is the pair at `n` of a distinct table joins to it once. */
  lemma {:induction false} JoinOdHit(ods: seq<SlaOdPair>, desc: string, r: PathRow, n: nat)
    requires forall a, b :: 0 <= a < b < |ods| ==> SlaOdKey(ods[a]) != SlaOdKey(ods[b])
    requires n < |ods| && SlaOdKey(ods[n]) == OdKeyOf(r) && ods[n].locationDesc == desc
    ensures JoinOd(ods)(r) == [SlaPathRow(r, desc)]
  {
    OnlyMatch(ods, r, n);
    var hits := Filter(ods, SameOd(r));
    assert JoinOd(ods)(r) == Map(hits, MergeOd(r));
    assert Map(hits, MergeOd(r))[0] == SlaPathRow(r, desc);
  }

  /** In an OD-pair table with distinct pairs, the pair at `n` is the only one
      matching a row with that OD pair. */
  lemma {:induction false} OnlyMatch(ods: seq<SlaOdPair>, r: PathRow, n: nat)
    requires forall a, b :: 0 <= a < b < |ods| ==> SlaOdKey(ods[a]) != SlaOdKey(ods[b])
    requires n < |ods| && SlaOdKey(ods[n]) == OdKeyOf(r)
    ensures Filter(ods, SameOd(r)) == [ods[n]]
  {
    var p := SameOd(r);
    forall m | 0 <= m < |ods| && m != n ensures !p(ods[m]) {
      if m < n {
        assert SlaOdKey(ods[m]) != SlaOdKey(ods[n]);
      } else {
        assert SlaOdKey(ods[n]) != SlaOdKey(ods[m]);
      }
    }
    FilterSingle(ods, p, n);
  }

  /** Joining one path row with the OD-pair table gives the row tagged with
      the description when its OD pair used the link, and nothing otherwise. */
  lemma {:induction false} JoinOdOne(rows: seq<PathRow>, link: NominatedLink, r: PathRow)
    ensures JoinOd(SlaOdPairsOf(rows, link))(r)
      == if OdKeyOf(r) in LinkOds(rows, link) then [SlaPathRow(r, link.locationDesc)] else []
  {
    OdPairRowsDistinct(LinkOds(rows, link), link.locationDesc);
    JoinOdDistinct(SlaOdPairsOf(rows, link), link.locationDesc, r);
  }

  /** Tagging a list of distinct OD pairs gives an OD-pair table with the
      same pairs, each once, all carrying the description. */
  lemma {:induction false} OdPairRowsDistinct(ks: seq<OdKey>, desc: string)
    requires Distinct(ks)
    ensures var ods := Map(ks, OdPairRow(desc));
      && (forall a, b :: 0 <= a < b < |ods| ==> SlaOdKey(ods[a]) != SlaOdKey(ods[b]))
      && (forall n :: 0 <= n < |ods| ==> ods[n].locationDesc == desc)
      && (forall k :: Occurs(ods, SlaOdKey, k) <==> k in ks)
  {
    var ods := Map(ks, OdPairRow(desc));
    assert forall n :: 0 <= n < |ods| ==> SlaOdKey(ods[n]) == ks[n];
    forall k | k in ks ensures Occurs(ods, SlaOdKey, k) {
      var n :| 0 <= n < |ks| && ks[n] == k;
      assert SlaOdKey(ods[n]) == k;
    }
  }

  /** The rows whose OD pair is among the nominated link's OD pairs. */
  function UsesLinkOd(rows: seq<PathRow>, link: NominatedLink): PathRow -> bool {
    r => OdKeyOf(r) in LinkOds(rows, link)
  }

  function Tag(desc: string): PathRow -> SlaPathRow {
    r => SlaPathRow(r, desc)
  }

  /** The select-link path table is exactly the path rows, in table order,
      whose OD pair has a row on the link, each tagged with the description. */
  lemma {:induction false} SlaPathsExact(rows: seq<PathRow>, link: NominatedLink)
    ensures RunSelectLink(rows, link).paths
      == Map(Filter(rows, UsesLinkOd(rows, link)), Tag(link.locationDesc))
  {
    forall r ensures JoinOd(SlaOdPairsOf(rows, link))(r)
      == if UsesLinkOd(rows, link)(r) then [Tag(link.locationDesc)(r)] else []
    {
      JoinOdOne(rows, link, r);
    }
    ConcatMapAsFilter(rows, JoinOd(SlaOdPairsOf(rows, link)), UsesLinkOd(rows, link), Tag(link.locationDesc));
  }

  /** Hence every select-link path row is a path row of an OD pair that used the
      link, tagged with the description, and every row of such a pair is there. */
  lemma {:induction false} SlaPathsMember(rows: seq<PathRow>, link: NominatedLink, x: SlaPathRow)
    ensures x in RunSelectLink(rows, link).paths <==>
      x.path in rows && x.locationDesc == link.locationDesc
      && OdUsesLink(rows, link.iNode, link.jNode, OdKeyOf(x.path))
  {
    SlaPathsExact(rows, link);
    var tag := Tag(link.locationDesc);
    var keep := UsesLinkOd(rows, link);
    MapFilterMember(rows, keep, tag, x);
    LinkOdsExact(rows, link, OdKeyOf(x.path));
    assert (exists r :: r in rows && keep(r) && tag(r) == x) <==> x.path in rows && keep(x.path) && x.locationDesc == link.locationDesc;
  }

  function SlaLinkDemand(l: SlaLinkRow): real { l.link.demand }

  function SlaPathDemand(r: SlaPathRow): real { r.path.demand }

  /** The select-link volumes conserve the demand of the select-link paths. */
  lemma {:induction false} SlaLinksConserveDemand(paths: seq<SlaPathRow>, desc: string)
    ensures Total(SlaLinksOf(paths, desc), SlaLinkDemand) == Total(paths, SlaPathDemand)
  {
    var rows := Map(paths, PathOf);
    LinkDemandConserved(rows);
    TotalMap(LinkResults(rows), l => SlaLinkRow(desc, l), SlaLinkDemand, LinkDemand);
    TotalMap(paths, PathOf, Demand, SlaPathDemand);
  }

  // ---------------------------------------------------------------- the batch

  /** A run's failure (of the file writes and reads around it) is an oracle
      on the row of the select-link input table. */
  type Failure = NominatedLink -> bool

  function OdPairsBlock(rows: seq<PathRow>, fails: Failure): NominatedLink -> seq<SlaOdPair> {
    s => if fails(s) then [] else RunSelectLink(rows, s).odPairs
  }

  function PathsBlock(rows: seq<PathRow>, fails: Failure): NominatedLink -> seq<SlaPathRow> {
    s => if fails(s) then [] else RunSelectLink(rows, s).paths
  }

  function LinksBlock(rows: seq<PathRow>, fails: Failure): NominatedLink -> seq<SlaLinkRow> {
    s => if fails(s) then [] else RunSelectLink(rows, s).links
  }

  /** The batch's three accumulated tables: each successful run's table is
      prepended to the tables so far. */
  function SlaBatch(rows: seq<PathRow>, nominated: seq<NominatedLink>, fails: Failure): SlaResult {
    SlaResult(
      RevConcatMap(nominated, OdPairsBlock(rows, fails)),
      RevConcatMap(nominated, PathsBlock(rows, fails)),
      RevConcatMap(nominated, LinksBlock(rows, fails)))
  }

  /** The batch output is in reverse input order: the tables of a later block
      of nominated links come before those of an earlier one. */
  lemma {:induction false} SlaBatchReversed(rows: seq<PathRow>, s1: seq<NominatedLink>, s2: seq<NominatedLink>, fails: Failure)
    ensures SlaBatch(rows, s1 + s2, fails).odPairs == SlaBatch(rows, s2, fails).odPairs + SlaBatch(rows, s1, fails).odPairs
    ensures SlaBatch(rows, s1 + s2, fails).paths == SlaBatch(rows, s2, fails).paths + SlaBatch(rows, s1, fails).paths
    ensures SlaBatch(rows, s1 + s2, fails).links == SlaBatch(rows, s2, fails).links + SlaBatch(rows, s1, fails).links
  {
    RevConcatMapAppend(s1, s2, OdPairsBlock(rows, fails));
    RevConcatMapAppend(s1, s2, PathsBlock(rows, fails));
    RevConcatMapAppend(s1, s2, LinksBlock(rows, fails));
  }

  /** A failing nominated link contributes nothing and does not stop the batch. */
  lemma {:induction false} SlaBatchSkipsFailure(rows: seq<PathRow>, s1: seq<NominatedLink>, link: NominatedLink, s2: seq<NominatedLink>, fails: Failure)
    requires fails(link)
    ensures SlaBatch(rows, s1 + [link] + s2, fails) == SlaBatch(rows, s1 + s2, fails)
  {
    RevConcatMapSkip(s1, link, s2, OdPairsBlock(rows, fails));
    RevConcatMapSkip(s1, link, s2, PathsBlock(rows, fails));
    RevConcatMapSkip(s1, link, s2, LinksBlock(rows, fails));
  }

  /** Every row of the batch's path table comes from a successful run: it is a
      path row whose OD pair used that run's link, tagged with that run's
      description; and every such row of every successful run is there. */
  lemma {:induction false} SlaBatchPathsExact(rows: seq<PathRow>, nominated: seq<NominatedLink>, fails: Failure, x: SlaPathRow)
    ensures x in SlaBatch(rows, nominated, fails).paths <==>
      exists n :: 0 <= n < |nominated| && !fails(nominated[n])
        && x.path in rows && x.locationDesc == nominated[n].locationDesc
        && OdUsesLink(rows, nominated[n].iNode, nominated[n].jNode, OdKeyOf(x.path))
  {
    RevConcatMapMember(nominated, PathsBlock(rows, fails), x);
    forall n | 0 <= n < |nominated|
      ensures x in PathsBlock(rows, fails)(nominated[n]) <==>
        !fails(nominated[n]) && x.path in rows && x.locationDesc == nominated[n].locationDesc
        && OdUsesLink(rows, nominated[n].iNode, nominated[n].jNode, OdKeyOf(x.path))
    {
      SlaPathsMember(rows, nominated[n], x);
    }
  }

  /** One run of the batch: its three tables, or a failure. */
  function SlaRun(rows: seq<PathRow>, fails: Failure): NominatedLink -> Result<SlaResult> {
    s => if fails(s) then Err(RunFailed) else Ok(RunSelectLink(rows, s))
  }

  /** One more nominated link prepends its blocks to the batch tables (empty blocks
      when it fails). */
  lemma {:induction false} SlaBatchSnoc(rows: seq<PathRow>, nominated: seq<NominatedLink>, link: NominatedLink, fails: Failure)
    ensures var b := SlaBatch(rows, nominated, fails);
      SlaBatch(rows, nominated + [link], fails)
        == SlaResult(OdPairsBlock(rows, fails)(link) + b.odPairs, PathsBlock(rows, fails)(link) + b.paths,
                     LinksBlock(rows, fails)(link) + b.links)
  {
    RevConcatMapSnoc(nominated, link, OdPairsBlock(rows, fails));
    RevConcatMapSnoc(nominated, link, PathsBlock(rows, fails));
    RevConcatMapSnoc(nominated, link, LinksBlock(rows, fails));
  }
}
