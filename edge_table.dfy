/** The edge table builder: the link and connector tables are made
    direction-symmetric by adding, for every row, the row with its endpoints
    and their coordinates swapped. The reverse rows come first. */
module EdgeTable {
  import opened Tables

  /** The same link in the opposite direction: the endpoint ids and their x/y
      coordinates swap, every other column is kept. */
  function Reverse(l: Link): (r: Link)
    ensures r.iNode == l.jNode && r.jNode == l.iNode
    ensures r.iNodeX == l.jNodeX && r.iNodeY == l.jNodeY
    ensures r.jNodeX == l.iNodeX && r.jNodeY == l.iNodeY
    ensures r.costMinutes == l.costMinutes && r.lengthMetres == l.lengthMetres && r.wkt == l.wkt
  {
    Link(l.jNode, l.iNode, l.jNodeX, l.jNodeY, l.iNodeX, l.iNodeY, l.costMinutes, l.lengthMetres, l.wkt)
  }

  /** Reversing twice gives the row back. */
  lemma {:induction false} ReverseInvolutive(l: Link)
    ensures Reverse(Reverse(l)) == l
  {
  }

  /** The full link table: every input row reversed, then every input row. */
  function GetNetwork(links: seq<Link>): (r: seq<Link>)
    ensures |r| == 2 * |links|
    ensures forall k :: 0 <= k < |links| ==> r[k] == Reverse(links[k]) && r[|links| + k] == links[k]
  {
    seq(|links|, k requires 0 <= k < |links| => Reverse(links[k])) + links
  }

  /** Symmetry invariant of the full link table: for every row, its reverse is
      a row too, so both directions of every physical link are present. */
  lemma {:induction false} NetworkSymmetric(links: seq<Link>)
    ensures forall e :: e in GetNetwork(links) ==> Reverse(e) in GetNetwork(links)
  {
    var full := GetNetwork(links);
    forall e | e in full ensures Reverse(e) in full {
      var n :| 0 <= n < |full| && full[n] == e;
      if n < |links| {
        ReverseInvolutive(links[n]);
        assert full[|links| + n] == Reverse(e);
      } else {
        assert full[n - |links|] == Reverse(e);
      }
    }
  }

  /** A connector in its forward direction: zone to `i_node`, node to `j_node`. */
  function ForwardConnector(c: Connector): (r: Link)
    ensures r.iNode == c.zoneId && r.iNodeX == c.zoneX && r.iNodeY == c.zoneY
    ensures r.jNode == c.nodeId && r.jNodeX == c.nodeX && r.jNodeY == c.nodeY
    ensures r.costMinutes == c.costMinutes && r.lengthMetres == c.lengthMetres && r.wkt == c.wkt
  {
    Link(c.zoneId, c.nodeId, c.zoneX, c.zoneY, c.nodeX, c.nodeY, c.costMinutes, c.lengthMetres, c.wkt)
  }

  /** A connector in its reverse direction: node to `i_node`, zone to `j_node`. */
  function ReverseConnector(c: Connector): (r: Link)
    ensures r == Reverse(ForwardConnector(c))
    ensures r.iNode == c.nodeId && r.jNode == c.zoneId
  {
    Link(c.nodeId, c.zoneId, c.nodeX, c.nodeY, c.zoneX, c.zoneY, c.costMinutes, c.lengthMetres, c.wkt)
  }

  /** The full connector table: every connector reversed, then every connector forward. */
  function GetConnectors(connectors: seq<Connector>): (r: seq<Link>)
    ensures |r| == 2 * |connectors|
    ensures forall k :: 0 <= k < |connectors| ==>
      r[k] == ReverseConnector(connectors[k]) && r[|connectors| + k] == ForwardConnector(connectors[k])
  {
    seq(|connectors|, k requires 0 <= k < |connectors| => ReverseConnector(connectors[k]))
    + seq(|connectors|, k requires 0 <= k < |connectors| => ForwardConnector(connectors[k]))
  }

  /** Renaming first and then symmetrising is the link symmetrisation applied
      to the renamed table. */
  lemma {:induction false} ConnectorsAreRenamedNetwork(connectors: seq<Connector>)
    ensures GetConnectors(connectors)
      == GetNetwork(seq(|connectors|, k requires 0 <= k < |connectors| => ForwardConnector(connectors[k])))
  {
  }

  /** Symmetry invariant of the full connector table. */
  lemma {:induction false} ConnectorsSymmetric(connectors: seq<Connector>)
    ensures forall e :: e in GetConnectors(connectors) ==> Reverse(e) in GetConnectors(connectors)
  {
    ConnectorsAreRenamedNetwork(connectors);
    NetworkSymmetric(seq(|connectors|, k requires 0 <= k < |connectors| => ForwardConnector(connectors[k])));
  }
}
