/** The nodes of a way, stored one in a row and sorted again by position: `prepare_node_way_query` and
    `get_way_nodes`. */
module NodeLists {
  import opened Positions
  import opened Sorting

  datatype NodeRow = NodeRow(way: int, node: int, pos: int)

  function NodePos(r: NodeRow): int { r.pos }

  /** `prepare_node_way_query`: it asserts that there are fewer than 65535 nodes. */
  function WayRows(way: int, nodes: seq<int>): (r: seq<NodeRow>)
    ensures |r| == |nodes| && forall i :: 0 <= i < |r| ==> r[i] == NodeRow(way, nodes[i], Int16(i))
  {
    if nodes == [] then []
    else
      var last := |nodes| - 1;
      WayRows(way, nodes[..last]) + [NodeRow(way, nodes[last], Int16(last))]
  }

  /** The list of a way can be sent: it is not empty, and the assert of `prepare_node_way_query` holds. */
  predicate Listable(nodes: seq<int>) { 0 < |nodes| <= CUT }

  function NodesOf(rows: seq<NodeRow>): (r: seq<int>)
    ensures |r| == |rows| && forall i :: 0 <= i < |r| ==> r[i] == rows[i].node
  {
    if rows == [] then [] else NodesOf(rows[..|rows| - 1]) + [rows[|rows| - 1].node]
  }

  function RestoredNodes(nodes: seq<int>): seq<int> {
    if |nodes| <= HALF then nodes else nodes[HALF..] + nodes[..HALF]
  }

  /** `get_way_nodes`: the rows in any order, sorted by position. */
  lemma NodeListRestored(way: int, nodes: seq<int>, found: seq<NodeRow>)
    requires |nodes| <= CUT && IsSortOf(found, WayRows(way, nodes), NodePos)
    ensures NodesOf(found) == RestoredNodes(nodes)
  {
    hide SortedBy, StrictlyBy, WayInOrder, WayRows, NodesOf, RestoredNodes;
    NodePositionsRise(way, nodes);
    WayRowsRotated(way, nodes);
    WayNodesInOrder(way, nodes);
    OneSortedArrangement(found, WayInOrder(way, nodes), NodePos);
  }

  function WayInOrder(way: int, nodes: seq<int>): seq<NodeRow> {
    var all := WayRows(way, nodes);
    if |nodes| <= HALF then all else all[HALF..] + all[..HALF]
  }

  lemma WayRowsRotated(way: int, nodes: seq<int>)
    ensures multiset(WayInOrder(way, nodes)) == multiset(WayRows(way, nodes))
  {
    hide WayRows;
    if |nodes| > HALF { Rotated(WayRows(way, nodes), HALF); }
  }

  lemma WayNodesInOrder(way: int, nodes: seq<int>)
    ensures NodesOf(WayInOrder(way, nodes)) == RestoredNodes(nodes)
  {
    hide WayRows, Int16, NodesOf;
    var r := WayInOrder(way, nodes);
    forall i | 0 <= i < |r| ensures NodesOf(r)[i] == RestoredNodes(nodes)[i] {
    }
  }

  lemma NodePositionsRise(way: int, nodes: seq<int>)
    requires |nodes| <= CUT
    ensures StrictlyBy(WayInOrder(way, nodes), NodePos)
  {
    hide Int16, WayRows;
    forall i: nat | i < CUT ensures Int16(i) == if i < HALF then i else i - 65536 { Int16Value(i); }
  }
}
