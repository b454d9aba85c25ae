/** The geometries of the ways while a diff is applied: what the database holds after every step of the two
    passes, as a function of the rows and of the node locations. */
module DiffGeometry {
  import opened NodeLists
  import opened PgTables
  import opened Positions
  import opened Sorting
  import opened Wrappers

  datatype Location = Nowhere | At(x: int, y: int)

  type Locations = map<int, Location>

  function Locate(locs: Locations, node: int): Location { if node in locs then locs[node] else Nowhere }

  function Located(locs: Locations, nodes: seq<int>): (r: seq<Location>)
    ensures |r| == |nodes| && forall i :: 0 <= i < |r| ==> r[i] == Locate(locs, nodes[i])
  {
    seq(|nodes|, i requires 0 <= i < |nodes| => Locate(locs, nodes[i]))
  }

  /** Row of the table of linear ways. */
  datatype WayRow = WayRow(id: int, geometry: string)

  /** The two places that build the geometry of a way: `create_linestring` for a new way, and
      `fill_linestring` in `update_way`, which may fail. */
  datatype Builder = Builder(create: seq<Location> -> string, fill: seq<Location> -> Option<string>)

  const EMPTY_LINE := "010200000000000000"

  function Refreshed(b: Builder, ls: seq<Location>): string {
    match b.fill(ls) case Some(wkb) => wkb case None => EMPTY_LINE
  }

  /** A geometry of exactly these locations. */
  predicate Faithful(b: Builder, geometry: string, ls: seq<Location>) {
    geometry == b.create(ls) || geometry == Refreshed(b, ls)
  }

  function InList(way: int): NodeRow -> bool { (r: NodeRow) => r.way == way }

  function HasId(id: int): WayRow -> bool { (r: WayRow) => r.id == id }

  function ListOf(lists: seq<NodeRow>, way: int): seq<NodeRow> { Filter(lists, InList(way)) }

  function RowsOf(ways: seq<WayRow>, id: int): seq<WayRow> { Filter(ways, HasId(id)) }

  /** `get_way_nodes` */
  function NodeList(lists: seq<NodeRow>, way: int): seq<int> { NodesOf(Sort(ListOf(lists, way), NodePos)) }

  predicate RowOk(b: Builder, r: WayRow, lists: seq<NodeRow>, locs: Locations) {
    Faithful(b, r.geometry, Located(locs, NodeList(lists, r.id)))
  }

  ghost predicate Uses(lists: seq<NodeRow>, way: int, node: int) {
    exists row :: row in lists && row.way == way && row.node == node
  }

  lemma NodeListUses(lists: seq<NodeRow>, way: int, node: int)
    ensures node in NodeList(lists, way) <==> Uses(lists, way, node)
  {
    var p := InList(way);
    var rows := Filter(lists, p);
    var sorted := Sort(rows, NodePos);
    SortSorts(rows, NodePos);
    if node in NodeList(lists, way) {
      var i :| 0 <= i < |sorted| && sorted[i].node == node;
      assert sorted[i] in multiset(sorted);
      assert sorted[i] in rows;
      FilterMember(lists, p, sorted[i]);
      assert sorted[i] in lists;
    }
    if Uses(lists, way, node) {
      var row :| row in lists && row.way == way && row.node == node;
      FilterMember(lists, p, row);
      assert row in multiset(rows);
      assert row in multiset(sorted);
      var i :| 0 <= i < |sorted| && sorted[i] == row;
      assert NodesOf(sorted)[i] == node;
    }
  }

  /** The invariant of a run: every stored way has a geometry of the current locations of its node list, or
      its id is pending, or it uses a node that the diff is still going to bring. */
  ghost predicate Consistent(b: Builder, ways: seq<WayRow>, lists: seq<NodeRow>, locs: Locations, pending: seq<int>,
                             todo: set<int>)
  {
    forall r :: r in ways ==> RowOk(b, r, lists, locs) || r.id in pending || Awaits(lists, r.id, todo)
  }

  ghost predicate Awaits(lists: seq<NodeRow>, way: int, todo: set<int>) {
    exists node :: node in todo && Uses(lists, way, node)
  }

  // ----- steps

  /** Two states of the index that differ in one node at most. */
  ghost predicate SameElsewhere(locs: Locations, locs': Locations, node: int) {
    forall n :: n != node ==> Locate(locs, n) == Locate(locs', n)
  }

  /** A node gets its location, and the ways that use it become pending. */
  lemma NodeStep(b: Builder, ways: seq<WayRow>, lists: seq<NodeRow>, locs: Locations, locs': Locations,
                 pending: seq<int>, todo: set<int>, node: int, more: seq<int>)
    requires Consistent(b, ways, lists, locs, pending, todo)
    requires SameElsewhere(locs, locs', node)
    requires forall way :: Uses(lists, way, node) ==> way in more
    ensures Consistent(b, ways, lists, locs', pending + more, todo - {node})
  {
    hide NodeList, Faithful;
    forall r | r in ways
      ensures RowOk(b, r, lists, locs') || r.id in pending + more || Awaits(lists, r.id, todo - {node})
    {
      NodeListUses(lists, r.id, node);
      if Uses(lists, r.id, node) {
        assert r.id in more;
      } else {
        assert Located(locs', NodeList(lists, r.id)) == Located(locs, NodeList(lists, r.id));
        if Awaits(lists, r.id, todo) {
          var n :| n in todo && Uses(lists, r.id, n);
          assert n in todo - {node};
        }
      }
    }
  }

  /** A list of another way does not matter. */
  lemma OtherList(lists: seq<NodeRow>, more: seq<NodeRow>, way: int)
    requires forall i :: 0 <= i < |more| ==> more[i].way != way
    ensures ListOf(lists + more, way) == ListOf(lists, way) && NodeList(lists + more, way) == NodeList(lists, way)
    ensures forall node :: Uses(lists + more, way, node) <==> Uses(lists, way, node)
  {
    var p := InList(way);
    FilterAppend(lists, more, p);
    FilterAll(more, p);
    assert Filter(lists, p) + [] == Filter(lists, p);
    forall node ensures Uses(lists + more, way, node) <==> Uses(lists, way, node) {
      NodeListUses(lists, way, node);
      NodeListUses(lists + more, way, node);
    }
  }

  lemma NewRows(lists: seq<NodeRow>, way: int, rows: seq<NodeRow>)
    requires forall i :: 0 <= i < |lists| ==> lists[i].way != way
    requires forall i :: 0 <= i < |rows| ==> rows[i].way == way
    ensures Filter(lists + rows, InList(way)) == rows
  {
    hide Filter;
    var p := InList(way);
    FilterAppend(lists, rows, p);
    FilterAll(lists, p);
    FilterAll(rows, p);
    assert [] + rows == rows;
  }

  /** The list of a way whose rows have just been sent. */
  lemma NewList(lists: seq<NodeRow>, way: int, nodes: seq<int>)
    requires |nodes| <= CUT && forall i :: 0 <= i < |lists| ==> lists[i].way != way
    ensures NodeList(lists + WayRows(way, nodes), way) == RestoredNodes(nodes)
  {
    var rows := WayRows(way, nodes);
    NewRows(lists, way, rows);
    hide Filter, Sort, NodesOf, Int16, IsSortOf, WayRows, InList;
    SortSorts(rows, NodePos);
    NodeListRestored(way, nodes, Sort(rows, NodePos));
  }

  /** The list comes back from the table as it was sent; true for up to 32768 nodes. */
  predicate Restorable(nodes: seq<int>) { |nodes| <= CUT && RestoredNodes(nodes) == nodes }

  /** The row of a new way is in order exactly if its geometry fits the list as the table gives it back. */
  lemma NewWayInOrderIff(b: Builder, lists: seq<NodeRow>, locs: Locations, way: int, nodes: seq<int>)
    requires |nodes| <= CUT && forall i :: 0 <= i < |lists| ==> lists[i].way != way
    ensures var row := WayRow(way, b.create(Located(locs, nodes)));
            RowOk(b, row, lists + WayRows(way, nodes), locs) <==>
            Faithful(b, row.geometry, Located(locs, RestoredNodes(nodes)))
  {
    hide NodeList, Faithful, Located;
    NewList(lists, way, nodes);
  }

  /** A new way, in the table of ways if it has interesting tags, and always with its node list. */
  lemma WayStep(b: Builder, ways: seq<WayRow>, lists: seq<NodeRow>, locs: Locations, pending: seq<int>, way: int,
                nodes: seq<int>, stored: bool)
    requires Consistent(b, ways, lists, locs, pending, {})
    requires Restorable(nodes) && forall i :: 0 <= i < |lists| ==> lists[i].way != way
    requires forall r :: r in ways ==> r.id != way
    ensures var row := WayRow(way, b.create(Located(locs, nodes)));
            Consistent(b, if stored then ways + [row] else ways, lists + WayRows(way, nodes), locs, pending, {})
  {
    hide NodeList;
    var row := WayRow(way, b.create(Located(locs, nodes)));
    var more := WayRows(way, nodes);
    NewList(lists, way, nodes);
    forall r | r in ways + [row]
      ensures RowOk(b, r, lists + more, locs) || r.id in pending
    {
      if r.id != way {
        assert r in ways;
        OtherList(lists, more, r.id);
        assert !Awaits(lists, r.id, {});
      }
    }
  }

  function WithGeometry(geometry: string): WayRow -> WayRow { (r: WayRow) => r.(geometry := geometry) }

  function UpdatedWays(b: Builder, ways: seq<WayRow>, lists: seq<NodeRow>, locs: Locations, id: int): seq<WayRow> {
    var geometry := Refreshed(b, Located(locs, NodeList(lists, id)));
    Updated(ways, HasId(id), WithGeometry(geometry))
  }

  /** The same rows with another geometry. */
  function WithGeometries(rows: seq<WayRow>, geometry: string): (r: seq<WayRow>)
    ensures |r| == |rows| && forall i :: 0 <= i < |r| ==> r[i] == rows[i].(geometry := geometry)
  {
    seq(|rows|, i requires 0 <= i < |rows| => rows[i].(geometry := geometry))
  }

  /** An update of one way, seen from the rows of any way. */
  lemma {:induction false} UpdatedRowsOf(ways: seq<WayRow>, way: int, geometry: string, id: int)
    ensures RowsOf(Updated(ways, HasId(way), WithGeometry(geometry)), id) ==
            if id == way then WithGeometries(RowsOf(ways, id), geometry) else RowsOf(ways, id)
  {
    if ways != [] {
      UpdatedRowsOf(ways[1..], way, geometry, id);
      assert Updated(ways, HasId(way), WithGeometry(geometry))[1..] ==
             Updated(ways[1..], HasId(way), WithGeometry(geometry));
    }
  }

  lemma RefreshedIsFaithful(b: Builder, ls: seq<Location>)
    ensures Faithful(b, Refreshed(b, ls), ls)
  {
  }

  lemma Weaken(b: Builder, ways: seq<WayRow>, lists: seq<NodeRow>, locs: Locations, pending: seq<int>, more: seq<int>,
               todo: set<int>, todo': set<int>)
    requires Consistent(b, ways, lists, locs, pending, todo) && forall x :: x in pending ==> x in more
    requires todo <= todo'
    ensures Consistent(b, ways, lists, locs, more, todo')
  {
    hide RowOk, Uses;
    forall r | r in ways ensures RowOk(b, r, lists, locs) || r.id in more || Awaits(lists, r.id, todo') {
      if Awaits(lists, r.id, todo) {
        var n :| n in todo && Uses(lists, r.id, n);
        assert n in todo';
      }
    }
  }

  // ----- pass 1

  function WithoutWay(ways: seq<WayRow>, id: int): seq<WayRow> { Rest(ways, HasId(id)) }

  function WithoutList(lists: seq<NodeRow>, way: int): seq<NodeRow> { Rest(lists, InList(way)) }

  /** Pass 1 deletes the rows of a way and its node list. */
  lemma DeleteStep(b: Builder, ways: seq<WayRow>, lists: seq<NodeRow>, locs: Locations, todo: set<int>, id: int)
    requires Consistent(b, ways, lists, locs, [], todo)
    ensures Consistent(b, WithoutWay(ways, id), WithoutList(lists, id), locs, [], todo)
  {
    hide NodeList;
    var lists' := WithoutList(lists, id);
    forall r | r in WithoutWay(ways, id) ensures RowOk(b, r, lists', locs) || Awaits(lists', r.id, todo) {
      RestMember(ways, HasId(id), r);
      KeptList(lists, id, r.id);
      if Awaits(lists, r.id, todo) {
        var n :| n in todo && Uses(lists, r.id, n);
        assert Uses(lists', r.id, n);
      }
    }
  }

  lemma KeptList(lists: seq<NodeRow>, id: int, way: int)
    requires way != id
    ensures ListOf(WithoutList(lists, id), way) == ListOf(lists, way)
    ensures NodeList(WithoutList(lists, id), way) == NodeList(lists, way)
    ensures forall node :: Uses(WithoutList(lists, id), way, node) <==> Uses(lists, way, node)
  {
    FilterRest(lists, InList(way), InList(id));
    forall node ensures Uses(WithoutList(lists, id), way, node) <==> Uses(lists, way, node) {
      NodeListUses(lists, way, node);
      NodeListUses(WithoutList(lists, id), way, node);
    }
  }

  /** Locations of nodes that the diff is still going to bring may be lost in between. */
  lemma ForgetStep(b: Builder, ways: seq<WayRow>, lists: seq<NodeRow>, locs: Locations, locs': Locations,
                   todo: set<int>, todo': set<int>, node: int)
    requires Consistent(b, ways, lists, locs, [], todo)
    requires SameElsewhere(locs, locs', node)
    requires todo <= todo' && node in todo'
    ensures Consistent(b, ways, lists, locs', [], todo')
  {
    hide NodeList, Faithful;
    forall r | r in ways ensures RowOk(b, r, lists, locs') || Awaits(lists, r.id, todo') {
      NodeListUses(lists, r.id, node);
      if Uses(lists, r.id, node) {
        assert Awaits(lists, r.id, todo');
      } else if Awaits(lists, r.id, todo) {
        var n :| n in todo && Uses(lists, r.id, n);
        assert n in todo';
      } else {
        assert Located(locs', NodeList(lists, r.id)) == Located(locs, NodeList(lists, r.id));
      }
    }
  }

  /** Nodes that no stored way uses need not be awaited. */
  lemma DropUnused(b: Builder, ways: seq<WayRow>, lists: seq<NodeRow>, locs: Locations, todo: set<int>,
                   unused: set<int>)
    requires Consistent(b, ways, lists, locs, [], todo)
    requires forall r, node :: r in ways && node in unused ==> !Uses(lists, r.id, node)
    ensures Consistent(b, ways, lists, locs, [], todo - unused)
  {
    forall r | r in ways ensures RowOk(b, r, lists, locs) || Awaits(lists, r.id, todo - unused) {
      if Awaits(lists, r.id, todo) {
        var n :| n in todo && Uses(lists, r.id, n);
        assert n !in unused;
      }
    }
  }
}
