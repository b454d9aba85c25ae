/** What both passes of a diff work on: the tables, the location index and the objects of the diff. */
module DiffTables {
  import opened DiffGeometry
  import opened MemberLists
  import opened Members
  import opened NodeLists
  import opened PgTables

  datatype NodeE = NodeE(id: int, version: nat, deleted: bool, location: Location, interesting: bool, bare: bool)
  datatype WayE = WayE(id: int, version: nat, deleted: bool, nodes: seq<int>, interesting: bool)
  datatype RelationE = RelationE(id: int, version: nat, deleted: bool, members: seq<Member>, interesting: bool)
  datatype AreaE = AreaE(id: int, fromWay: bool, interesting: bool)

  datatype Event = OfNode(node: NodeE) | OfWay(way: WayE) | OfArea(area: AreaE) | OfRelation(relation: RelationE)

  datatype PointRow = PointRow(id: int)
  datatype RelationRow = RelationRow(id: int)

  /** An area of a relation is stored under the negated id of the relation. */
  datatype AreaRow = AreaRow(osmId: int)

  /** `areas` and `untaggedNodes` are settings; `memberWay` are the ways that the multipolygon manager holds, and
      `assembles` the relations for which its assembler finds an area. */
  datatype Config = Config(areas: bool, untaggedNodes: bool, builder: Builder,
                           memberWay: int -> bool, assembles: int -> bool)

  datatype TableSet = TableSet(
    nodes: Table<PointRow>, untagged: Table<PointRow>, ways: Table<WayRow>, areas: Table<AreaRow>,
    relations: Table<RelationRow>, nodeWays: Table<NodeRow>,
    nodeRelations: Table<MemberRow>, wayRelations: Table<MemberRow>, relationRelations: Table<MemberRow>)
  {
    /** One connection for each table. */
    ghost predicate Distinct() {
      nodes != untagged && nodeRelations != wayRelations && nodeRelations != relationRelations
      && wayRelations != relationRelations
    }
  }

  /** Which tables are in COPY mode. */
  datatype Modes = Modes(nodes: bool, untagged: bool, ways: bool, areas: bool, relations: bool, nodeWays: bool,
                         nodeRelations: bool, wayRelations: bool, relationRelations: bool)

  ghost function ModesNow(t: TableSet): Modes
    reads t.nodes`copyMode, t.untagged`copyMode, t.ways`copyMode, t.areas`copyMode, t.relations`copyMode
    reads t.nodeWays`copyMode, t.nodeRelations`copyMode, t.wayRelations`copyMode, t.relationRelations`copyMode
  {
    Modes(t.nodes.copyMode, t.untagged.copyMode, t.ways.copyMode, t.areas.copyMode, t.relations.copyMode,
          t.nodeWays.copyMode, t.nodeRelations.copyMode, t.wayRelations.copyMode, t.relationRelations.copyMode)
  }

  const CLOSED := Modes(false, false, false, false, false, false, false, false, false)

  /** Node locations: in a file (`persistent`), or in the node tables with a cache for the nodes of the diff. */
  class LocationIndex {
    const persistent: bool
    var locs: Locations
    var cached: set<int>

    constructor (locs: Locations, persistent: bool)
      ensures this.locs == locs && this.persistent == persistent && cached == {}
    {
      this.locs, this.persistent, cached := locs, persistent, {};
    }

    /** The locations behind a node of the diff: `emplace` keeps the first location of a node, the file the last. */
    function Next(n: NodeE): Locations
      reads this
    {
      if n.deleted || (!persistent && n.id in cached) then locs else locs[n.id := n.location]
    }

    /** `node` of the location handler */
    method Node(n: NodeE)
      modifies this
      ensures locs == old(Next(n)) && cached == old(cached) + if n.deleted then {} else {n.id}
    {
      if !n.deleted {
        if persistent || n.id !in cached {
          locs := locs[n.id := n.location];
        }
        cached := cached + {n.id};
      }
    }

    /** The node has been deleted from the tables. */
    method Forget(id: int)
      modifies this`locs
      ensures locs == if persistent || id in cached then old(locs) else old(locs) - {id}
    {
      if !persistent && id !in cached {
        locs := locs - {id};
      }
    }
  }
}
