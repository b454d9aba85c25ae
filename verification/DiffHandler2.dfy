/** Pass 2 of a diff, src/diff_handler2.cpp: new rows are sent with COPY, table after table, and what depends on
    them is updated in between. Methods return false where the program throws. */
module DiffPass2 {
  import opened DiffGeometry
  import opened DiffPass1
  import opened DiffTables
  import opened MemberLists
  import opened NodeLists
  import opened Members
  import opened PendingWork
  import opened PgTables
  import opened Positions
  import opened Sequences
  import opened Sorting
  import opened Wrappers

  datatype Progress = POINT_PHASE | WAY_PHASE | RELATION_PHASE

  /** The tables in COPY mode in every phase. */
  function ModesOf(p: Progress): Modes {
    match p
    case POINT_PHASE => CLOSED.(nodes := true, untagged := true)
    case WAY_PHASE => CLOSED.(ways := true, areas := true, nodeWays := true)
    case RELATION_PHASE =>
      CLOSED.(areas := true, relations := true, nodeRelations := true, wayRelations := true, relationRelations := true)
  }

  /** The tables in COPY mode behind `after_relations`, by the phase that was reached. */
  function ModesBehind(p: Progress): Modes {
    match p
    case POINT_PHASE => CLOSED.(nodes := true, untagged := true)
    case WAY_PHASE => CLOSED.(ways := true, nodeWays := true)
    case RELATION_PHASE => CLOSED
  }

  predicate NoWays(members: seq<Placed>) { forall i :: 0 <= i < |members| ==> members[i].kind != WAY }

  /** The merged list has a way exactly if the table of the ways gave a row. */
  lemma WaysAmong(nodes: seq<MemberRow>, ways: seq<MemberRow>, relations: seq<MemberRow>, members: seq<Placed>)
    requires IsSortOf(members, Places(nodes, NODE) + Places(ways, WAY) + Places(relations, RELATION), PlacedPos)
    ensures NoWays(members) <==> ways == []
  {
    hide Places;
    var all := Places(nodes, NODE) + Places(ways, WAY) + Places(relations, RELATION);
    if ways != [] {
      var p := Places(ways, WAY)[0];
      assert all[|nodes|] == p && p in multiset(all);
      assert p in multiset(members);
    } else {
      forall i | 0 <= i < |members| ensures members[i].kind != WAY {
        assert members[i] in multiset(members);
        assert members[i] in all;
      }
    }
  }

  function AtPoint(node: int): NodeRow -> bool { (r: NodeRow) => r.node == node }

  function MemberIs(member: int): MemberRow -> bool { (r: MemberRow) => r.member == member }

  function WayIds(rows: seq<NodeRow>): (r: seq<int>)
    ensures |r| == |rows| && forall i :: 0 <= i < |r| ==> r[i] == rows[i].way
  {
    seq(|rows|, i requires 0 <= i < |rows| => rows[i].way)
  }

  function RelationIds(rows: seq<MemberRow>): (r: seq<int>)
    ensures |r| == |rows| && forall i :: 0 <= i < |r| ==> r[i] == rows[i].relation
  {
    seq(|rows|, i requires 0 <= i < |rows| => rows[i].relation)
  }

  /** The ways that become pending with a node. */
  function WaysAt(lists: seq<NodeRow>, node: int): seq<int> { WayIds(Filter(lists, AtPoint(node))) }

  function RelationsWith(members: seq<MemberRow>, member: int): seq<int> {
    RelationIds(Filter(members, MemberIs(member)))
  }

  lemma WaysAtUses(lists: seq<NodeRow>, node: int, way: int)
    ensures way in WaysAt(lists, node) <==> Uses(lists, way, node)
  {
    var rows := Filter(lists, AtPoint(node));
    if way in WaysAt(lists, node) {
      var i :| 0 <= i < |rows| && rows[i].way == way;
      FilterMember(lists, AtPoint(node), rows[i]);
    }
    if Uses(lists, way, node) {
      var row :| row in lists && row.way == way && row.node == node;
      FilterMember(lists, AtPoint(node), row);
      var i :| 0 <= i < |rows| && rows[i] == row;
      assert WaysAt(lists, node)[i] == way;
    }
  }

  /** The geometries after `update_way` has been called for these ids. */
  function UpdatedAll(b: Builder, ways: seq<WayRow>, lists: seq<NodeRow>, locs: Locations, calls: seq<int>)
    : seq<WayRow>
  {
    if calls == [] then ways
    else UpdatedWays(b, UpdatedAll(b, ways, lists, locs, calls[..|calls| - 1]), lists, locs, calls[|calls| - 1])
  }

  /** The geometry of the way can be built. */
  predicate Builds(b: Builder, lists: seq<NodeRow>, locs: Locations, way: int) {
    b.fill(Located(locs, NodeList(lists, way))).Some?
  }

  /** The relations that become pending when the geometry of a way has been built. */
  function RelationsOf(b: Builder, lists: seq<NodeRow>, locs: Locations, members: seq<MemberRow>, way: int): seq<int> {
    if Builds(b, lists, locs, way) then RelationsWith(members, way) else []
  }

  function RelationsOfAll(b: Builder, lists: seq<NodeRow>, locs: Locations, members: seq<MemberRow>, ways: seq<int>)
    : seq<int>
  {
    if ways == [] then []
    else
      var last := |ways| - 1;
      RelationsOfAll(b, lists, locs, members, ways[..last]) + RelationsOf(b, lists, locs, members, ways[last])
  }

  /** The worklist that `clean_up_container_and_work_on` makes of a container. */
  ghost predicate Worklist(calls: seq<int>, container: seq<int>) {
    StrictlyAscending(calls) && forall x :: x in calls <==> x in container && x > 0 && !SteppedOver(container, x)
  }

  class DiffHandler2 {
    const t: TableSet
    const config: Config
    const index: LocationIndex
    var progress: Progress
    var pendingWays: seq<int>
    var pendingRelations: seq<int>
    var waysIdx: nat
    var relationsIdx: nat
    /** Areas in the buffers of the assembler. */
    var newAreas: seq<AreaE>
    var updatedAreas: seq<int>

    ghost predicate InPhase()
      reads this`progress
      reads t.nodes`copyMode, t.untagged`copyMode, t.ways`copyMode, t.areas`copyMode, t.relations`copyMode
      reads t.nodeWays`copyMode, t.nodeRelations`copyMode, t.wayRelations`copyMode, t.relationRelations`copyMode
    {
      t.Distinct() && ModesNow(t) == ModesOf(progress)
    }

    ghost predicate NoAreas()
      reads this`newAreas, this`updatedAreas
    {
      newAreas == [] && updatedAreas == []
    }

    /** `start_copy` throws for a table in COPY mode. */
    constructor (t: TableSet, config: Config, index: LocationIndex)
      requires t.Distinct() && ModesNow(t) == CLOSED
      modifies t.nodes`copyMode, t.untagged`copyMode
      ensures this.t == t && this.config == config && this.index == index
      ensures progress == POINT_PHASE && InPhase() && NoAreas()
      ensures pendingWays == [] && pendingRelations == [] && waysIdx == 0 && relationsIdx == 0
    {
      this.t, this.config, this.index := t, config, index;
      progress := POINT_PHASE;
      pendingWays, pendingRelations, waysIdx, relationsIdx := [], [], 0, 0;
      newAreas, updatedAreas := [], [];
      new;
      var ok := t.untagged.StartCopy();
      ok := t.nodes.StartCopy();
    }

    /** Nodes with interesting tags go to one table, the others to the second one if the program keeps them;
        nodes without a location to none. */
    predicate ToNodes(n: NodeE) { n.location != Nowhere && (config.untaggedNodes || !n.bare) && n.interesting }

    predicate ToUntagged(n: NodeE) { n.location != Nowhere && config.untaggedNodes && !n.interesting }

    /** `handle_node` */
    method HandleNode(n: NodeE) returns (ok: bool)
      requires t.Distinct()
      modifies t.nodes`rows, t.untagged`rows
      ensures t.nodes.copyMode && t.untagged.copyMode ==> ok
      ensures ok ==> t.nodes.rows == old(t.nodes.rows) + If(ToNodes(n), PointRow(n.id))
      ensures ok ==> t.untagged.rows == old(t.untagged.rows) + If(ToUntagged(n), PointRow(n.id))
    {
      if n.location == Nowhere {
        return true;
      }
      if !config.untaggedNodes && n.bare {
        return true;
      }
      ok := true;
      if n.interesting {
        ok := t.nodes.SendLine([PointRow(n.id)]);
      } else if config.untaggedNodes {
        ok := t.untagged.SendLine([PointRow(n.id)]);
      }
    }

    /** `node`: fails for a node that comes too late. */
    method Node(n: NodeE) returns (ok: bool)
      requires InPhase()
      modifies this`pendingWays, this`pendingRelations, t.nodes`rows, t.untagged`rows
      ensures ok == (n.deleted || progress == POINT_PHASE)
      ensures n.deleted ==> pendingWays == old(pendingWays) && pendingRelations == old(pendingRelations)
      ensures !n.deleted && ok ==>
                && pendingWays == old(pendingWays) + WaysAt(t.nodeWays.rows, n.id)
                && pendingRelations == old(pendingRelations) + RelationsWith(t.nodeRelations.rows, n.id)
                && t.nodes.rows == old(t.nodes.rows) + If(ToNodes(n), PointRow(n.id))
                && t.untagged.rows == old(t.untagged.rows) + If(ToUntagged(n), PointRow(n.id))
      ensures n.deleted ==> t.nodes.rows == old(t.nodes.rows) && t.untagged.rows == old(t.untagged.rows)
    {
      hide If;
      if n.deleted {
        return true;
      }
      ok := HandleNode(n);
      if !ok {
        return false;
      }
      var rows, members;
      ok, rows := t.nodeWays.Select(AtPoint(n.id));
      if !ok {
        return false;
      }
      pendingWays := pendingWays + WayIds(rows);
      ok, members := t.nodeRelations.Select(MemberIs(n.id));
      if !ok {
        return false;
      }
      pendingRelations := pendingRelations + RelationIds(members);
    }

    method WriteNewNodes() returns (ok: bool)
      requires InPhase() && progress == POINT_PHASE
      modifies this`progress, this`pendingWays
      modifies t.nodes`copyMode, t.untagged`copyMode, t.ways`copyMode, t.areas`copyMode, t.nodeWays`copyMode
      ensures ok && progress == WAY_PHASE && InPhase()
      ensures StrictlyAscending(pendingWays) && forall x :: x in pendingWays <==> x in old(pendingWays)
    {
      t.nodes.EndCopy();
      t.untagged.EndCopy();
      ok := t.ways.StartCopy();
      if !ok { return false; }
      ok := t.areas.StartCopy();
      if !ok { return false; }
      ok := t.nodeWays.StartCopy();
      if !ok { return false; }
      progress := WAY_PHASE;
      pendingWays := SortUnique(pendingWays);
    }

    /** `way` after the phase has been checked. */
    method SendWay(w: WayE) returns (ok: bool)
      requires InPhase() && progress != POINT_PHASE
      modifies this`pendingWays, this`waysIdx, this`pendingRelations, t.ways`rows, t.nodeWays`rows
      ensures ok == (w.deleted || (progress == WAY_PHASE && Listable(w.nodes)))
      ensures w.deleted ==> t.ways.rows == old(t.ways.rows) && t.nodeWays.rows == old(t.nodeWays.rows)
                            && pendingWays == old(pendingWays) && waysIdx == old(waysIdx)
                            && pendingRelations == old(pendingRelations)
      ensures !w.deleted && ok ==>
                && t.ways.rows == (if w.interesting then old(t.ways.rows) + [NewWay(w)] else old(t.ways.rows))
                && t.nodeWays.rows == old(t.nodeWays.rows) + WayRows(w.id, w.nodes)
                && pendingRelations == old(pendingRelations) + RelationsWith(t.wayRelations.rows, w.id)
      ensures !w.deleted && ok ==>
                match Search(old(pendingWays), old(waysIdx), w.id)
                case None => pendingWays == old(pendingWays) && waysIdx == old(waysIdx)
                case Some(found) => found < |old(pendingWays)| && waysIdx == found
                                    && pendingWays == old(pendingWays)[found := 0]
    {
      hide WayRows, Filter, Search, Located;
      if w.deleted {
        return true;
      }
      if w.interesting {
        ok := t.ways.SendLine([NewWay(w)]);
        if !ok { return false; }
      }
      var members;
      ok, members := t.wayRelations.Select(MemberIs(w.id));
      if !ok { return false; }
      pendingRelations := pendingRelations + RelationIds(members);
      if |w.nodes| > CUT {
        return false;
      }
      ok := t.nodeWays.SendLine(WayRows(w.id, w.nodes));
      if !ok { return false; }
      pendingWays, waysIdx := CrossOff(pendingWays, waysIdx, w.id);
    }

    /** The row that `prepare_query` makes of a way whose nodes got their locations from the index. */
    function NewWay(w: WayE): WayRow
      reads index
    {
      WayRow(w.id, config.builder.create(Located(index.locs, w.nodes)))
    }

    /** `way`; `sorted` is the list of pending ways in which the way is searched. */
    method Way(w: WayE) returns (ok: bool, ghost sorted: seq<int>)
      requires InPhase()
      modifies this`progress, this`pendingWays, this`waysIdx, this`pendingRelations
      modifies t.nodes`copyMode, t.untagged`copyMode, t.ways, t.areas`copyMode, t.nodeWays
      ensures ok == (w.deleted || (old(progress) != RELATION_PHASE && Listable(w.nodes)))
      ensures ok ==> InPhase() && progress == if old(progress) == POINT_PHASE then WAY_PHASE else old(progress)
      ensures old(progress) != POINT_PHASE ==> sorted == old(pendingWays)
      ensures old(progress) == POINT_PHASE ==>
                StrictlyAscending(sorted) && forall x :: x in sorted <==> x in old(pendingWays)
      ensures w.deleted ==> t.ways.rows == old(t.ways.rows) && t.nodeWays.rows == old(t.nodeWays.rows)
                            && pendingWays == sorted && waysIdx == old(waysIdx)
                            && pendingRelations == old(pendingRelations)
      ensures !w.deleted && ok ==>
                && t.ways.rows == (if w.interesting then old(t.ways.rows) + [NewWay(w)] else old(t.ways.rows))
                && t.nodeWays.rows == old(t.nodeWays.rows) + WayRows(w.id, w.nodes)
                && pendingRelations == old(pendingRelations) + RelationsWith(t.wayRelations.rows, w.id)
      ensures !w.deleted && ok ==>
                match Search(sorted, old(waysIdx), w.id)
                case None => pendingWays == sorted && waysIdx == old(waysIdx)
                case Some(found) => found < |sorted| && pendingWays == sorted[found := 0] && waysIdx == found
    {
      if progress == POINT_PHASE {
        ok := WriteNewNodes();
      }
      sorted := pendingWays;
      ok := SendWay(w);
    }

    /** `update_way` */
    method UpdateWay(id: int) returns (ok: bool)
      requires !t.ways.copyMode && !t.areas.copyMode && !t.nodeWays.copyMode && !t.wayRelations.copyMode
      modifies this`pendingRelations, t.ways`rows, t.areas`rows
      ensures ok
      ensures t.ways.rows == UpdatedWays(config.builder, old(t.ways.rows), t.nodeWays.rows, index.locs, id)
      ensures t.areas.rows == old(t.areas.rows)
      ensures pendingRelations == old(pendingRelations)
                + RelationsOf(config.builder, t.nodeWays.rows, index.locs, t.wayRelations.rows, id)
    {
      hide Filter, Updated, Sort, Located;
      var areaToUpdate := false;
      if config.areas {
        var found;
        ok, found := t.areas.Select(HasOsmId(id));
        areaToUpdate := found != [];
      }
      var rows;
      ok, rows := t.nodeWays.Select(InList(id));
      rows := SortBy(rows, NodePos);
      var wkb := EMPTY_LINE;
      var filled := config.builder.fill(Located(index.locs, NodesOf(rows)));
      if filled.Some? {
        wkb := filled.value;
        var members;
        ok, members := t.wayRelations.Select(MemberIs(id));
        pendingRelations := pendingRelations + RelationIds(members);
      }
      ok := t.ways.Update(HasId(id), WithGeometry(wkb));
      if areaToUpdate {
        ok := t.areas.Update(HasOsmId(id), SameArea);
      }
    }

    /** `work_on_pending_ways` */
    method WorkOnPendingWays() returns (ok: bool, calls: seq<int>)
      requires !t.ways.copyMode && !t.areas.copyMode && !t.nodeWays.copyMode && !t.wayRelations.copyMode
      modifies this`pendingWays, this`pendingRelations, t.ways`rows, t.areas`rows
      ensures ok && Worklist(calls, old(pendingWays))
      ensures t.ways.rows == UpdatedAll(config.builder, old(t.ways.rows), t.nodeWays.rows, index.locs, calls)
      ensures t.areas.rows == old(t.areas.rows)
      ensures pendingRelations == old(pendingRelations)
                + RelationsOfAll(config.builder, t.nodeWays.rows, index.locs, t.wayRelations.rows, calls)
    {
      hide UpdatedWays, SteppedOver, Located, RelationsOf;
      ok := true;
      pendingWays, calls := CleanUp(pendingWays);
      assert pendingRelations + [] == pendingRelations;
      for i := 0 to |calls|
        invariant ok
        invariant pendingRelations == old(pendingRelations)
                    + RelationsOfAll(config.builder, t.nodeWays.rows, index.locs, t.wayRelations.rows, calls[..i])
        invariant t.ways.rows == UpdatedAll(config.builder, old(t.ways.rows), t.nodeWays.rows, index.locs, calls[..i])
        invariant t.areas.rows == old(t.areas.rows)
      {
        ok := UpdateWay(calls[i]);
        assert calls[..i + 1][..i] == calls[..i];
        Assoc(old(pendingRelations),
              RelationsOfAll(config.builder, t.nodeWays.rows, index.locs, t.wayRelations.rows, calls[..i]),
              RelationsOf(config.builder, t.nodeWays.rows, index.locs, t.wayRelations.rows, calls[i]));
      }
      assert calls[..|calls|] == calls;
    }

    // ----- areas

    /** `handle_area` */
    method HandleArea(e: AreaE) returns (ok: bool)
      modifies t.areas`rows
      ensures ok == (!e.interesting || t.areas.copyMode)
      ensures ok ==> t.areas.rows == old(t.areas.rows) + AreaRows([e])
    {
      assert [e][..0] == [] && AreaRows([]) == [];
      if !e.interesting {
        return true;
      }
      ok := t.areas.SendLine([AreaRow(if e.fromWay then e.id else -e.id)]);
    }

    method Area(e: AreaE) returns (ok: bool)
      requires InPhase()
      modifies this`progress, this`pendingWays
      modifies t.nodes`copyMode, t.untagged`copyMode, t.ways`copyMode, t.areas, t.nodeWays`copyMode
      ensures ok && InPhase()
      ensures progress == if old(progress) == POINT_PHASE then WAY_PHASE else old(progress)
      ensures old(progress) != POINT_PHASE ==> pendingWays == old(pendingWays)
      ensures old(progress) == POINT_PHASE ==>
                StrictlyAscending(pendingWays) && forall x :: x in pendingWays <==> x in old(pendingWays)
      ensures t.areas.rows == old(t.areas.rows) + AreaRows([e])
    {
      if progress == POINT_PHASE {
        ok := WriteNewNodes();
      }
      ok := HandleArea(e);
    }

    /** `flush`: the callbacks send the new areas and update the others. Areas come out of the assembler only
        behind the node phase. */
    method Flush() returns (ok: bool)
      modifies this`newAreas, this`updatedAreas, t.areas`rows
      ensures old(newAreas == [] || t.areas.copyMode) && old(updatedAreas == [] || !t.areas.copyMode) ==> ok
      ensures ok ==> NoAreas() && t.areas.rows == old(t.areas.rows) + AreaRows(old(newAreas))
    {
      hide AreaRows;
      ok := true;
      NoAreaRows(t.areas.rows);
      for i := 0 to |newAreas|
        invariant ok && newAreas == old(newAreas) && updatedAreas == old(updatedAreas)
        invariant t.areas.rows == old(t.areas.rows) + AreaRows(newAreas[..i])
      {
        ok := HandleArea(newAreas[i]);
        if !ok { return; }
        AreaRowsStep(old(t.areas.rows), newAreas, i);
      }
      assert newAreas[..|newAreas|] == newAreas;
      newAreas := [];
      for i := 0 to |updatedAreas|
        invariant ok && newAreas == [] && updatedAreas == old(updatedAreas)
        invariant t.areas.rows == old(t.areas.rows) + AreaRows(old(newAreas))
      {
        ok := t.areas.Update(HasOsmId(updatedAreas[i]), SameArea);
        if !ok { return; }
      }
      updatedAreas := [];
    }

    // ----- relations

    /** The first half of `write_new_ways`: no table is in COPY mode while the pending ways are updated. */
    method FinishWays() returns (ok: bool, calls: seq<int>)
      requires InPhase() && progress == WAY_PHASE
      modifies this`pendingWays, this`pendingRelations, t.ways, t.areas, t.nodeWays`copyMode
      ensures ok && ModesNow(t) == CLOSED && Worklist(calls, old(pendingWays))
      ensures t.ways.rows == UpdatedAll(config.builder, old(t.ways.rows), t.nodeWays.rows, index.locs, calls)
      ensures pendingRelations == old(pendingRelations)
                + RelationsOfAll(config.builder, t.nodeWays.rows, index.locs, t.wayRelations.rows, calls)
      ensures t.areas.rows == old(t.areas.rows)
    {
      hide UpdatedAll, Worklist, RelationsOfAll;
      t.ways.EndCopy();
      t.nodeWays.EndCopy();
      t.areas.EndCopy();
      ok, calls := WorkOnPendingWays();
    }

    method WriteNewWays() returns (ok: bool, calls: seq<int>)
      requires InPhase() && progress == WAY_PHASE && NoAreas()
      modifies this`progress, this`pendingWays, this`pendingRelations, this`newAreas, this`updatedAreas
      modifies t.ways, t.areas, t.relations`copyMode, t.nodeWays`copyMode
      modifies t.nodeRelations`copyMode, t.wayRelations`copyMode, t.relationRelations`copyMode
      ensures ok && progress == RELATION_PHASE && InPhase() && NoAreas()
      ensures Worklist(calls, old(pendingWays))
      ensures t.ways.rows == UpdatedAll(config.builder, old(t.ways.rows), t.nodeWays.rows, index.locs, calls)
      ensures StrictlyAscending(pendingRelations)
      ensures forall x :: x in pendingRelations <==>
                (x in old(pendingRelations)
                 || x in RelationsOfAll(config.builder, t.nodeWays.rows, index.locs, t.wayRelations.rows, calls))
      ensures t.areas.rows == old(t.areas.rows)
    {
      hide UpdatedAll, Worklist, RelationsOfAll, AreaRows;
      ok, calls := FinishWays();
      NoAreaRows(t.areas.rows);
      pendingRelations := SortUnique(pendingRelations);
      ok := Flush();
      if !ok { return; }
      ok := StartRelationTables();
      progress := RELATION_PHASE;
    }

    method StartRelationTables() returns (ok: bool)
      requires t.Distinct() && ModesNow(t) == CLOSED
      modifies t.areas`copyMode, t.relations`copyMode
      modifies t.nodeRelations`copyMode, t.wayRelations`copyMode, t.relationRelations`copyMode
      ensures ok && ModesNow(t) == ModesOf(RELATION_PHASE)
    {
      ok := t.areas.StartCopy();
      if !ok { return; }
      ok := t.relations.StartCopy();
      if !ok { return; }
      ok := t.nodeRelations.StartCopy();
      if !ok { return; }
      ok := t.wayRelations.StartCopy();
      if !ok { return; }
      ok := t.relationRelations.StartCopy();
    }

    /** `insert_relation`: the nodes of the member ways are read for the geometry. */
    method InsertRelation(e: RelationE) returns (ok: bool)
      modifies t.relations`rows
      ensures t.relations.copyMode && !t.nodeWays.copyMode ==>
                ok && t.relations.rows == old(t.relations.rows) + [RelationRow(e.id)]
    {
      for i := 0 to |e.members|
        invariant t.relations.rows == old(t.relations.rows)
      {
        if e.members[i].kind == WAY {
          var rows;
          ok, rows := t.nodeWays.Select(InList(e.members[i].ref));
          if !ok { return; }
        }
      }
      ok := t.relations.SendLine([RelationRow(e.id)]);
    }

    /** One of the three member lists of a relation; nothing is sent for an empty list. */
    method SendMembers(table: Table<MemberRow>, e: RelationE, kind: ItemType) returns (ok: bool)
      modifies table`rows
      ensures table.copyMode ==> ok && table.rows == old(table.rows) + ListRows(e.id, e.members, kind)
    {
      hide ListRows;
      ok := true;
      var rows := ListRows(e.id, e.members, kind);
      if rows != [] {
        ok := table.SendLine(rows);
      }
    }

    /** `relation` behind its phase checks. */
    method SendRelation(e: RelationE) returns (ok: bool)
      requires InPhase() && progress == RELATION_PHASE
      modifies this`pendingRelations, this`relationsIdx
      modifies t.relations`rows, t.nodeRelations`rows, t.wayRelations`rows, t.relationRelations`rows
      ensures ok
      ensures !e.deleted ==>
                && t.relations.rows == old(t.relations.rows) + [RelationRow(e.id)]
                && t.nodeRelations.rows == old(t.nodeRelations.rows) + ListRows(e.id, e.members, NODE)
                && t.wayRelations.rows == old(t.wayRelations.rows) + ListRows(e.id, e.members, WAY)
                && t.relationRelations.rows == old(t.relationRelations.rows) + ListRows(e.id, e.members, RELATION)
      ensures !e.deleted ==>
                match Search(old(pendingRelations), old(relationsIdx), e.id)
                case None => pendingRelations == old(pendingRelations) && relationsIdx == old(relationsIdx)
                case Some(found) => found < |old(pendingRelations)| && relationsIdx == found
                                    && pendingRelations == old(pendingRelations)[found := 0]
      ensures e.deleted ==>
                && pendingRelations == old(pendingRelations) && relationsIdx == old(relationsIdx)
                && t.relations.rows == old(t.relations.rows) && t.nodeRelations.rows == old(t.nodeRelations.rows)
                && t.wayRelations.rows == old(t.wayRelations.rows)
                && t.relationRelations.rows == old(t.relationRelations.rows)
    {
      hide ListRows;
      if e.deleted {
        return true;
      }
      ok := InsertRelation(e);
      ok := SendMembers(t.nodeRelations, e, NODE);
      ok := SendMembers(t.wayRelations, e, WAY);
      ok := SendMembers(t.relationRelations, e, RELATION);
      pendingRelations, relationsIdx := CrossOff(pendingRelations, relationsIdx, e.id);
    }

    /** `relation`; `calls` are the ways updated before the first relation, `found` is the list of pending relations
        in which the relation is searched. */
    method Relation(e: RelationE) returns (ok: bool, ghost sorted: seq<int>, calls: seq<int>, ghost found: seq<int>)
      requires InPhase() && NoAreas()
      modifies this, t.nodes`copyMode, t.untagged`copyMode, t.ways, t.areas, t.relations, t.nodeWays`copyMode
      modifies t.nodeRelations, t.wayRelations, t.relationRelations
      ensures ok && InPhase() && progress == RELATION_PHASE && NoAreas()
      ensures old(progress) != POINT_PHASE ==> sorted == old(pendingWays)
      ensures old(progress) == POINT_PHASE ==>
                StrictlyAscending(sorted) && forall x :: x in sorted <==> x in old(pendingWays)
      ensures if old(progress) == RELATION_PHASE then calls == [] else Worklist(calls, sorted)
      ensures t.ways.rows == UpdatedAll(config.builder, old(t.ways.rows), t.nodeWays.rows, index.locs, calls)
      ensures old(progress) == RELATION_PHASE ==> found == old(pendingRelations)
      ensures old(progress) != RELATION_PHASE ==>
                && StrictlyAscending(found)
                && forall x :: x in found <==>
                     (x in old(pendingRelations)
                      || x in RelationsOfAll(config.builder, t.nodeWays.rows, index.locs, old(t.wayRelations.rows),
                                             calls))
      ensures match if e.deleted then None else Search(found, old(relationsIdx), e.id)
              case None => pendingRelations == found && relationsIdx == old(relationsIdx)
              case Some(at) => at < |found| && relationsIdx == at && pendingRelations == found[at := 0]
      ensures !e.deleted ==>
                && t.relations.rows == old(t.relations.rows) + [RelationRow(e.id)]
                && t.nodeRelations.rows == old(t.nodeRelations.rows) + ListRows(e.id, e.members, NODE)
                && t.wayRelations.rows == old(t.wayRelations.rows) + ListRows(e.id, e.members, WAY)
                && t.relationRelations.rows == old(t.relationRelations.rows) + ListRows(e.id, e.members, RELATION)
      ensures e.deleted ==>
                && t.relations.rows == old(t.relations.rows) && t.nodeRelations.rows == old(t.nodeRelations.rows)
                && t.wayRelations.rows == old(t.wayRelations.rows)
                && t.relationRelations.rows == old(t.relationRelations.rows)
      ensures t.areas.rows == old(t.areas.rows)
    {
      hide SteppedOver, UpdatedWays, ListRows, RelationsOfAll, Worklist;
      if progress == POINT_PHASE {
        ok := WriteNewNodes();
      }
      sorted, calls := pendingWays, [];
      if progress != RELATION_PHASE {
        ok, calls := WriteNewWays();
      }
      found := pendingRelations;
      ok := SendRelation(e);
    }

    // ----- pending relations

    /** `update_multipolygon_geometry` */
    method UpdateMultipolygonGeometry(id: int, members: seq<Placed>) returns (ok: bool)
      modifies this`updatedAreas
      ensures !t.nodeWays.copyMode || NoWays(members) ==> ok
      ensures ok ==> updatedAreas == old(updatedAreas) + If(config.assembles(id), id)
    {
      for i := 0 to |members|
        invariant updatedAreas == old(updatedAreas)
      {
        var m := members[i];
        if m.kind == WAY && m.id != 0 && !config.memberWay(m.id) {
          var rows;
          ok, rows := t.nodeWays.Select(InList(m.id));
          if !ok { return; }
        }
      }
      ok := true;
      assert updatedAreas + [] == updatedAreas;
      if config.assembles(id) {
        updatedAreas := updatedAreas + [id];
      }
    }

    /** The merge of the three member tables in `update_relation`. */
    method MembersOf(id: int) returns (ok: bool, members: seq<Placed>)
      ensures ok == (!t.nodeRelations.copyMode && !t.wayRelations.copyMode && !t.relationRelations.copyMode)
      ensures ok ==> IsSortOf(members, Places(Filter(t.nodeRelations.rows, MemberOf(id)), NODE)
                                       + Places(Filter(t.wayRelations.rows, MemberOf(id)), WAY)
                                       + Places(Filter(t.relationRelations.rows, MemberOf(id)), RELATION), PlacedPos)
    {
      hide Filter;
      members := [];
      var nodes, ways, relations;
      ok, nodes := t.nodeRelations.Select(MemberOf(id));
      if !ok { return; }
      ok, ways := t.wayRelations.Select(MemberOf(id));
      if !ok { return; }
      ok, relations := t.relationRelations.Select(MemberOf(id));
      if !ok { return; }
      members := SortBy(Places(nodes, NODE) + Places(ways, WAY) + Places(relations, RELATION), PlacedPos);
    }

    /** The relation has an area in the table and the assembler finds one for it. */
    predicate UpdatesArea(id: int)
      reads t.areas`rows
    {
      config.areas && Filter(t.areas.rows, HasOsmId(-id)) != [] && config.assembles(id)
    }

    function AreaUpdates(ids: seq<int>): seq<int>
      reads t.areas`rows
    {
      if ids == [] then []
      else AreaUpdates(ids[..|ids| - 1]) + If(UpdatesArea(ids[|ids| - 1]), ids[|ids| - 1])
    }

    /** The relation has a way among its stored members. */
    predicate HasWayMember(id: int)
      reads t.wayRelations`rows
    {
      Filter(t.wayRelations.rows, MemberOf(id)) != []
    }

    /** The tables of the relation phase are out of COPY mode. */
    predicate RelationTablesClosed()
      reads t.nodeRelations`copyMode, t.wayRelations`copyMode, t.relationRelations`copyMode
      reads t.relations`copyMode, t.areas`copyMode
    {
      && !t.nodeRelations.copyMode && !t.wayRelations.copyMode && !t.relationRelations.copyMode
      && !t.relations.copyMode && !t.areas.copyMode
    }

    /** `update_relation`; it fails at a member way if the node lists are in COPY mode. */
    method UpdateRelation(id: int) returns (ok: bool)
      requires RelationTablesClosed()
      modifies this`updatedAreas, t.relations`rows
      ensures ok == (!t.nodeWays.copyMode || !HasWayMember(id))
      ensures t.relations.rows == old(t.relations.rows)
      ensures ok ==> updatedAreas == old(updatedAreas) + If(UpdatesArea(id), id)
    {
      hide Filter, IsSortOf;
      assert updatedAreas + [] == updatedAreas;
      var members;
      ok, members := MembersOf(id);
      WaysAmong(Filter(t.nodeRelations.rows, MemberOf(id)), Filter(t.wayRelations.rows, MemberOf(id)),
                Filter(t.relationRelations.rows, MemberOf(id)), members);
      for i := 0 to |members|
        invariant updatedAreas == old(updatedAreas) && t.relations.rows == old(t.relations.rows)
        invariant t.nodeWays.copyMode ==> forall j :: 0 <= j < i ==> members[j].kind != WAY
      {
        if members[i].kind == WAY {
          var rows;
          ok, rows := t.nodeWays.Select(InList(members[i].id));
          if !ok { return; }
        }
      }
      ok := t.relations.Update(IsRelation(id), SameRelation);
      if config.areas {
        var found;
        ok, found := t.areas.Select(HasOsmId(-id));
        if found != [] {
          ok := UpdateMultipolygonGeometry(id, members);
        }
      }
    }

    /** The function is called for the whole worklist, until a call throws. */
    method WorkOnPendingRelations() returns (ok: bool, calls: seq<int>)
      requires RelationTablesClosed()
      modifies this`pendingRelations, this`updatedAreas, t.relations`rows
      ensures Worklist(calls, old(pendingRelations))
      ensures ok == (!t.nodeWays.copyMode || forall i :: 0 <= i < |calls| ==> !HasWayMember(calls[i]))
      ensures ok ==> updatedAreas == old(updatedAreas) + AreaUpdates(calls)
      ensures t.relations.rows == old(t.relations.rows)
    {
      hide SteppedOver, HasWayMember, UpdatesArea;
      ok := true;
      pendingRelations, calls := CleanUp(pendingRelations);
      assert updatedAreas + [] == updatedAreas;
      for i := 0 to |calls|
        invariant ok && (t.nodeWays.copyMode ==> forall j :: 0 <= j < i ==> !HasWayMember(calls[j]))
        invariant updatedAreas == old(updatedAreas) + AreaUpdates(calls[..i])
        invariant t.relations.rows == old(t.relations.rows)
      {
        ok := UpdateRelation(calls[i]);
        if !ok { return; }
        assert calls[..i + 1][..i] == calls[..i];
        Assoc(old(updatedAreas), AreaUpdates(calls[..i]), If(UpdatesArea(calls[i]), calls[i]));
      }
      assert calls[..|calls|] == calls;
    }

    /** `after_relations`; the tables of the node phase and of the way phase are not closed here, and behind the way
        phase the calls fail that read the nodes of a member way. */
    method AfterRelations() returns (ok: bool, calls: seq<int>)
      requires InPhase()
      modifies this`pendingRelations, this`updatedAreas, t.relations
      modifies t.nodeRelations`copyMode, t.wayRelations`copyMode, t.relationRelations`copyMode, t.areas`copyMode
      ensures Worklist(calls, old(pendingRelations))
      ensures ModesNow(t) == ModesBehind(progress)
      ensures ok == (progress != WAY_PHASE || forall i :: 0 <= i < |calls| ==> !HasWayMember(calls[i]))
      ensures ok ==> updatedAreas == old(updatedAreas) + AreaUpdates(calls)
      ensures t.relations.rows == old(t.relations.rows)
    {
      hide Worklist, HasWayMember, AreaUpdates;
      t.relations.EndCopy();
      t.nodeRelations.EndCopy();
      t.wayRelations.EndCopy();
      t.relationRelations.EndCopy();
      t.areas.EndCopy();
      ok, calls := WorkOnPendingRelations();
    }

    // ----- incomplete relations

    /** `incomplete_relation` */
    method IncompleteRelation(e: RelationE) returns (ok: bool)
      modifies this`newAreas
      ensures !t.nodeWays.copyMode ==> ok
      ensures ok ==> newAreas == old(newAreas) + If(config.assembles(e.id), AreaE(e.id, false, e.interesting))
    {
      assert newAreas + [] == newAreas;
      for i := 0 to |e.members|
        invariant newAreas == old(newAreas)
      {
        var m := e.members[i];
        if m.ref != 0 && !config.memberWay(m.ref) {
          var rows;
          ok, rows := t.nodeWays.Select(InList(m.ref));
          if !ok { return; }
        }
      }
      ok := true;
      if config.assembles(e.id) {
        newAreas := newAreas + [AreaE(e.id, false, e.interesting)];
      }
    }

    /** The areas that the assembler makes of incomplete relations. */
    function Assembled(incomplete: seq<RelationE>): seq<AreaE> {
      if incomplete == [] then []
      else
        var e := incomplete[|incomplete| - 1];
        Assembled(incomplete[..|incomplete| - 1]) + If(config.assembles(e.id), AreaE(e.id, false, e.interesting))
    }

    /** The last step of an update in src/pgimporter.cpp. */
    method WorkOnIncomplete(incomplete: seq<RelationE>) returns (ok: bool)
      requires ModesNow(t) == CLOSED && newAreas == []
      modifies this`newAreas, this`updatedAreas, t.areas
      ensures ok && ModesNow(t) == CLOSED && (config.areas ==> NoAreas())
      ensures t.areas.rows == old(t.areas.rows) + if config.areas then AreaRows(Assembled(incomplete)) else []
    {
      hide AreaRows;
      ok := true;
      if config.areas {
        ok := Flush();
        NoAreaRows(old(t.areas.rows));
        ok := t.areas.StartCopy();
        for i := 0 to |incomplete|
          invariant ok && updatedAreas == [] && t.areas.copyMode && !t.nodeWays.copyMode
          invariant newAreas == Assembled(incomplete[..i]) && t.areas.rows == old(t.areas.rows)
        {
          ok := IncompleteRelation(incomplete[i]);
          assert incomplete[..i + 1][..i] == incomplete[..i];
        }
        assert incomplete[..|incomplete|] == incomplete;
        ok := Flush();
        t.areas.EndCopy();
      }
    }
  }

  /** The rows that new areas get. */
  function AreaRows(areas: seq<AreaE>): seq<AreaRow> {
    if areas == [] then []
    else
      var e := areas[|areas| - 1];
      AreaRows(areas[..|areas| - 1]) + If(e.interesting, AreaRow(if e.fromWay then e.id else -e.id))
  }

  lemma NoAreaRows(rows: seq<AreaRow>)
    ensures rows + AreaRows([]) == rows
  {
  }

  lemma AreaRowsStep(rows: seq<AreaRow>, areas: seq<AreaE>, i: nat)
    requires i < |areas|
    ensures rows + AreaRows(areas[..i]) + AreaRows([areas[i]]) == rows + AreaRows(areas[..i + 1])
  {
    assert areas[..i + 1][..i] == areas[..i] && [areas[i]][..0] == [];
    var e := areas[i];
    assert AreaRows([e]) == AreaRows([]) + If(e.interesting, AreaRow(if e.fromWay then e.id else -e.id));
    Assoc(rows, AreaRows(areas[..i]), AreaRows([areas[i]]));
  }

  /** The geometry of an area is not modelled. */
  function SameArea(r: AreaRow): AreaRow { r }

  /** Nor are those of a relation. */
  function SameRelation(r: RelationRow): RelationRow { r }

  lemma {:induction false} SearchNothing(pending: seq<int>, from: nat, id: int)
    ensures id !in pending ==> Search(pending, from, id).None?
    decreases |pending| - from
  {
    if from < |pending| { SearchNothing(pending, from + 1, id); }
  }
}
