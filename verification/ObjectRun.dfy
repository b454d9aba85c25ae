/** What the objects of a diff do to the rows of the nodes, the relations and the areas. */
module ObjectRun {
  import opened DiffGeometry
  import opened DiffPass1
  import opened DiffPass2
  import opened DiffRun
  import opened DiffTables
  import opened PgTables
  import opened RelationRun
  import opened Sequences
  import opened WayRun

  // ----- pass 1

  /** No two entries of the diff are for this node. */
  ghost predicate Once(es: seq<Event>, id: int) {
    forall i, j :: 0 <= i < j < |es| && es[i].OfNode? && es[j].OfNode? && es[i].node.id == id ==> es[j].node.id != id
  }

  /** What pass 1 leaves of the rows of a node: the first table is asked only if the second one has no row. */
  ghost predicate NodesAfter(es: seq<Event>, untaggedNodes: bool, before: Objects, after: Objects, gone: set<int>) {
    forall id :: Once(es, id) ==>
      && Filter(after.untagged, AtNode(id)) ==
         (if id in gone && untaggedNodes then [] else Filter(before.untagged, AtNode(id)))
      && Filter(after.nodes, AtNode(id)) ==
         (if id in gone && !(untaggedNodes && Filter(before.untagged, AtNode(id)) != []) then []
          else Filter(before.nodes, AtNode(id)))
  }

  ghost predicate RelationRowsAfter(before: seq<RelationRow>, after: seq<RelationRow>, gone: set<int>) {
    forall id :: Filter(after, IsRelation(id)) == if id in gone then [] else Filter(before, IsRelation(id))
  }

  ghost predicate AreaRowsAfter(before: seq<AreaRow>, after: seq<AreaRow>, gone: set<int>) {
    forall id :: Filter(after, HasOsmId(id)) == if id in gone then [] else Filter(before, HasOsmId(id))
  }

  /** The ids under which pass 1 deletes areas. */
  function GoneAreas(config: Config, es: seq<Event>): set<int> {
    if config.areas then GoneWays(es) + GoneRelations(es) else {}
  }

  ghost predicate ObjectsAfterPass1(es: seq<Event>, config: Config, before: Objects, after: Objects, done: seq<Event>) {
    && NodesAfter(es, config.untaggedNodes, before, after, GoneNodes(done))
    && RelationRowsAfter(before.relations, after.relations, GoneRelations(done))
    && AreaRowsAfter(before.areas, after.areas, GoneAreas(config, done))
  }

  lemma NoObjectGone(es: seq<Event>, config: Config, objects: Objects)
    ensures ObjectsAfterPass1(es, config, objects, objects, [])
  {
    hide Filter;
  }

  /** A selection behind a DELETE by another or by the same id. */
  lemma FilterDeleted<T>(rows: seq<T>, p: T -> bool, gone: T -> bool, same: bool)
    requires if same then p == gone else forall x :: p(x) ==> !gone(x)
    ensures Filter(Rest(rows, gone), p) == if same then [] else Filter(rows, p)
  {
    hide Filter, Rest;
    if same {
      forall i | 0 <= i < |Rest(rows, p)| ensures !p(Rest(rows, p)[i]) {
        RestMember(rows, p, Rest(rows, p)[i]);
      }
      FilterAll(Rest(rows, p), p);
    } else {
      FilterRest(rows, p, gone);
    }
  }

  /** What one object deletes in pass 1. */
  ghost predicate ObjectsRemoved(e: Event, config: Config, before: Objects, after: Objects) {
    match e
    case OfNode(n) =>
      var keep := Untouched(n.version, n.deleted);
      var untagged := config.untaggedNodes && Filter(before.untagged, AtNode(n.id)) != [];
      after == before.(untagged := if keep || !config.untaggedNodes then before.untagged
                                   else Rest(before.untagged, AtNode(n.id)),
                       nodes := if keep || untagged then before.nodes else Rest(before.nodes, AtNode(n.id)))
    case OfWay(w) =>
      after == before.(areas := if Untouched(w.version, w.deleted) || !config.areas then before.areas
                                else Rest(before.areas, HasOsmId(w.id)))
    case OfRelation(r) =>
      var gone := r.version > 1 || r.deleted;
      after == before.(relations := if gone then Rest(before.relations, IsRelation(r.id)) else before.relations,
                       areas := if gone && config.areas then Rest(before.areas, HasOsmId(r.id)) else before.areas)
    case OfArea(_) => after == before
  }

  lemma NodeGone(es: seq<Event>, i: nat, config: Config, before: Objects, now: Objects, after: Objects)
    requires i < |es| && es[i].OfNode? && ObjectsAfterPass1(es, config, before, now, es[..i])
    requires ObjectsRemoved(es[i], config, now, after)
    ensures ObjectsAfterPass1(es, config, before, after, es[..i + 1])
  {
    hide Filter, Rest, GoneNodes, GoneWays, GoneRelations, Untouched;
    var n := es[i].node;
    GoneGrows(es, i);
    GoneRelationsGrow(es, i);
    if !Untouched(n.version, n.deleted) {
      if Once(es, n.id) { NotGoneBefore(es, i); }
      forall id
        ensures Filter(Rest(now.untagged, AtNode(n.id)), AtNode(id)) ==
                if id == n.id then [] else Filter(now.untagged, AtNode(id))
        ensures Filter(Rest(now.nodes, AtNode(n.id)), AtNode(id)) ==
                if id == n.id then [] else Filter(now.nodes, AtNode(id))
      {
        FilterDeleted(now.untagged, AtNode(id), AtNode(n.id), id == n.id);
        FilterDeleted(now.nodes, AtNode(id), AtNode(n.id), id == n.id);
      }
    }
  }

  lemma NotGoneBefore(es: seq<Event>, i: nat)
    requires i < |es| && es[i].OfNode? && Once(es, es[i].node.id)
    ensures es[i].node.id !in GoneNodes(es[..i])
  {
    forall j | 0 <= j < i && es[j].OfNode? ensures es[j].node.id != es[i].node.id {
    }
    forall e | e in es[..i] && e.OfNode? ensures e.node.id != es[i].node.id {
      var j :| 0 <= j < i && es[..i][j] == e;
      assert es[j] == e;
    }
  }

  lemma AreasGone(before: seq<AreaRow>, now: seq<AreaRow>, gone: set<int>, id: int)
    requires AreaRowsAfter(before, now, gone)
    ensures AreaRowsAfter(before, Rest(now, HasOsmId(id)), gone + {id})
  {
    hide Filter, Rest;
    forall x
      ensures Filter(Rest(now, HasOsmId(id)), HasOsmId(x)) == if x == id then [] else Filter(now, HasOsmId(x))
    {
      FilterDeleted(now, HasOsmId(x), HasOsmId(id), x == id);
    }
  }

  lemma WayGone(es: seq<Event>, i: nat, config: Config, before: Objects, now: Objects, after: Objects)
    requires i < |es| && es[i].OfWay? && ObjectsAfterPass1(es, config, before, now, es[..i])
    requires ObjectsRemoved(es[i], config, now, after)
    ensures ObjectsAfterPass1(es, config, before, after, es[..i + 1])
  {
    hide Filter, Rest, GoneNodes, GoneWays, GoneRelations, Untouched, AreaRowsAfter;
    GoneGrows(es, i);
    GoneRelationsGrow(es, i);
    var w := es[i].way;
    if config.areas && !Untouched(w.version, w.deleted) {
      AreasGone(before.areas, now.areas, GoneAreas(config, es[..i]), w.id);
      assert GoneAreas(config, es[..i + 1]) == GoneAreas(config, es[..i]) + {w.id};
    }
  }

  lemma RelationGone(es: seq<Event>, i: nat, config: Config, before: Objects, now: Objects, after: Objects)
    requires i < |es| && es[i].OfRelation? && ObjectsAfterPass1(es, config, before, now, es[..i])
    requires ObjectsRemoved(es[i], config, now, after)
    ensures ObjectsAfterPass1(es, config, before, after, es[..i + 1])
  {
    hide Filter, Rest, GoneNodes, GoneWays, GoneRelations, AreaRowsAfter;
    GoneGrows(es, i);
    GoneRelationsGrow(es, i);
    var r := es[i].relation;
    if Gone(es[i]) {
      forall x
        ensures Filter(Rest(now.relations, IsRelation(r.id)), IsRelation(x)) ==
                if x == r.id then [] else Filter(now.relations, IsRelation(x))
      {
        FilterDeleted(now.relations, IsRelation(x), IsRelation(r.id), x == r.id);
      }
      if config.areas {
        AreasGone(before.areas, now.areas, GoneAreas(config, es[..i]), r.id);
        assert GoneAreas(config, es[..i + 1]) == GoneAreas(config, es[..i]) + {r.id};
      }
    }
  }

  lemma ObjectGone(es: seq<Event>, i: nat, config: Config, before: Objects, now: Objects, after: Objects)
    requires i < |es| && ObjectsAfterPass1(es, config, before, now, es[..i])
    requires ObjectsRemoved(es[i], config, now, after)
    ensures ObjectsAfterPass1(es, config, before, after, es[..i + 1])
  {
    hide GoneNodes, GoneWays, GoneRelations, NodesAfter, RelationRowsAfter, AreaRowsAfter, Filter, Rest;
    match es[i]
    case OfNode(_) => NodeGone(es, i, config, before, now, after);
    case OfWay(_) => WayGone(es, i, config, before, now, after);
    case OfRelation(_) => RelationGone(es, i, config, before, now, after);
    case OfArea(_) =>
      GoneGrows(es, i);
      GoneRelationsGrow(es, i);
  }

  // ----- pass 2

  /** The rows that all objects of a stream add to a table. */
  function AddedBy<T>(es: seq<Event>, f: Event -> seq<T>): seq<T> {
    if es == [] then [] else AddedBy(es[..|es| - 1], f) + f(es[|es| - 1])
  }

  /** What the diff has sent stands behind what pass 1 left. */
  ghost predicate ObjectsAdded(es: seq<Event>, untaggedNodes: bool, before: Objects, after: Objects) {
    && after.nodes == before.nodes + AddedBy(es, PointsBy(untaggedNodes))
    && after.untagged == before.untagged + AddedBy(es, UntaggedBy(untaggedNodes))
    && after.relations == before.relations + AddedBy(es, RelationBy())
    && after.areas == before.areas + AddedBy(es, AreaBy())
  }

  lemma NothingAdded(untaggedNodes: bool, objects: Objects)
    ensures ObjectsAdded([], untaggedNodes, objects, objects)
  {
  }

  lemma ObjectsGrow(es: seq<Event>, i: nat, untaggedNodes: bool, before: Objects, now: Objects, after: Objects)
    requires i < |es| && ObjectsAdded(es[..i], untaggedNodes, before, now)
    requires ObjectEffect(es[i], untaggedNodes, now, after)
    ensures ObjectsAdded(es[..i + 1], untaggedNodes, before, after)
  {
    hide PointsBy, UntaggedBy, RelationBy, AreaBy;
    AddedMore(es, i, PointsBy(untaggedNodes), before.nodes);
    AddedMore(es, i, UntaggedBy(untaggedNodes), before.untagged);
    AddedMore(es, i, RelationBy(), before.relations);
    AddedMore(es, i, AreaBy(), before.areas);
  }

  lemma AddedMore<T>(es: seq<Event>, i: nat, f: Event -> seq<T>, rows: seq<T>)
    requires i < |es|
    ensures rows + AddedBy(es[..i + 1], f) == rows + AddedBy(es[..i], f) + f(es[i])
  {
    assert es[..i + 1][..i] == es[..i];
    Assoc(rows, AddedBy(es[..i], f), f(es[i]));
  }

  /** If at most one object adds rows of this kind, they are all that is added of it. */
  lemma {:induction false} AddedOnce<T>(es: seq<Event>, f: Event -> seq<T>, p: T -> bool, i: nat)
    requires i <= |es| && forall j :: 0 <= j < |es| && j != i ==> Filter(f(es[j]), p) == []
    ensures Filter(AddedBy(es, f), p) == if i < |es| then Filter(f(es[i]), p) else []
  {
    hide Filter;
    if es == [] {
      FilterAll(AddedBy(es, f), p);
    } else {
      var last := |es| - 1;
      assert forall j :: 0 <= j < last ==> es[..last][j] == es[j];
      AddedOnce(es[..last], f, p, if i <= last then i else last);
      FilterAppend(AddedBy(es[..last], f), f(es[last]), p);
    }
  }

  // ----- nodes

  /** The node has exactly the rows that its entry calls for. */
  ghost predicate NodeRight(n: NodeE, untaggedNodes: bool, before: Objects, after: Objects) {
    && Filter(after.nodes, AtNode(n.id)) ==
       (if !n.deleted && n.location != Nowhere && n.interesting && (untaggedNodes || !n.bare) then [PointRow(n.id)]
        else [])
    && Filter(after.untagged, AtNode(n.id)) ==
       if !untaggedNodes then Filter(before.untagged, AtNode(n.id))
       else if !n.deleted && n.location != Nowhere && !n.interesting then [PointRow(n.id)]
       else []
  }

  /** A first version is not stored yet, and another one is not in both tables. */
  ghost predicate NodeClean(n: NodeE, untaggedNodes: bool, before: Objects) {
    var tagged, untagged := PointRow(n.id) in before.nodes, untaggedNodes && PointRow(n.id) in before.untagged;
    if n.version == 1 && !n.deleted then !tagged && !untagged else !(tagged && untagged)
  }

  ghost predicate NodesRight(es: seq<Event>, untaggedNodes: bool, before: Objects, after: Objects) {
    && (forall i :: 0 <= i < |es| && es[i].OfNode? && Once(es, es[i].node.id) ==>
          (NodeRight(es[i].node, untaggedNodes, before, after) <==> NodeClean(es[i].node, untaggedNodes, before)))
    && (forall id :: (forall i :: 0 <= i < |es| && es[i].OfNode? ==> es[i].node.id != id) ==>
          && Filter(after.nodes, AtNode(id)) == Filter(before.nodes, AtNode(id))
          && Filter(after.untagged, AtNode(id)) == Filter(before.untagged, AtNode(id)))
  }

  lemma PointsOfOther(e: Event, untaggedNodes: bool, id: int)
    ensures e.OfNode? && e.node.id == id ==>
              && Filter(PointsBy(untaggedNodes)(e), AtNode(id)) == PointsBy(untaggedNodes)(e)
              && Filter(UntaggedBy(untaggedNodes)(e), AtNode(id)) == UntaggedBy(untaggedNodes)(e)
    ensures !(e.OfNode? && e.node.id == id) ==>
              && Filter(PointsBy(untaggedNodes)(e), AtNode(id)) == []
              && Filter(UntaggedBy(untaggedNodes)(e), AtNode(id)) == []
  {
    hide Filter;
    FilterAll(PointsBy(untaggedNodes)(e), AtNode(id));
    FilterAll(UntaggedBy(untaggedNodes)(e), AtNode(id));
  }

  /** The rows of one node behind pass 2; `i` is its entry, or the length of the diff if there is none. */
  lemma NodeRows(es: seq<Event>, untaggedNodes: bool, now: Objects, after: Objects, id: int, i: nat)
    requires ObjectsAdded(es, untaggedNodes, now, after)
    requires i <= |es| && forall j :: 0 <= j < |es| && j != i ==> !(es[j].OfNode? && es[j].node.id == id)
    requires i < |es| ==> es[i].OfNode? && es[i].node.id == id
    ensures Filter(after.nodes, AtNode(id)) ==
            Filter(now.nodes, AtNode(id)) + if i < |es| then PointsBy(untaggedNodes)(es[i]) else []
    ensures Filter(after.untagged, AtNode(id)) ==
            Filter(now.untagged, AtNode(id)) + if i < |es| then UntaggedBy(untaggedNodes)(es[i]) else []
  {
    hide Filter, PointsBy, UntaggedBy, AddedBy;
    forall j | 0 <= j < |es| && j != i
      ensures Filter(PointsBy(untaggedNodes)(es[j]), AtNode(id)) == []
      ensures Filter(UntaggedBy(untaggedNodes)(es[j]), AtNode(id)) == []
    {
      PointsOfOther(es[j], untaggedNodes, id);
    }
    if i < |es| { PointsOfOther(es[i], untaggedNodes, id); }
    AddedOnce(es, PointsBy(untaggedNodes), AtNode(id), i);
    AddedOnce(es, UntaggedBy(untaggedNodes), AtNode(id), i);
    FilterAppend(now.nodes, AddedBy(es, PointsBy(untaggedNodes)), AtNode(id));
    FilterAppend(now.untagged, AddedBy(es, UntaggedBy(untaggedNodes)), AtNode(id));
  }

  lemma StoredNode(rows: seq<PointRow>, id: int)
    ensures Filter(rows, AtNode(id)) != [] <==> PointRow(id) in rows
  {
    hide Filter;
    var found := Filter(rows, AtNode(id));
    FilterMember(rows, AtNode(id), PointRow(id));
    if found != [] {
      FilterMember(rows, AtNode(id), found[0]);
      assert found[0] == PointRow(id);
    }
  }

  lemma NodesAreRight(es: seq<Event>, config: Config, before: Objects, now: Objects, after: Objects)
    requires ObjectsAfterPass1(es, config, before, now, es)
    requires ObjectsAdded(es, config.untaggedNodes, now, after)
    ensures NodesRight(es, config.untaggedNodes, before, after)
  {
    hide Filter, ObjectsAdded, GoneNodes;
    forall i | 0 <= i < |es| && es[i].OfNode? && Once(es, es[i].node.id)
      ensures NodeRight(es[i].node, config.untaggedNodes, before, after)
              <==> NodeClean(es[i].node, config.untaggedNodes, before)
    {
      NodeIsRight(es, config, before, now, after, i);
    }
    forall id | forall i :: 0 <= i < |es| && es[i].OfNode? ==> es[i].node.id != id
      ensures Filter(after.nodes, AtNode(id)) == Filter(before.nodes, AtNode(id))
      ensures Filter(after.untagged, AtNode(id)) == Filter(before.untagged, AtNode(id))
    {
      NodeRows(es, config.untaggedNodes, now, after, id, |es|);
      NoEntryIsGone(es, id);
      assert Once(es, id);
    }
  }

  lemma NoEntryIsGone(es: seq<Event>, id: int)
    requires forall i :: 0 <= i < |es| && es[i].OfNode? ==> es[i].node.id != id
    ensures id !in GoneNodes(es)
  {
    forall e | e in es && e.OfNode? ensures e.node.id != id {
      var j :| 0 <= j < |es| && es[j] == e;
    }
  }

  lemma GoneIff(es: seq<Event>, i: nat)
    requires i < |es| && es[i].OfNode? && Once(es, es[i].node.id)
    ensures es[i].node.id in GoneNodes(es) <==> !Untouched(es[i].node.version, es[i].node.deleted)
  {
    var n := es[i].node;
    forall e | e in es && e.OfNode? && e.node.id == n.id ensures e == es[i] {
      var j :| 0 <= j < |es| && es[j] == e;
      assert !(j < i) && !(i < j);
    }
  }

  lemma NodeIsRight(es: seq<Event>, config: Config, before: Objects, now: Objects, after: Objects, i: nat)
    requires i < |es| && es[i].OfNode? && Once(es, es[i].node.id)
    requires ObjectsAfterPass1(es, config, before, now, es)
    requires ObjectsAdded(es, config.untaggedNodes, now, after)
    ensures NodeRight(es[i].node, config.untaggedNodes, before, after)
            <==> NodeClean(es[i].node, config.untaggedNodes, before)
  {
    hide Filter, ObjectsAdded, GoneNodes, GoneRelations, GoneAreas, RelationRowsAfter, AreaRowsAfter;
    var n := es[i].node;
    GoneIff(es, i);
    NodeRows(es, config.untaggedNodes, now, after, n.id, i);
    StoredNode(before.nodes, n.id);
    StoredNode(before.untagged, n.id);
    RowsFit(Filter(now.nodes, AtNode(n.id)), PointsBy(config.untaggedNodes)(es[i]));
    RowsFit(Filter(now.untagged, AtNode(n.id)), UntaggedBy(config.untaggedNodes)(es[i]));
  }

  lemma RowsFit<T>(kept: seq<T>, new_: seq<T>)
    ensures kept + new_ == new_ <==> kept == []
    ensures new_ == [] ==> kept + new_ == kept
  {
    if kept + new_ == new_ { assert |kept| + |new_| == |new_|; }
  }

  /** A database with a node in both tables, and a diff that deletes the node: the tagged row stays. */
  lemma NodeInBothTablesStays(id: int, config: Config, now: Objects, after: Objects)
    requires config.untaggedNodes
    requires var es := [OfNode(NodeE(id, 2, true, Nowhere, false, true))];
             && ObjectsAfterPass1(es, config, Objects([PointRow(id)], [PointRow(id)], [], []), now, es)
             && ObjectsAdded(es, true, now, after)
    ensures PointRow(id) in after.nodes
  {
    hide Filter, ObjectsAdded, GoneNodes, RelationRowsAfter, AreaRowsAfter;
    var es := [OfNode(NodeE(id, 2, true, Nowhere, false, true))];
    StoredNode([PointRow(id)], id);
    assert Once(es, es[0].node.id);
    GoneIff(es, 0);
    NodeRows(es, true, now, after, id, 0);
    StoredNode(after.nodes, id);
  }

  // ----- relations

  /** The row of a relation: of the diff if it is named there, and otherwise as it was. A first version that is stored
      already gets a second row. */
  ghost predicate RelationRowsRight(es: seq<Event>, before: seq<RelationRow>, after: seq<RelationRow>) {
    && (forall i :: 0 <= i < |es| && es[i].OfRelation? ==>
          var r := es[i].relation;
          (Filter(after, IsRelation(r.id)) == (if r.deleted then [] else [RelationRow(r.id)])
           <==> r.version > 1 || r.deleted || RelationRow(r.id) !in before))
    && (forall id :: !Mentions(es, id) ==> Filter(after, IsRelation(id)) == Filter(before, IsRelation(id)))
  }

  lemma RowOfOther(e: Event, id: int)
    ensures Filter(RelationBy()(e), IsRelation(id)) ==
            if e.OfRelation? && e.relation.id == id then RelationBy()(e) else []
  {
    hide Filter;
    FilterAll(RelationBy()(e), IsRelation(id));
  }

  lemma RelationRows(es: seq<Event>, now: seq<RelationRow>, id: int, i: nat)
    requires i <= |es| && forall j :: 0 <= j < |es| && j != i ==> !(es[j].OfRelation? && es[j].relation.id == id)
    requires i < |es| ==> es[i].OfRelation? && es[i].relation.id == id
    ensures Filter(now + AddedBy(es, RelationBy()), IsRelation(id)) ==
            Filter(now, IsRelation(id)) + if i < |es| then RelationBy()(es[i]) else []
  {
    hide Filter, RelationBy, AddedBy;
    forall j | 0 <= j < |es| && j != i ensures Filter(RelationBy()(es[j]), IsRelation(id)) == [] {
      RowOfOther(es[j], id);
    }
    if i < |es| { RowOfOther(es[i], id); }
    AddedOnce(es, RelationBy(), IsRelation(id), i);
    FilterAppend(now, AddedBy(es, RelationBy()), IsRelation(id));
  }

  lemma StoredRelation(rows: seq<RelationRow>, id: int)
    ensures Filter(rows, IsRelation(id)) != [] <==> RelationRow(id) in rows
  {
    hide Filter;
    var found := Filter(rows, IsRelation(id));
    FilterMember(rows, IsRelation(id), RelationRow(id));
    if found != [] {
      FilterMember(rows, IsRelation(id), found[0]);
      assert found[0] == RelationRow(id);
    }
  }

  lemma RelationRowsAreRight(es: seq<Event>, rel0: Relations, before: seq<RelationRow>, now: seq<RelationRow>)
    requires GoodRelations(es, rel0) && RelationRowsAfter(before, now, GoneRelations(es))
    ensures RelationRowsRight(es, before, now + AddedBy(es, RelationBy()))
  {
    hide Filter, NoLists, GoneRelations, AddedBy;
    forall i | 0 <= i < |es| && es[i].OfRelation?
      ensures var r := es[i].relation;
              Filter(now + AddedBy(es, RelationBy()), IsRelation(r.id)) ==
              (if r.deleted then [] else [RelationRow(r.id)])
              <==> r.version > 1 || r.deleted || RelationRow(r.id) !in before
    {
      var r := es[i].relation;
      RelationRows(es, now, r.id, i);
      RelationGoneIff(es, rel0, i);
      StoredRelation(before, r.id);
      RowsFit(Filter(now, IsRelation(r.id)), RelationBy()(es[i]));
    }
    forall id | !Mentions(es, id)
      ensures Filter(now + AddedBy(es, RelationBy()), IsRelation(id)) == Filter(before, IsRelation(id))
    {
      RelationRows(es, now, id, |es|);
      NotGone(es, id);
    }
  }

  lemma RelationGoneIff(es: seq<Event>, rel0: Relations, i: nat)
    requires GoodRelations(es, rel0) && i < |es| && es[i].OfRelation?
    ensures es[i].relation.id in GoneRelations(es) <==> es[i].relation.version > 1 || es[i].relation.deleted
  {
    hide NoLists;
    forall e | e in es && e.OfRelation? && e.relation.id == es[i].relation.id ensures e == es[i] {
      var j :| 0 <= j < |es| && es[j] == e;
      assert !(j < i) && !(i < j);
    }
  }

  // ----- areas

  /** An area of the stream that is stored under this id: areas of relations under negated ids. */
  function StoredAs(osmId: int): Event -> bool {
    (e: Event) => e.OfArea? && e.area.interesting && osmId == if e.area.fromWay then e.area.id else -e.area.id
  }

  /** An incomplete relation that gives an area with this id. */
  function AssembledAs(config: Config, osmId: int): RelationE -> bool {
    (r: RelationE) => config.areas && r.interesting && config.assembles(r.id) && osmId == -r.id
  }

  /** The areas under this id are deleted, with a way or with a relation that has the id itself. */
  ghost predicate AreaLost(es: seq<Event>, config: Config, osmId: int) {
    config.areas && exists e :: e in es && match e
                                           case OfWay(w) => w.id == osmId && (w.version != 1 || w.deleted)
                                           case OfRelation(r) => r.id == osmId && (r.version > 1 || r.deleted)
                                           case _ => false
  }

  lemma LostIsGone(es: seq<Event>, config: Config, osmId: int)
    ensures AreaLost(es, config, osmId) <==> osmId in GoneAreas(config, es)
  {
    if config.areas && osmId in GoneWays(es) {
      var e :| e in es && e.OfWay? && !Untouched(e.way.version, e.way.deleted) && e.way.id == osmId;
    }
    if config.areas && osmId in GoneRelations(es) {
      var e :| e in es && Gone(e) && e.relation.id == osmId;
    }
  }

  /** Under every id there are the areas that were there before, unless they are lost, those of the stream
      and those of the incomplete relations. */
  ghost predicate AreasRight(es: seq<Event>, incomplete: seq<RelationE>, config: Config, before: seq<AreaRow>,
                             after: seq<AreaRow>)
  {
    forall k ::
      |Filter(after, HasOsmId(k))| ==
      (if AreaLost(es, config, k) then 0 else |Filter(before, HasOsmId(k))|)
      + |Filter(es, StoredAs(k))| + |Filter(incomplete, AssembledAs(config, k))|
  }

  lemma {:induction false} AreasAdded(es: seq<Event>, k: int)
    ensures |Filter(AddedBy(es, AreaBy()), HasOsmId(k))| == |Filter(es, StoredAs(k))|
  {
    hide Filter;
    if es == [] {
      FilterAll(AddedBy(es, AreaBy()), HasOsmId(k));
      FilterAll(es, StoredAs(k));
    } else {
      var front, last := es[..|es| - 1], es[|es| - 1];
      AreasAdded(front, k);
      FilterAppend(AddedBy(front, AreaBy()), AreaBy()(last), HasOsmId(k));
      FilterAppend(front, [last], StoredAs(k));
      FilterAll(AreaBy()(last), HasOsmId(k));
      FilterAll([last], StoredAs(k));
      assert es == front + [last];
    }
  }

  lemma AreasAreRight(es: seq<Event>, config: Config, before: seq<AreaRow>, now: seq<AreaRow>)
    requires AreaRowsAfter(before, now, GoneAreas(config, es))
    ensures AreasRight(es, [], config, before, now + AddedBy(es, AreaBy()))
  {
    hide Filter, AddedBy, GoneAreas, AreaLost;
    forall k
      ensures |Filter(now + AddedBy(es, AreaBy()), HasOsmId(k))| ==
              |Filter(now, HasOsmId(k))| + |Filter(es, StoredAs(k))|
      ensures Filter([], AssembledAs(config, k)) == []
      ensures AreaLost(es, config, k) <==> k in GoneAreas(config, es)
    {
      LostIsGone(es, config, k);
      FilterAppend(now, AddedBy(es, AreaBy()), HasOsmId(k));
      AreasAdded(es, k);
      FilterAll([], AssembledAs(config, k));
    }
  }

  /** The areas that the assembler makes of one incomplete relation. */
  function OneAssembled(config: Config, r: RelationE): (one: seq<AreaE>)
    ensures |one| <= 1
  {
    If(config.assembles(r.id), AreaE(r.id, false, r.interesting))
  }

  lemma OneAreaAssembled(config: Config, r: RelationE, k: int)
    requires config.areas
    ensures |Filter(AreaRows(OneAssembled(config, r)), HasOsmId(k))| == |Filter([r], AssembledAs(config, k))|
  {
    hide Filter, AreaRows;
    AreaRowsAppend([], OneAssembled(config, r));
    FilterAll(AreaRows(OneAssembled(config, r)), HasOsmId(k));
    FilterAll([r], AssembledAs(config, k));
  }

  lemma {:induction false} AreasAssembled(h: DiffHandler2, incomplete: seq<RelationE>, k: int)
    requires h.config.areas
    ensures |Filter(AreaRows(h.Assembled(incomplete)), HasOsmId(k))| ==
            |Filter(incomplete, AssembledAs(h.config, k))|
  {
    hide Filter, AreaRows, If;
    if incomplete == [] {
      NoAreaRows([]);
      FilterAll(AreaRows(h.Assembled(incomplete)), HasOsmId(k));
      FilterAll(incomplete, AssembledAs(h.config, k));
    } else {
      var front, last := incomplete[..|incomplete| - 1], incomplete[|incomplete| - 1];
      AreasAssembled(h, front, k);
      AreaRowsAppend(h.Assembled(front), OneAssembled(h.config, last));
      FilterAppend(AreaRows(h.Assembled(front)), AreaRows(OneAssembled(h.config, last)), HasOsmId(k));
      FilterAppend(front, [last], AssembledAs(h.config, k));
      OneAreaAssembled(h.config, last, k);
      assert incomplete == front + [last];
    }
  }

  /** For at most one more area. */
  lemma AreaRowsAppend(areas: seq<AreaE>, one: seq<AreaE>)
    requires |one| <= 1
    ensures AreaRows(areas + one) == AreaRows(areas) + AreaRows(one)
    ensures AreaRows(one) == if one != [] && one[0].interesting
                             then [AreaRow(if one[0].fromWay then one[0].id else -one[0].id)] else []
  {
    if one == [] {
      assert areas + one == areas;
    } else {
      assert (areas + one)[..|areas|] == areas && one[..0] == [];
    }
  }

  /** The last step of an update adds the areas of the incomplete relations. */
  lemma AreasBehindIncomplete(h: DiffHandler2, es: seq<Event>, incomplete: seq<RelationE>, before: seq<AreaRow>,
                              now: seq<AreaRow>)
    requires AreasRight(es, [], h.config, before, now)
    ensures AreasRight(es, incomplete, h.config, before,
                       now + if h.config.areas then AreaRows(h.Assembled(incomplete)) else [])
  {
    hide Filter, AreaLost, AreaRows, DiffHandler2.Assembled;
    var more := if h.config.areas then AreaRows(h.Assembled(incomplete)) else [];
    forall k
      ensures |Filter(now + more, HasOsmId(k))| ==
              |Filter(now, HasOsmId(k))| + |Filter(incomplete, AssembledAs(h.config, k))|
      ensures Filter([], AssembledAs(h.config, k)) == []
    {
      FilterAppend(now, more, HasOsmId(k));
      FilterAll([], AssembledAs(h.config, k));
      if h.config.areas {
        AreasAssembled(h, incomplete, k);
      } else {
        FilterAll(more, HasOsmId(k));
        FilterAll(incomplete, AssembledAs(h.config, k));
      }
    }
  }

  /** A new area is wanted for the relation: the stream has an area of it, or the database had one that is not lost
      under the negated id. */
  ghost predicate AreaWanted(es: seq<Event>, config: Config, before: seq<AreaRow>, id: int) {
    && config.areas && config.assembles(id)
    && ((AreaRow(-id) in before && !AreaLost(es, config, -id))
        || exists e :: e in es && e.OfArea? && e.area.interesting
                       && if e.area.fromWay then e.area.id == -id else e.area.id == id)
  }

  /** The area that `update_relation` looks up is the one that an update stores. */
  lemma UpdatesAreaIff(h: DiffHandler2, es: seq<Event>, before: seq<AreaRow>, id: int)
    requires AreasRight(es, [], h.config, before, h.t.areas.rows)
    ensures h.UpdatesArea(id) <==> AreaWanted(es, h.config, before, id)
  {
    hide Filter, AreaLost;
    var stored := Filter(before, HasOsmId(-id));
    FilterMember(before, HasOsmId(-id), AreaRow(-id));
    if stored != [] { FilterMember(before, HasOsmId(-id), stored[0]); }
    var sent := Filter(es, StoredAs(-id));
    forall e ensures e in sent <==> e in es && StoredAs(-id)(e) { FilterMember(es, StoredAs(-id), e); }
    if sent != [] { assert sent[0] in sent; }
    FilterAll([], AssembledAs(h.config, -id));
    assert |Filter(h.t.areas.rows, HasOsmId(-id))| ==
           (if AreaLost(es, h.config, -id) then 0 else |stored|) + |sent| + 0;
  }

  /** The calls that make the assembler build a new area. */
  ghost predicate UpdatesRight(es: seq<Event>, config: Config, before: seq<AreaRow>, calls: seq<int>,
                               updated: seq<int>)
  {
    forall id :: id in updated <==> id in calls && AreaWanted(es, config, before, id)
  }

  lemma {:induction false} UpdatesAreRight(h: DiffHandler2, es: seq<Event>, before: seq<AreaRow>, calls: seq<int>)
    requires AreasRight(es, [], h.config, before, h.t.areas.rows)
    ensures UpdatesRight(es, h.config, before, calls, h.AreaUpdates(calls))
  {
    hide AreasRight, AreaWanted, DiffHandler2.UpdatesArea;
    if calls != [] {
      var front, last := calls[..|calls| - 1], calls[|calls| - 1];
      UpdatesAreRight(h, es, before, front);
      UpdatesAreaIff(h, es, before, last);
      assert calls == front + [last];
    }
  }

  /** All rows behind an update. */
  ghost predicate ObjectsRight(es: seq<Event>, incomplete: seq<RelationE>, config: Config, before: Objects,
                               after: Objects)
  {
    && NodesRight(es, config.untaggedNodes, before, after)
    && RelationRowsRight(es, before.relations, after.relations)
    && AreasRight(es, incomplete, config, before.areas, after.areas)
  }

  lemma ObjectsAreRight(es: seq<Event>, config: Config, rel0: Relations, before: Objects, now: Objects, after: Objects)
    requires GoodRelations(es, rel0)
    requires ObjectsAfterPass1(es, config, before, now, es)
    requires ObjectsAdded(es, config.untaggedNodes, now, after)
    ensures ObjectsRight(es, [], config, before, after)
  {
    hide NodesRight, RelationRowsRight, AreasRight, NodesAfter, RelationRowsAfter, AreaRowsAfter, GoodRelations,
         AddedBy, GoneNodes, GoneRelations, GoneAreas, AreaLost;
    NodesAreRight(es, config, before, now, after);
    RelationRowsAreRight(es, rel0, before.relations, now.relations);
    AreasAreRight(es, config, before.areas, now.areas);
  }

  lemma ObjectsBehindIncomplete(h: DiffHandler2, es: seq<Event>, incomplete: seq<RelationE>, before: Objects,
                                now: Objects, after: Objects)
    requires ObjectsRight(es, [], h.config, before, now)
    requires after == now.(areas := now.areas + if h.config.areas then AreaRows(h.Assembled(incomplete)) else [])
    ensures ObjectsRight(es, incomplete, h.config, before, after)
  {
    hide RelationRowsRight, AreasRight, Filter, NodeClean, AreaRows, DiffHandler2.Assembled;
    AreasBehindIncomplete(h, es, incomplete, before.areas, now.areas);
  }
}
