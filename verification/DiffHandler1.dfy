/** Pass 1 of a diff, src/diff_handler1.cpp: everything that the diff changes or deletes is removed. */
module DiffPass1 {
  import opened DiffGeometry
  import opened DiffTables
  import opened MemberLists
  import opened PgTables

  /** A first version that is not deleted cannot be in the database. */
  predicate Untouched(version: nat, deleted: bool) { version == 1 && !deleted }

  class DiffHandler1 {
    const t: TableSet
    const config: Config
    const index: LocationIndex

    constructor (t: TableSet, config: Config, index: LocationIndex)
      ensures this.t == t && this.config == config && this.index == index
    {
      this.t, this.config, this.index := t, config, index;
    }

    method Node(n: NodeE) returns (ok: bool)
      requires t.Distinct() && ModesNow(t) == CLOSED
      modifies t.nodes`rows, t.untagged`rows, index`locs
      ensures ok
      ensures index.locs == if Untouched(n.version, n.deleted) || index.persistent || n.id in old(index.cached)
                            then old(index.locs) else old(index.locs) - {n.id}
      ensures var keep := Untouched(n.version, n.deleted);
              var untagged := config.untaggedNodes && Filter(old(t.untagged.rows), AtNode(n.id)) != [];
              && t.untagged.rows == (if keep || !config.untaggedNodes then old(t.untagged.rows)
                                     else Rest(old(t.untagged.rows), AtNode(n.id)))
              && t.nodes.rows == (if keep || untagged then old(t.nodes.rows) else Rest(old(t.nodes.rows), AtNode(n.id)))
    {
      hide Rest, Filter;
      if Untouched(n.version, n.deleted) {
        return true;
      }
      var found;
      if !config.untaggedNodes {
        ok, found := t.nodes.Delete(AtNode(n.id));
      } else {
        ok, found := t.untagged.Delete(AtNode(n.id));
        if ok && !found {
          ok, found := t.nodes.Delete(AtNode(n.id));
        }
      }
      index.Forget(n.id);
    }

    method Way(w: WayE) returns (ok: bool)
      requires ModesNow(t) == CLOSED
      modifies t.ways`rows, t.areas`rows, t.nodeWays`rows
      ensures ok
      ensures var keep := Untouched(w.version, w.deleted);
              && t.ways.rows == (if keep then old(t.ways.rows) else WithoutWay(old(t.ways.rows), w.id))
              && t.nodeWays.rows == (if keep then old(t.nodeWays.rows) else WithoutList(old(t.nodeWays.rows), w.id))
              && t.areas.rows ==
                 (if keep || !config.areas then old(t.areas.rows) else Rest(old(t.areas.rows), HasOsmId(w.id)))
    {
      hide Rest;
      if Untouched(w.version, w.deleted) {
        return true;
      }
      var found;
      ok, found := t.ways.Delete(HasId(w.id));
      if config.areas {
        ok, found := t.areas.Delete(HasOsmId(w.id));
      }
      ok, found := t.nodeWays.Delete(InList(w.id));
    }

    method Relation(e: RelationE) returns (ok: bool)
      requires t.Distinct() && ModesNow(t) == CLOSED
      modifies t.relations`rows, t.areas`rows, t.nodeRelations`rows, t.wayRelations`rows, t.relationRelations`rows
      ensures ok
      ensures var gone := e.version > 1 || e.deleted;
              && t.relations.rows ==
                 (if gone then Rest(old(t.relations.rows), IsRelation(e.id)) else old(t.relations.rows))
              && t.areas.rows ==
                 (if gone && config.areas then Rest(old(t.areas.rows), HasOsmId(e.id)) else old(t.areas.rows))
              && t.nodeRelations.rows ==
                 (if gone then Rest(old(t.nodeRelations.rows), MemberOf(e.id)) else old(t.nodeRelations.rows))
              && t.wayRelations.rows ==
                 (if gone then Rest(old(t.wayRelations.rows), MemberOf(e.id)) else old(t.wayRelations.rows))
              && t.relationRelations.rows ==
                 (if gone then Rest(old(t.relationRelations.rows), MemberOf(e.id)) else old(t.relationRelations.rows))
    {
      hide Rest;
      ok := true;
      if e.version > 1 || e.deleted {
        var found;
        ok, found := t.relations.Delete(IsRelation(e.id));
        if config.areas {
          ok, found := t.areas.Delete(HasOsmId(e.id));
        }
        ok, found := t.nodeRelations.Delete(MemberOf(e.id));
        ok, found := t.wayRelations.Delete(MemberOf(e.id));
        ok, found := t.relationRelations.Delete(MemberOf(e.id));
      }
    }
  }

  function AtNode(id: int): PointRow -> bool { (r: PointRow) => r.id == id }

  function HasOsmId(id: int): AreaRow -> bool { (r: AreaRow) => r.osmId == id }

  function IsRelation(id: int): RelationRow -> bool { (r: RelationRow) => r.id == id }

  function MemberOf(relation: int): MemberRow -> bool { (r: MemberRow) => r.relation == relation }

  /** The area of a relation is stored under the negated id, but pass 1 deletes under the id itself: the
      relation's area stays, and an area of the way with that number is lost. */
  lemma RelationAreaSurvives(areas: seq<AreaRow>, id: int)
    requires id > 0
    ensures var after := Rest(areas, HasOsmId(id));
            && (AreaRow(-id) in after <==> AreaRow(-id) in areas)
            && AreaRow(id) !in after
  {
    RestMember(areas, HasOsmId(id), AreaRow(-id));
    RestMember(areas, HasOsmId(id), AreaRow(id));
  }
}
