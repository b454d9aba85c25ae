/** The whole update: both passes over a diff, and what they leave in the database. */
module WholeUpdate {
  import opened DiffGeometry
  import opened DiffPass1
  import opened DiffPass2
  import opened DiffRun
  import opened DiffTables
  import opened MemberLists
  import opened NodeLists
  import opened ObjectRun
  import opened PgTables
  import opened RelationRun
  import opened WayRun
  import opened Wrappers

  // ----- the passes

  /** One object in pass 1. */
  method Remove(h: DiffHandler1, e: Event) returns (ok: bool)
    requires h.t.Distinct() && ModesNow(h.t) == CLOSED
    modifies h.t.nodes`rows, h.t.untagged`rows, h.t.ways`rows, h.t.areas`rows, h.t.relations`rows, h.t.nodeWays`rows
    modifies h.t.nodeRelations`rows, h.t.wayRelations`rows, h.t.relationRelations`rows, h.index`locs
    ensures ok
    ensures ObjectsRemoved(e, h.config, old(ObjectsNow(h.t)), ObjectsNow(h.t))
    ensures var gone := e.OfWay? && !Untouched(e.way.version, e.way.deleted);
            && h.t.ways.rows == (if gone then WithoutWay(old(h.t.ways.rows), e.way.id) else old(h.t.ways.rows))
            && h.t.nodeWays.rows ==
               (if gone then WithoutList(old(h.t.nodeWays.rows), e.way.id) else old(h.t.nodeWays.rows))
    ensures h.index.locs == if e.OfNode? && !Untouched(e.node.version, e.node.deleted) && !h.index.persistent
                               && e.node.id !in h.index.cached
                            then old(h.index.locs) - {e.node.id} else old(h.index.locs)
    ensures ListsNow(h.t) == if Gone(e) then WithoutLists(old(ListsNow(h.t)), e.relation.id) else old(ListsNow(h.t))
  {
    hide Rest, Filter, WithoutWay, WithoutList;
    match e {
      case OfNode(n) => ok := h.Node(n);
      case OfWay(w) => ok := h.Way(w);
      case OfRelation(r) => ok := h.Relation(r);
      case OfArea(_) => ok := true;
    }
  }

  method Pass1(h: DiffHandler1, events: seq<Event>) returns (ok: bool)
    requires h.t.Distinct() && ModesNow(h.t) == CLOSED && h.index.cached == {}
    modifies h.t.nodes`rows, h.t.untagged`rows, h.t.ways`rows, h.t.areas`rows, h.t.relations`rows, h.t.nodeWays`rows
    modifies h.t.nodeRelations`rows, h.t.wayRelations`rows, h.t.relationRelations`rows, h.index`locs
    ensures ok
    ensures AfterPass1(old(h.t.ways.rows), old(h.t.nodeWays.rows), h.t.ways.rows, h.t.nodeWays.rows, GoneWays(events))
    ensures RelationsAfterPass1(old(ListsNow(h.t)), ListsNow(h.t), GoneRelations(events))
    ensures !HasRelation(events) ==> ListsNow(h.t) == old(ListsNow(h.t))
    ensures LocationsAfter(h.index.persistent, old(h.index.locs), h.index.locs, GoneNodes(events))
    ensures Consistent(h.config.builder, old(h.t.ways.rows), old(h.t.nodeWays.rows), old(h.index.locs), [], {}) ==>
              Consistent(h.config.builder, h.t.ways.rows, h.t.nodeWays.rows, h.index.locs, [], GoneNodes(events))
    ensures ObjectsAfterPass1(events, h.config, old(ObjectsNow(h.t)), ObjectsNow(h.t), events)
  {
    hide Consistent, WithoutWay, WithoutList, GoneWays, GoneNodes, GoneRelations, AfterPass1, RelationsAfterPass1, Rest,
         WithoutLists, ObjectsRemoved, ObjectsAfterPass1;
    ghost var b := h.config.builder;
    ghost var objects0 := ObjectsNow(h.t);
    NoObjectGone(events, h.config, objects0);
    ghost var start := Consistent(b, h.t.ways.rows, h.t.nodeWays.rows, h.index.locs, [], {});
    NothingGone(h.t.ways.rows, h.t.nodeWays.rows);
    NoRelationGone(ListsNow(h.t));
    ok := true;
    for i := 0 to |events|
      invariant ok
      invariant AfterPass1(old(h.t.ways.rows), old(h.t.nodeWays.rows), h.t.ways.rows, h.t.nodeWays.rows,
                           GoneWays(events[..i]))
      invariant RelationsAfterPass1(old(ListsNow(h.t)), ListsNow(h.t), GoneRelations(events[..i]))
      invariant !HasRelation(events) ==> ListsNow(h.t) == old(ListsNow(h.t))
      invariant LocationsAfter(h.index.persistent, old(h.index.locs), h.index.locs, GoneNodes(events[..i]))
      invariant start ==> Consistent(b, h.t.ways.rows, h.t.nodeWays.rows, h.index.locs, [], GoneNodes(events[..i]))
      invariant ObjectsAfterPass1(events, h.config, objects0, ObjectsNow(h.t), events[..i])
    {
      ghost var ways, lists, locs := h.t.ways.rows, h.t.nodeWays.rows, h.index.locs;
      ghost var rel, objects := ListsNow(h.t), ObjectsNow(h.t);
      GoneGrows(events, i);
      GoneRelationsGrow(events, i);
      ok := Remove(h, events[i]);
      ObjectGone(events, i, h.config, objects0, objects, ObjectsNow(h.t));
      match events[i] {
        case OfNode(n) =>
          if start && !Untouched(n.version, n.deleted) {
            ForgetStep(b, ways, lists, locs, h.index.locs, GoneNodes(events[..i]), GoneNodes(events[..i + 1]), n.id);
          }
        case OfWay(w) =>
          if !Untouched(w.version, w.deleted) {
            if start { DeleteStep(b, ways, lists, locs, GoneNodes(events[..i]), w.id); }
            GoneStep(old(h.t.ways.rows), old(h.t.nodeWays.rows), ways, lists, GoneWays(events[..i]), w.id);
          }
        case OfRelation(r) => RelationsGone(old(ListsNow(h.t)), rel, GoneRelations(events[..i]), r.id);
        case OfArea(_) =>
      }
    }
    assert events[..|events|] == events;
  }

  /** Pass 2 keeps the invariants from the first to the last object. */
  method SecondPass(h: DiffHandler2, events: seq<Event>, ghost ways0: seq<WayRow>, ghost lists0: seq<NodeRow>,
                    ghost rel0: Relations)
    returns (ok: bool)
    requires h.progress == POINT_PHASE && h.InPhase() && h.NoAreas() && h.pendingWays == [] && h.index.cached == {}
    requires InOrder(events) && GoodDiff(events, ways0, lists0)
    requires GoodRelations(events, rel0) && h.pendingRelations == []
    requires AfterPass1(ways0, lists0, h.t.ways.rows, h.t.nodeWays.rows, GoneWays(events))
    requires RelationsAfterPass1(rel0, ListsNow(h.t), GoneRelations(events))
    requires Consistent(h.config.builder, h.t.ways.rows, h.t.nodeWays.rows, h.index.locs, [], GoneNodes(events))
    modifies h, h.index, h.t.nodes, h.t.untagged, h.t.ways, h.t.areas, h.t.relations, h.t.nodeWays
    modifies h.t.nodeRelations, h.t.wayRelations, h.t.relationRelations
    ensures ok && h.InPhase() && h.NoAreas() && h.progress == ProgressAfter(events)
    ensures Invariant(h.progress, h.config.builder, RowsNow(h), h.index.locs, old(h.t.nodeWays.rows),
                      MovedNodes(events), {}, {})
    ensures Preserved(h.progress, h.config.builder, RowsNow(h), h.index.locs, old(h.t.ways.rows),
                      old(h.t.nodeWays.rows), MovedNodes(events), WayEntries(events))
    ensures Brought(events, h.index.persistent, old(h.index.locs), h.index.locs)
    ensures Gathered(h.progress, h.config.builder, h.t.nodeWays.rows, h.index.locs, RelationsNow(h), old(ListsNow(h.t)),
                     old(h.t.nodeWays.rows), MovedNodes(events), LiveWays(events))
    ensures Appended(RelationsNow(h), old(ListsNow(h.t)), events)
    ensures !HasRelation(events) ==>
              RelationsNow(h) == old(ListsNow(h.t)).(pending := GatheredByAll(events, old(ListsNow(h.t))))
    ensures ObjectsAdded(events, h.config.untaggedNodes, old(ObjectsNow(h.t)), ObjectsNow(h.t))
  {
    hide Effect, RelationEffect, ObjectEffect, ObjectsAdded, Accepted, After, Invariant, Preserved, Brought, Consistent,
         MovedNodes, DiffWays, WayEntries, Names, GoneWays, GoneNodes, GoneRelations, Gathered, Appended,
         RelationsAfterPass1, GoodRelations, LiveWays, NoLists, Restorable, Listable;
    ghost var b := h.config.builder;
    ghost var locs1, objects1 := h.index.locs, ObjectsNow(h.t);
    NothingBrought(h.index.persistent, locs1);
    NothingAdded(h.config.untaggedNodes, objects1);
    ghost var ways1, lists1 := h.t.ways.rows, h.t.nodeWays.rows;
    ghost var rel1 := ListsNow(h.t);
    NoRelationGone(rel1);
    NothingGathered(b, lists1, locs1, rel1, lists1);
    NothingAppended(rel1);
    NothingGatheredYet(rel1);
    NothingSeen(b, RowsNow(h), locs1, {});
    NoDiffWays(events, ways0, lists0, RowsNow(h));
    StartOfPass2(events, b, ways0, lists0, RowsNow(h), h.index.locs);
    NothingMoved();
    assert events[0..] == events;
    ok := true;
    for i := 0 to |events|
      invariant ok && AllAccepted(events[..i])
      invariant h.InPhase() && h.NoAreas() && h.progress == ProgressAfter(events[..i])
      invariant Invariant(h.progress, b, RowsNow(h), h.index.locs, lists1, MovedNodes(events[..i]),
                          MovedNodes(events[i..]), DiffWays(events[i..]))
      invariant Preserved(h.progress, b, RowsNow(h), h.index.locs, ways1, lists1, MovedNodes(events[..i]),
                          WayEntries(events[..i]))
      invariant Gathered(h.progress, b, h.t.nodeWays.rows, h.index.locs, RelationsNow(h), rel1, lists1,
                         MovedNodes(events[..i]), LiveWays(events[..i]))
      invariant Appended(RelationsNow(h), rel1, events[..i])
      invariant h.progress != RELATION_PHASE ==>
                  RelationsNow(h) == rel1.(pending := [] + GatheredByAll(events[..i], rel1))
      invariant Brought(events[..i], h.index.persistent, locs1, h.index.locs)
      invariant h.index.cached == MovedNodes(events[..i])
      invariant ObjectsAdded(events[..i], h.config.untaggedNodes, objects1, ObjectsNow(h.t))
    {
      ghost var p, before, locs, cached := h.progress, RowsNow(h), h.index.locs, h.index.cached;
      ghost var sorted, found, rel, objects := [], [], RelationsNow(h), ObjectsNow(h.t);
      var calls;
      assert events[..i + 1][..i] == events[..i];
      ok, sorted, calls, found := Handle(h, events[i]);
      if !ok {
        NotInOrder(events, i + 1);
      }
      ObjectsGrow(events, i, h.config.untaggedNodes, objects1, objects, ObjectsNow(h.t));
      BroughtStep(events, i, h.index.persistent, locs1, locs, h.index.locs, cached);
      MovedGrows(events, i);
      ComingShrinks(events, i);
      if !events[i].OfNode? { NoMoreNodes(events, i); }
      WaysShrink(events, i);
      EntriesGrow(events, i);
      if events[i].OfWay? { InDiffWays(events, i); }
      StepKeeps(events[i], p, b, before, RowsNow(h), locs, h.index.locs, lists1, MovedNodes(events[..i]),
                MovedNodes(events[..i + 1]), MovedNodes(events[i..]), MovedNodes(events[i + 1..]),
                DiffWays(events[i..]), DiffWays(events[i + 1..]), sorted, calls);
      PreservedKeeps(events[i], p, b, before, RowsNow(h), locs, h.index.locs, ways1, lists1, MovedNodes(events[..i]),
                     MovedNodes(events[..i + 1]), MovedNodes(events[i..]), DiffWays(events[i..]),
                     WayEntries(events[..i]), WayEntries(events[..i + 1]), sorted, calls);
      SentGrow(events, i);
      if events[i].OfRelation? { NoListsOfDiff(events, rel0, rel1, i); }
      GatheredKeeps(events[i], p, b, before, RowsNow(h), locs, h.index.locs, rel, RelationsNow(h), rel1, lists1,
                    MovedNodes(events[..i]), MovedNodes(events[..i + 1]), LiveWays(events[..i]),
                    LiveWays(events[..i + 1]), MovedNodes(events[i..]), DiffWays(events[i..]), sorted, calls, found);
      GatheredMore(events, i, p, b, h.t.nodeWays.rows, h.index.locs, [], rel, RelationsNow(h), rel1, calls, found);
      AppendedKeeps(events, i, p, b, h.t.nodeWays.rows, h.index.locs, rel, RelationsNow(h), rel1, calls, found);
    }
    assert events[..|events|] == events && events[|events|..] == [];
    NothingMoved();
    PhasesPassed(events);
    assert [] + GatheredByAll(events, rel1) == GatheredByAll(events, rel1);
  }

  /** The locations behind an update: those of the diff for its live nodes, none for the nodes that it only
      deletes, unless there is a file, and the old ones for all others. */
  ghost predicate LocationsRight(es: seq<Event>, persistent: bool, locs0: Locations, locs: Locations) {
    && (forall n :: n in MovedNodes(es) ==> Brings(es, persistent, n, Locate(locs, n)))
    && (forall n :: n !in MovedNodes(es) ==>
          Locate(locs, n) == if n in DeletedNodes(es) && !persistent then Nowhere else Locate(locs0, n))
  }

  lemma LocationsAreRight(es: seq<Event>, persistent: bool, locs0: Locations, locs1: Locations, locs: Locations)
    requires LocationsAfter(persistent, locs0, locs1, GoneNodes(es))
    requires Brought(es, persistent, locs1, locs)
    ensures LocationsRight(es, persistent, locs0, locs)
  {
    hide Brings;
    forall n | n !in MovedNodes(es) ensures n in GoneNodes(es) <==> n in DeletedNodes(es) {
      NotMoved(es, n);
    }
  }

  lemma NotMoved(es: seq<Event>, n: int)
    requires n !in MovedNodes(es)
    ensures n in GoneNodes(es) <==> n in DeletedNodes(es)
  {
    forall e | e in es && e.OfNode? && e.node.id == n ensures e.node.deleted {
    }
  }

  /** Both passes; `ways1`, `lists1`, `rel1`, `locs1` and `objects1` are the state between them. */
  method TwoPasses(t: TableSet, index: LocationIndex, config: Config, events: seq<Event>)
    returns (h: DiffHandler2, ghost ways1: seq<WayRow>, ghost lists1: seq<NodeRow>, ghost rel1: Relations,
             ghost locs1: Locations, ghost objects1: Objects)
    requires t.Distinct() && ModesNow(t) == CLOSED && index.cached == {} && InOrder(events)
    requires GoodDiff(events, t.ways.rows, t.nodeWays.rows) && GoodRelations(events, ListsNow(t))
    requires Consistent(config.builder, t.ways.rows, t.nodeWays.rows, index.locs, [], {})
    modifies t.nodes, t.untagged, t.ways, t.areas, t.relations, t.nodeWays, t.nodeRelations, t.wayRelations,
             t.relationRelations, index
    ensures fresh(h) && h.t == t && h.config == config && h.InPhase() && h.NoAreas()
    ensures h.progress == ProgressAfter(events)
    ensures AfterPass1(old(t.ways.rows), old(t.nodeWays.rows), ways1, lists1, GoneWays(events))
    ensures RelationsAfterPass1(old(ListsNow(t)), rel1, GoneRelations(events))
    ensures LocationsAfter(index.persistent, old(index.locs), locs1, GoneNodes(events))
    ensures Invariant(h.progress, config.builder, RowsNow(h), index.locs, lists1, MovedNodes(events), {}, {})
    ensures Preserved(h.progress, config.builder, RowsNow(h), index.locs, ways1, lists1, MovedNodes(events),
                      WayEntries(events))
    ensures Brought(events, index.persistent, locs1, index.locs) && Appended(RelationsNow(h), rel1, events)
    ensures Gathered(h.progress, config.builder, t.nodeWays.rows, index.locs, RelationsNow(h), rel1, lists1,
                     MovedNodes(events), LiveWays(events))
    ensures !HasRelation(events) ==>
              rel1 == old(ListsNow(t)) && RelationsNow(h) == rel1.(pending := GatheredByAll(events, rel1))
    ensures ObjectsAfterPass1(events, config, old(ObjectsNow(t)), objects1, events)
    ensures ObjectsAdded(events, config.untaggedNodes, objects1, ObjectsNow(t))
  {
    hide Consistent, GoodDiff, GoodRelations, InOrder, GoneWays, GoneNodes, GoneRelations, MovedNodes, DiffWays,
         LiveWays, WayEntries, AfterPass1, RelationsAfterPass1, Invariant, Preserved, Brought, Gathered, Appended,
         HasRelation, ProgressAfter, GatheredByAll, ObjectsAfterPass1, ObjectsAdded;
    ghost var ways0, lists0, rel0 := t.ways.rows, t.nodeWays.rows, ListsNow(t);
    var first := new DiffHandler1(t, config, index);
    var ok := Pass1(first, events);
    ways1, lists1, rel1, locs1 := t.ways.rows, t.nodeWays.rows, ListsNow(t), index.locs;
    objects1 := ObjectsNow(t);
    h := new DiffHandler2(t, config, index);
    ok := SecondPass(h, events, ways0, lists0, rel0);
  }

  /** Both passes and `after_relations`, for every stream in order, with or without a relation. */
  method BothPasses(t: TableSet, index: LocationIndex, config: Config, events: seq<Event>)
    returns (h: DiffHandler2, ok: bool, calls: seq<int>)
    requires t.Distinct() && ModesNow(t) == CLOSED && index.cached == {} && InOrder(events)
    requires GoodDiff(events, t.ways.rows, t.nodeWays.rows) && GoodRelations(events, ListsNow(t))
    requires Consistent(config.builder, t.ways.rows, t.nodeWays.rows, index.locs, [], {})
    modifies t.nodes, t.untagged, t.ways, t.areas, t.relations, t.nodeWays, t.nodeRelations, t.wayRelations,
             t.relationRelations, index
    ensures fresh(h) && h.t == t && h.config == config && h.newAreas == []
    ensures ModesNow(t) == ModesBehind(ProgressAfter(events))
    ensures ok <==> HasRelation(events) || OnlyNodes(events) || !Blocked(events, old(ListsNow(t)), [])
    ensures LocationsRight(events, index.persistent, old(index.locs), index.locs)
    ensures WaysRight(events, config.builder, old(t.ways.rows), old(t.nodeWays.rows), t.ways.rows, t.nodeWays.rows,
                      index.locs)
    ensures ListsRight(events, old(ListsNow(t)), ListsNow(t))
    ensures if HasRelation(events)
            then CallsRight(events, old(ListsNow(t)), old(t.nodeWays.rows), config.builder, t.nodeWays.rows, index.locs,
                            calls)
            else Worklist(calls, GatheredByAll(events, old(ListsNow(t))))
    ensures ObjectsRight(events, [], config, old(ObjectsNow(t)), ObjectsNow(t))
    ensures ok ==> UpdatesRight(events, config, old(t.areas.rows), calls, h.updatedAreas)
  {
    hide Consistent, GoodDiff, GoodRelations, InOrder, GoneWays, GoneNodes, GoneRelations, MovedNodes, DiffWays,
         LiveWays, WayEntries, AfterPass1, RelationsAfterPass1, Invariant, Preserved, Brought, Gathered, Appended,
         ObjectsAfterPass1, ObjectsAdded, NodesRight, RelationRowsRight, AreasRight, UpdatesRight,
         DiffHandler2.AreaUpdates,
         Worklist, LocationsRight, WaysRight, ListsRight, CallsRight, HasRelation, OnlyNodes, ProgressAfter,
         GatheredByAll, Blocked, Filter;
    ghost var ways0, lists0, rel0, locs0 := t.ways.rows, t.nodeWays.rows, ListsNow(t), index.locs;
    ghost var objects0 := ObjectsNow(t);
    ghost var ways1, lists1, rel1, locs1, objects1;
    h, ways1, lists1, rel1, locs1, objects1 := TwoPasses(t, index, config, events);
    ghost var rows, rel := RowsNow(h), RelationsNow(h);
    ObjectsAreRight(events, config, rel0, objects0, objects1, ObjectsNow(t));
    ok, calls := h.AfterRelations();
    UpdatesAreRight(h, events, objects0.areas, calls);
    assert [] + h.AreaUpdates(calls) == h.AreaUpdates(calls);
    Outcome(events, config.builder, index.persistent, ways0, lists0, rel0, locs0, ways1, lists1, rel1, locs1, rows, rel,
            index.locs, calls);
  }

  /** The invariants behind pass 2, in terms of the database before the update. */
  lemma Outcome(es: seq<Event>, b: Builder, persistent: bool, ways0: seq<WayRow>, lists0: seq<NodeRow>,
                rel0: Relations, locs0: Locations, ways1: seq<WayRow>, lists1: seq<NodeRow>, rel1: Relations,
                locs1: Locations, rows: Rows, rel: Relations, locs: Locations, calls: seq<int>)
    requires GoodDiff(es, ways0, lists0) && GoodRelations(es, rel0)
    requires AfterPass1(ways0, lists0, ways1, lists1, GoneWays(es))
    requires RelationsAfterPass1(rel0, rel1, GoneRelations(es))
    requires LocationsAfter(persistent, locs0, locs1, GoneNodes(es))
    requires Invariant(ProgressAfter(es), b, rows, locs, lists1, MovedNodes(es), {}, {})
    requires Preserved(ProgressAfter(es), b, rows, locs, ways1, lists1, MovedNodes(es), WayEntries(es))
    requires Brought(es, persistent, locs1, locs) && Appended(rel, rel1, es)
    requires Gathered(ProgressAfter(es), b, rows.lists, locs, rel, rel1, lists1, MovedNodes(es), LiveWays(es))
    requires !HasRelation(es) ==> rel1 == rel0 && rel == rel1.(pending := GatheredByAll(es, rel1))
    requires Worklist(calls, rel.pending)
    ensures LocationsRight(es, persistent, locs0, locs) && ListsRight(es, rel0, rel.(pending := []))
    ensures WaysRight(es, b, ways0, lists0, rows.ways, rows.lists, locs)
    ensures if HasRelation(es) then CallsRight(es, rel0, lists0, b, rows.lists, locs, calls)
            else Worklist(calls, GatheredByAll(es, rel0))
    ensures ProgressAfter(es) == RELATION_PHASE <==> HasRelation(es)
    ensures ProgressAfter(es) == POINT_PHASE <==> OnlyNodes(es)
    ensures !HasRelation(es) ==>
              (Blocked(es, rel0, []) <==> exists i :: 0 <= i < |calls| && Filter(rel.ways, MemberOf(calls[i])) != [])
  {
    hide *;
    PhaseReached(es);
    LocationsAreRight(es, persistent, locs0, locs1, locs);
    WaysAreRight(es, ProgressAfter(es), b, ways0, lists0, ways1, lists1, rows, locs);
    ListsAreRight(es, rel0, rel1, rel);
    SameLists(es, rel0, rel, rel.(pending := []));
    if HasRelation(es) {
      CallsAreRight(es, rel0, rel1, rel, ways0, lists0, ways1, lists1, b, rows.lists, locs, calls);
    } else {
      assert [] + GatheredByAll(es, rel0) == GatheredByAll(es, rel0);
      BlockedIff(es, rel0, [], calls);
    }
  }

  /** Main result: what a diff does to the locations, to the rows of all objects, to the geometries of the ways, and to
      the member lists of the relations, and which relations are called for an update, all in terms of the database
      before. */
  method ApplyDiff(t: TableSet, index: LocationIndex, config: Config, events: seq<Event>, incomplete: seq<RelationE>)
    returns (ok: bool, calls: seq<int>)
    requires t.Distinct() && ModesNow(t) == CLOSED && index.cached == {}
    requires InOrder(events) && HasRelation(events)
    requires GoodDiff(events, t.ways.rows, t.nodeWays.rows) && GoodRelations(events, ListsNow(t))
    requires Consistent(config.builder, t.ways.rows, t.nodeWays.rows, index.locs, [], {})
    modifies t.nodes, t.untagged, t.ways, t.areas, t.relations, t.nodeWays, t.nodeRelations, t.wayRelations,
             t.relationRelations, index
    ensures ok && ModesNow(t) == CLOSED
    ensures LocationsRight(events, index.persistent, old(index.locs), index.locs)
    ensures WaysRight(events, config.builder, old(t.ways.rows), old(t.nodeWays.rows), t.ways.rows, t.nodeWays.rows,
                      index.locs)
    ensures ListsRight(events, old(ListsNow(t)), ListsNow(t))
    ensures CallsRight(events, old(ListsNow(t)), old(t.nodeWays.rows), config.builder, t.nodeWays.rows, index.locs,
                       calls)
    ensures ObjectsRight(events, incomplete, config, old(ObjectsNow(t)), ObjectsNow(t))
  {
    hide Consistent, GoodDiff, GoodRelations, LocationsRight, WaysRight, ListsRight, CallsRight, ObjectsRight, InOrder,
         HasRelation, ProgressAfter, AreaRows, DiffHandler2.Assembled;
    var h;
    ghost var objects0 := ObjectsNow(t);
    h, ok, calls := BothPasses(t, index, config, events);
    AllClosed(events);
    ghost var objects := ObjectsNow(t);
    ok := h.WorkOnIncomplete(incomplete);
    ObjectsBehindIncomplete(h, events, incomplete, objects0, objects, ObjectsNow(t));
  }

  lemma AllClosed(es: seq<Event>)
    requires HasRelation(es)
    ensures ModesBehind(ProgressAfter(es)) == CLOSED
  {
    PhasesPassed(es);
  }

  lemma PhaseReached(es: seq<Event>)
    ensures ProgressAfter(es) == RELATION_PHASE <==> HasRelation(es)
    ensures ProgressAfter(es) == POINT_PHASE <==> OnlyNodes(es)
  {
    PhasesPassed(es);
  }

  lemma SameLists(es: seq<Event>, rel0: Relations, rel: Relations, rel': Relations)
    requires ListsRight(es, rel0, rel) && rel' == rel.(pending := [])
    ensures ListsRight(es, rel0, rel')
  {
    hide TableRight;
  }

  // ----- geometries: a way that is left behind

  /** A diff that only moves one node, with a relation behind it that has nothing to do with the node. */
  function MoveOf(node: int, to: Location): seq<Event> {
    [OfNode(NodeE(node, 2, false, to, false, true)), OfRelation(RelationE(1, 1, false, [], false))]
  }

  lemma MoveSets(node: int, to: Location)
    ensures var es := MoveOf(node, to);
            && InOrder(es) && HasRelation(es) && GoneWays(es) == {} && DiffWays(es) == {} && DeletedNodes(es) == {}
            && MovedNodes(es) == {node} && forall l :: Brings(es, false, node, l) ==> l == to
  {
    var es := MoveOf(node, to);
    assert es[0] in es && es[1].OfRelation?;
    forall e | e in es ensures e == es[0] || e == es[1] {
    }
  }

  lemma OneWay(b: Builder, way: int, node: int, from: Location, to: Location)
    ensures var lists := WayRows(way, [node]);
            && Consistent(b, [WayRow(way, b.create([from]))], lists, map[node := from], [], {})
            && GoodDiff(MoveOf(node, to), [WayRow(way, b.create([from]))], lists)
            && GoodRelations(MoveOf(node, to), Relations([], [], [], []))
            && NodeList(lists, way) == [node] && Skipped(lists, MoveOf(node, to), way)
  {
    hide NodeList, WayRows;
    var lists := WayRows(way, [node]);
    NewList([], way, [node]);
    assert [] + lists == lists;
    assert Located(map[node := from], [node]) == [from];
    MoveSets(node, to);
    assert lists[0] in lists && Uses(lists, way, node);
    assert forall y :: Affected(lists, {node}, y) <==> y == way;
  }

  /** A database with these ways and node lists only. */
  method WayTables(rows: seq<WayRow>, lists: seq<NodeRow>) returns (t: TableSet)
    ensures t.Distinct() && ModesNow(t) == CLOSED && t.ways.rows == rows && t.nodeWays.rows == lists
    ensures ListsNow(t) == Relations([], [], [], [])
    ensures fresh({t.nodes, t.untagged}) && fresh(t.ways) && fresh(t.areas) && fresh(t.relations) && fresh(t.nodeWays)
    ensures fresh({t.nodeRelations, t.wayRelations, t.relationRelations})
  {
    var nodes := new Table<PointRow>([]);
    var untagged := new Table<PointRow>([]);
    var ways := new Table<WayRow>(rows);
    var areas := new Table<AreaRow>([]);
    var relations := new Table<RelationRow>([]);
    var nodeWays := new Table<NodeRow>(lists);
    var nodeRelations := new Table<MemberRow>([]);
    var wayRelations := new Table<MemberRow>([]);
    var relationRelations := new Table<MemberRow>([]);
    t := TableSet(nodes, untagged, ways, areas, relations, nodeWays, nodeRelations, wayRelations, relationRelations);
  }

  /** A database with one way, and a diff that moves its only node: whatever the builders make of the two locations,
      the way is left behind with the geometry of the old one. */
  method OneWayIsLeftBehind(way: int, node: int, b: Builder, from: Location, to: Location)
    returns (t: TableSet, index: LocationIndex)
    requires !Faithful(b, b.create([from]), [to])
    ensures RowsOf(t.ways.rows, way) == [WayRow(way, b.create([from]))] && NodeList(t.nodeWays.rows, way) == [node]
    ensures Located(index.locs, [node]) == [to]
    ensures !RowOk(b, WayRow(way, b.create([from])), t.nodeWays.rows, index.locs)
  {
    hide *;
    var row := WayRow(way, b.create([from]));
    ghost var lists := WayRows(way, [node]);
    t := WayTables([row], WayRows(way, [node]));
    index := new LocationIndex(map[node := from], false);
    var events := MoveOf(node, to);
    MoveSets(node, to);
    OneWay(b, way, node, from, to);
    var config := Config(false, false, b, _ => false, _ => false);
    var ok, calls := ApplyDiff(t, index, config, events, []);
    LeftBehind(events, b, row, lists, t.ways.rows, t.nodeWays.rows, index.locs);
    LocatedOne(events, map[node := from], index.locs, node, to);
    StaleRow(b, row, t.nodeWays.rows, index.locs, [to]);
  }

  lemma LeftBehind(es: seq<Event>, b: Builder, row: WayRow, lists0: seq<NodeRow>, ways: seq<WayRow>,
                   lists: seq<NodeRow>, locs: Locations)
    requires GoodDiff(es, [row], lists0) && WaysRight(es, b, [row], lists0, ways, lists, locs)
    requires Skipped(lists0, es, row.id)
    ensures RowsOf(ways, row.id) == [row] && NodeList(lists, row.id) == NodeList(lists0, row.id)
  {
    hide RowOk, AffectedBy, HasRelation, DiffWays, GoodDiff, FromDiff, Renew;
    AffectedIsOutside(lists0, [row], es, row.id);
    assert Outside(es, b, [row], lists0, ways, lists, locs, row.id);
    FilterAll([row], HasId(row.id));
  }

  lemma LocatedOne(es: seq<Event>, locs0: Locations, locs: Locations, node: int, to: Location)
    requires LocationsRight(es, false, locs0, locs) && node in MovedNodes(es)
    requires forall l :: Brings(es, false, node, l) ==> l == to
    ensures Located(locs, [node]) == [to]
  {
    hide MovedNodes, Brings;
    assert Brings(es, false, node, Locate(locs, node));
  }

  lemma StaleRow(b: Builder, r: WayRow, lists: seq<NodeRow>, locs: Locations, ls: seq<Location>)
    requires Located(locs, NodeList(lists, r.id)) == ls && !Faithful(b, r.geometry, ls)
    ensures !RowOk(b, r, lists, locs)
  {
  }

  /** There are such builders and locations. */
  lemma SomeWayIsLeftBehind()
    ensures exists b: Builder, from, to :: !Faithful(b, b.create([from]), [to])
  {
    var create := (ls: seq<Location>) => if ls == [At(0, 0)] then "here" else "there";
    var b := Builder(create, ls => Some(create(ls)));
    assert !Faithful(b, b.create([At(0, 0)]), [At(1, 1)]);
  }
}
