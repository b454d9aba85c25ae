/** Whole runs of an update, as src/pgimporter.cpp drives them (lines 361 to 425): which streams of objects are
    applied without an error, and what one object does to the tables. */
module DiffRun {
  import opened DiffGeometry
  import opened DiffPass1
  import opened DiffPass2
  import opened DiffTables
  import opened MemberLists
  import opened Members
  import opened NodeLists
  import opened PendingWork
  import opened PgTables
  import opened Sequences

  // ----- the order of a stream

  predicate Accepted(p: Progress, e: Event) {
    match e
    case OfNode(n) => n.deleted || p == POINT_PHASE
    case OfWay(w) => w.deleted || (p != RELATION_PHASE && Listable(w.nodes))
    case _ => true
  }

  function After(p: Progress, e: Event): Progress {
    match e
    case OfNode(_) => p
    case OfRelation(_) => RELATION_PHASE
    case _ => if p == POINT_PHASE then WAY_PHASE else p
  }

  function ProgressAfter(es: seq<Event>): Progress {
    if es == [] then POINT_PHASE else After(ProgressAfter(es[..|es| - 1]), es[|es| - 1])
  }

  predicate AllAccepted(es: seq<Event>) {
    es == [] || (AllAccepted(es[..|es| - 1]) && Accepted(ProgressAfter(es[..|es| - 1]), es[|es| - 1]))
  }

  /** A node that is not deleted has only nodes before it; a way that is not deleted has a list that can be sent
      and no relation before it. */
  ghost predicate InOrder(es: seq<Event>) {
    && (forall i, j :: 0 <= j < i < |es| && es[i].OfNode? && !es[i].node.deleted ==> es[j].OfNode?)
    && (forall i, j :: 0 <= j < i < |es| && es[i].OfWay? && !es[i].way.deleted ==> !es[j].OfRelation?)
    && (forall i :: 0 <= i < |es| && es[i].OfWay? && !es[i].way.deleted ==> Listable(es[i].way.nodes))
  }

  lemma {:induction false} PhasesPassed(es: seq<Event>)
    ensures ProgressAfter(es) == POINT_PHASE <==> forall i :: 0 <= i < |es| ==> es[i].OfNode?
    ensures ProgressAfter(es) == RELATION_PHASE <==> exists i :: 0 <= i < |es| && es[i].OfRelation?
  {
    if es != [] {
      var front := es[..|es| - 1];
      PhasesPassed(front);
      assert es == front + [es[|es| - 1]];
      assert forall i :: 0 <= i < |front| ==> front[i] == es[i];
    }
  }

  /** The typestate of the tables accepts exactly the streams in order. */
  lemma {:induction false} AcceptedIffInOrder(es: seq<Event>)
    ensures AllAccepted(es) <==> InOrder(es)
  {
    if es != [] {
      var front, last := es[..|es| - 1], es[|es| - 1];
      AcceptedIffInOrder(front);
      PhasesPassed(front);
      assert forall i :: 0 <= i < |front| ==> front[i] == es[i];
    }
  }

  // ----- one object

  ghost predicate Sorted(p: Progress, pending: seq<int>, sorted: seq<int>) {
    if p == POINT_PHASE then StrictlyAscending(sorted) && forall x :: x in sorted <==> x in pending
    else sorted == pending
  }

  /** What an accepted object does to the table of ways, the node lists and the pending ways. */
  datatype Rows = Rows(ways: seq<WayRow>, lists: seq<NodeRow>, pending: seq<int>, idx: nat)

  ghost predicate Effect(e: Event, p: Progress, b: Builder, locs: Locations, before: Rows, after: Rows,
                         sorted: seq<int>, calls: seq<int>)
  {
    match e
    case OfNode(n) =>
      after == before.(pending := if n.deleted then before.pending else before.pending + WaysAt(before.lists, n.id))
    case OfArea(_) => Sorted(p, before.pending, sorted) && after == before.(pending := sorted)
    case OfWay(w) =>
      && Sorted(p, before.pending, sorted)
      && if w.deleted then after == before.(pending := sorted)
         else
           && (var row := WayRow(w.id, b.create(Located(locs, w.nodes)));
               after.ways == if w.interesting then before.ways + [row] else before.ways)
           && after.lists == before.lists + WayRows(w.id, w.nodes)
           && (w.id !in sorted ==> after.pending == sorted)
    case OfRelation(_) =>
      && Sorted(p, before.pending, sorted)
      && (if p == RELATION_PHASE then calls == [] else Worklist(calls, sorted))
      && after.lists == before.lists
      && after.ways == UpdatedAll(b, before.ways, before.lists, locs, calls)
  }

  ghost function RowsNow(h: DiffHandler2): Rows
    reads h`pendingWays, h`waysIdx, h.t.ways`rows, h.t.nodeWays`rows
  {
    Rows(h.t.ways.rows, h.t.nodeWays.rows, h.pendingWays, h.waysIdx)
  }

  /** What it does to the member lists and the pending relations. */
  datatype Relations = Relations(nodes: seq<MemberRow>, ways: seq<MemberRow>, relations: seq<MemberRow>,
                                 pending: seq<int>)

  /** The rows that a relation of the diff sends to one of the three tables. */
  function Sent(r: RelationE, kind: ItemType): seq<MemberRow> {
    if r.deleted then [] else ListRows(r.id, r.members, kind)
  }

  /** `found` is the list in which the ids of the diff are crossed off. */
  ghost predicate Collected(p: Progress, b: Builder, lists: seq<NodeRow>, locs: Locations, before: Relations,
                            calls: seq<int>, found: seq<int>)
  {
    if p == RELATION_PHASE then found == before.pending
    else
      && StrictlyAscending(found)
      && forall x :: x in found <==> (x in before.pending || x in RelationsOfAll(b, lists, locs, before.ways, calls))
  }

  ghost predicate RelationEffect(e: Event, p: Progress, b: Builder, lists: seq<NodeRow>, locs: Locations,
                                 before: Relations, after: Relations, calls: seq<int>, found: seq<int>)
  {
    match e
    case OfNode(n) =>
      after == before.(pending := if n.deleted then before.pending
                                  else before.pending + RelationsWith(before.nodes, n.id))
    case OfArea(_) => after == before
    case OfWay(w) =>
      after == before.(pending := if w.deleted then before.pending
                                  else before.pending + RelationsWith(before.ways, w.id))
    case OfRelation(r) =>
      && Collected(p, b, lists, locs, before, calls, found)
      && after.nodes == before.nodes + Sent(r, NODE) && after.ways == before.ways + Sent(r, WAY)
      && after.relations == before.relations + Sent(r, RELATION)
      && (r.deleted || r.id !in found ==> after.pending == found)
  }

  /** The rows of nodes, relations and areas. */
  datatype Objects = Objects(nodes: seq<PointRow>, untagged: seq<PointRow>, relations: seq<RelationRow>,
                             areas: seq<AreaRow>)

  ghost function ObjectsNow(t: TableSet): Objects
    reads t.nodes`rows, t.untagged`rows, t.relations`rows, t.areas`rows
  {
    Objects(t.nodes.rows, t.untagged.rows, t.relations.rows, t.areas.rows)
  }

  /** The rows that one object adds, by the table. */
  function PointsBy(untaggedNodes: bool): Event -> seq<PointRow> {
    (e: Event) =>
      if e.OfNode? && !e.node.deleted && e.node.location != Nowhere && e.node.interesting
         && (untaggedNodes || !e.node.bare)
      then [PointRow(e.node.id)] else []
  }

  function UntaggedBy(untaggedNodes: bool): Event -> seq<PointRow> {
    (e: Event) =>
      if e.OfNode? && !e.node.deleted && e.node.location != Nowhere && !e.node.interesting && untaggedNodes
      then [PointRow(e.node.id)] else []
  }

  function RelationBy(): Event -> seq<RelationRow> {
    (e: Event) => if e.OfRelation? && !e.relation.deleted then [RelationRow(e.relation.id)] else []
  }

  function AreaBy(): Event -> seq<AreaRow> {
    (e: Event) =>
      if e.OfArea? && e.area.interesting then [AreaRow(if e.area.fromWay then e.area.id else -e.area.id)] else []
  }

  ghost predicate ObjectEffect(e: Event, untaggedNodes: bool, before: Objects, after: Objects) {
    && after.nodes == before.nodes + PointsBy(untaggedNodes)(e)
    && after.untagged == before.untagged + UntaggedBy(untaggedNodes)(e)
    && after.relations == before.relations + RelationBy()(e)
    && after.areas == before.areas + AreaBy()(e)
  }

  lemma NodeObjects(h: DiffHandler2, n: NodeE, before: Objects, after: Objects)
    requires after == if n.deleted then before
                      else before.(nodes := before.nodes + If(h.ToNodes(n), PointRow(n.id)),
                                   untagged := before.untagged + If(h.ToUntagged(n), PointRow(n.id)))
    ensures ObjectEffect(OfNode(n), h.config.untaggedNodes, before, after)
  {
  }

  lemma AreaObjects(a: AreaE, untaggedNodes: bool, before: Objects, after: Objects)
    requires after == before.(areas := before.areas + AreaRows([a]))
    ensures ObjectEffect(OfArea(a), untaggedNodes, before, after)
  {
    assert [a][..0] == [];
  }

  lemma RelationObjects(r: RelationE, untaggedNodes: bool, before: Objects, after: Objects)
    requires after == if r.deleted then before
                      else before.(relations := before.relations + [RelationRow(r.id)])
    ensures ObjectEffect(OfRelation(r), untaggedNodes, before, after)
  {
  }

  lemma WayObjects(w: WayE, untaggedNodes: bool, objects: Objects)
    ensures ObjectEffect(OfWay(w), untaggedNodes, objects, objects)
  {
  }

  ghost function ListsNow(t: TableSet): Relations
    reads t.nodeRelations`rows, t.wayRelations`rows, t.relationRelations`rows
  {
    Relations(t.nodeRelations.rows, t.wayRelations.rows, t.relationRelations.rows, [])
  }

  ghost function RelationsNow(h: DiffHandler2): Relations
    reads h`pendingRelations, h.t.nodeRelations`rows, h.t.wayRelations`rows, h.t.relationRelations`rows
  {
    ListsNow(h.t).(pending := h.pendingRelations)
  }

  /** A node in pass 2: the location handler sees it first. */
  method HandleNode(h: DiffHandler2, n: NodeE) returns (ok: bool)
    requires h.InPhase()
    modifies h`pendingWays, h`pendingRelations, h.index, h.t.nodes`rows, h.t.untagged`rows
    ensures ok == Accepted(h.progress, OfNode(n))
    ensures h.index.locs == old(h.index.Next(n))
    ensures h.index.cached == old(h.index.cached) + if n.deleted then {} else {n.id}
    ensures ok ==> Effect(OfNode(n), h.progress, h.config.builder, h.index.locs, old(RowsNow(h)), RowsNow(h), [], [])
    ensures ok ==> RelationEffect(OfNode(n), h.progress, h.config.builder, h.t.nodeWays.rows, h.index.locs,
                                  old(RelationsNow(h)), RelationsNow(h), [], [])
    ensures ok ==> ObjectEffect(OfNode(n), h.config.untaggedNodes, old(ObjectsNow(h.t)), ObjectsNow(h.t))
  {
    hide WaysAt, RelationsWith, ModesOf, ObjectEffect, If, DiffHandler2.ToNodes, DiffHandler2.ToUntagged;
    h.index.Node(n);
    ok := h.Node(n);
    if ok { NodeObjects(h, n, old(ObjectsNow(h.t)), ObjectsNow(h.t)); }
  }

  method HandleWay(h: DiffHandler2, w: WayE) returns (ok: bool, ghost sorted: seq<int>)
    requires h.InPhase()
    modifies h`progress, h`pendingWays, h`waysIdx, h`pendingRelations
    modifies h.t.nodes`copyMode, h.t.untagged`copyMode, h.t.ways, h.t.areas`copyMode, h.t.nodeWays
    ensures ok == Accepted(old(h.progress), OfWay(w))
    ensures ok ==> h.InPhase() && h.progress == After(old(h.progress), OfWay(w))
    ensures ok ==> Effect(OfWay(w), old(h.progress), h.config.builder, h.index.locs, old(RowsNow(h)), RowsNow(h),
                          sorted, [])
    ensures ok ==> RelationEffect(OfWay(w), old(h.progress), h.config.builder, h.t.nodeWays.rows, h.index.locs,
                                  old(RelationsNow(h)), RelationsNow(h), [], [])
  {
    hide WayRows, Located, RelationsWith, StrictlyAscending, Search, ModesOf;
    ok, sorted := h.Way(w);
    SearchNothing(sorted, old(h.waysIdx), w.id);
  }

  /** A relation in pass 2. */
  method HandleRelation(h: DiffHandler2, r: RelationE)
    returns (ok: bool, ghost sorted: seq<int>, calls: seq<int>, ghost found: seq<int>)
    requires h.InPhase() && h.NoAreas()
    modifies h, h.t.nodes`copyMode, h.t.untagged`copyMode, h.t.ways, h.t.areas, h.t.relations, h.t.nodeWays`copyMode
    modifies h.t.nodeRelations, h.t.wayRelations, h.t.relationRelations
    ensures ok && h.InPhase() && h.NoAreas() && h.progress == RELATION_PHASE
    ensures Effect(OfRelation(r), old(h.progress), h.config.builder, h.index.locs, old(RowsNow(h)), RowsNow(h), sorted,
                   calls)
    ensures RelationEffect(OfRelation(r), old(h.progress), h.config.builder, h.t.nodeWays.rows, h.index.locs,
                           old(RelationsNow(h)), RelationsNow(h), calls, found)
    ensures ObjectEffect(OfRelation(r), h.config.untaggedNodes, old(ObjectsNow(h.t)), ObjectsNow(h.t))
  {
    hide WaysAt, UpdatedAll, WayRows, Worklist, Located, RelationsWith, RelationsOfAll, ListRows, StrictlyAscending,
         Search, ModesOf, ObjectEffect;
    ok, sorted, calls, found := h.Relation(r);
    RelationObjects(r, h.config.untaggedNodes, old(ObjectsNow(h.t)), ObjectsNow(h.t));
    SearchNothing(found, old(h.relationsIdx), r.id);
    NothingSent(old(RelationsNow(h)));
  }

  /** The location handler and `DiffHandler2` see every object of the second pass, in this order. */
  method Handle(h: DiffHandler2, e: Event)
    returns (ok: bool, ghost sorted: seq<int>, calls: seq<int>, ghost found: seq<int>)
    requires h.InPhase() && h.NoAreas()
    modifies h, h.index, h.t.nodes, h.t.untagged, h.t.ways, h.t.areas, h.t.relations, h.t.nodeWays
    modifies h.t.nodeRelations, h.t.wayRelations, h.t.relationRelations
    ensures ok == Accepted(old(h.progress), e)
    ensures ok ==> h.InPhase() && h.NoAreas() && h.progress == After(old(h.progress), e)
    ensures h.index.locs == if e.OfNode? then old(h.index.Next(e.node)) else old(h.index.locs)
    ensures h.index.cached == old(h.index.cached) + if e.OfNode? && !e.node.deleted then {e.node.id} else {}
    ensures ok ==> Effect(e, old(h.progress), h.config.builder, h.index.locs, old(RowsNow(h)), RowsNow(h), sorted,
                          calls)
    ensures ok ==> RelationEffect(e, old(h.progress), h.config.builder, h.t.nodeWays.rows, h.index.locs,
                                  old(RelationsNow(h)), RelationsNow(h), calls, found)
    ensures ok ==> ObjectEffect(e, h.config.untaggedNodes, old(ObjectsNow(h.t)), ObjectsNow(h.t))
  {
    hide WaysAt, UpdatedAll, WayRows, Worklist, Located, RelationsWith, RelationsOfAll, ListRows, StrictlyAscending,
         Search, ModesOf, ObjectEffect, AreaRows;
    ghost var objects := ObjectsNow(h.t);
    sorted, calls, found := [], [], [];
    match e {
      case OfNode(n) =>
        ok := HandleNode(h, n);
      case OfWay(w) =>
        ok, sorted := HandleWay(h, w);
        WayObjects(w, h.config.untaggedNodes, objects);
      case OfArea(a) =>
        ok := h.Area(a);
        AreaObjects(a, h.config.untaggedNodes, objects, ObjectsNow(h.t));
        sorted := h.pendingWays;
      case OfRelation(r) =>
        ok, sorted, calls, found := HandleRelation(h, r);
    }
  }

  lemma NothingSent(rel: Relations)
    ensures rel.nodes + [] == rel.nodes && rel.ways + [] == rel.ways && rel.relations + [] == rel.relations
  {
  }

  /** The relations that become pending with a node or a way: those that have it as a stored member. */
  function GatheredBy(e: Event, rel: Relations): seq<int> {
    match e
    case OfNode(n) => if n.deleted then [] else RelationsWith(rel.nodes, n.id)
    case OfWay(w) => if w.deleted then [] else RelationsWith(rel.ways, w.id)
    case _ => []
  }

  function GatheredByAll(es: seq<Event>, rel: Relations): seq<int> {
    if es == [] then [] else GatheredByAll(es[..|es| - 1], rel) + GatheredBy(es[|es| - 1], rel)
  }

  lemma NothingGatheredYet(rel: Relations)
    ensures rel == rel.(pending := rel.pending + GatheredByAll([], rel)) && GatheredByAll([], rel) == []
  {
    assert rel.pending + [] == rel.pending;
  }

  /** Up to the first relation the list of pending relations only grows. */
  lemma GatheredMore(es: seq<Event>, i: nat, p: Progress, b: Builder, lists: seq<NodeRow>, locs: Locations,
                     before: seq<int>, rel: Relations, rel': Relations, rel0: Relations, calls: seq<int>,
                     found: seq<int>)
    requires i < |es| && RelationEffect(es[i], p, b, lists, locs, rel, rel', calls, found)
    requires p != RELATION_PHASE ==> rel == rel0.(pending := before + GatheredByAll(es[..i], rel0))
    ensures After(p, es[i]) != RELATION_PHASE ==> rel' == rel0.(pending := before + GatheredByAll(es[..i + 1], rel0))
  {
    hide RelationsWith, Collected, Sent;
    assert es[..i + 1][..i] == es[..i];
    Assoc(before, GatheredByAll(es[..i], rel0), GatheredBy(es[i], rel0));
    assert GatheredByAll(es[..i], rel0) + [] == GatheredByAll(es[..i], rel0);
  }

  // ----- COPY typestate of whole runs

  /** The second pass: no operation fails exactly if the stream is in order. */
  method Pass2(h: DiffHandler2, events: seq<Event>) returns (ok: bool)
    requires h.progress == POINT_PHASE && h.InPhase() && h.NoAreas()
    modifies h, h.index, h.t.nodes, h.t.untagged, h.t.ways, h.t.areas, h.t.relations, h.t.nodeWays
    modifies h.t.nodeRelations, h.t.wayRelations, h.t.relationRelations
    ensures ok <==> InOrder(events)
    ensures ok ==> h.InPhase() && h.NoAreas() && h.progress == ProgressAfter(events)
    ensures ok && h.progress != RELATION_PHASE ==>
              RelationsNow(h) == old(RelationsNow(h)).(pending := old(h.pendingRelations)
                                                                  + GatheredByAll(events, old(ListsNow(h.t))))
  {
    hide Effect, RelationEffect, Accepted, GatheredByAll;
    ghost var rel0, start := ListsNow(h.t), h.pendingRelations;
    NothingGatheredYet(RelationsNow(h));
    NothingGatheredYet(rel0);
    ok := true;
    for i := 0 to |events|
      invariant ok && AllAccepted(events[..i])
      invariant h.InPhase() && h.NoAreas() && h.progress == ProgressAfter(events[..i])
      invariant h.progress != RELATION_PHASE ==>
                  RelationsNow(h) == rel0.(pending := start + GatheredByAll(events[..i], rel0))
    {
      ghost var sorted, found, p, rel := [], [], h.progress, RelationsNow(h);
      var calls;
      assert events[..i + 1][..i] == events[..i];
      ok, sorted, calls, found := Handle(h, events[i]);
      if !ok {
        NotInOrder(events, i + 1);
        return;
      }
      GatheredMore(events, i, p, h.config.builder, h.t.nodeWays.rows, h.index.locs, start, rel, RelationsNow(h), rel0,
                   calls, found);
    }
    assert events[..|events|] == events;
    AcceptedIffInOrder(events);
  }

  lemma NotInOrder(es: seq<Event>, n: nat)
    requires n <= |es| && !AllAccepted(es[..n])
    ensures !InOrder(es)
  {
    AcceptedIffInOrder(es[..n]);
    assert forall i :: 0 <= i < n ==> es[..n][i] == es[i];
  }

  ghost predicate HasRelation(es: seq<Event>) { exists i :: 0 <= i < |es| && es[i].OfRelation? }

  /** The update behind pass 1, for a stream with a relation: if the stream is in order, nothing fails up to the
      incomplete relations, and all tables leave COPY mode. */
  method RunPass2(h: DiffHandler2, events: seq<Event>, incomplete: seq<RelationE>) returns (ok: bool)
    requires h.progress == POINT_PHASE && h.InPhase() && h.NoAreas() && HasRelation(events)
    modifies h, h.index, h.t.nodes, h.t.untagged, h.t.ways, h.t.areas, h.t.relations, h.t.nodeWays
    modifies h.t.nodeRelations, h.t.wayRelations, h.t.relationRelations
    ensures ok <==> InOrder(events)
    ensures ok ==> ModesNow(h.t) == CLOSED
  {
    PhasesPassed(events);
    ok := Pass2(h, events);
    if !ok { return; }
    var calls;
    ok, calls := h.AfterRelations();
    ok := h.WorkOnIncomplete(incomplete);
  }

  /** Among all relations that are pending behind a stream without a relation there is one with a stored member way
      that is not stepped over. */
  ghost predicate Blocked(es: seq<Event>, rel: Relations, before: seq<int>) {
    var all := before + GatheredByAll(es, rel);
    exists x :: x in all && x > 0 && !SteppedOver(all, x) && Filter(rel.ways, MemberOf(x)) != []
  }

  lemma BlockedIff(es: seq<Event>, rel: Relations, before: seq<int>, calls: seq<int>)
    requires Worklist(calls, before + GatheredByAll(es, rel))
    ensures Blocked(es, rel, before) <==> exists i :: 0 <= i < |calls| && Filter(rel.ways, MemberOf(calls[i])) != []
  {
    hide SteppedOver, Filter, GatheredByAll, MemberOf;
    var all := before + GatheredByAll(es, rel);
    forall x | x in all && x > 0 && !SteppedOver(all, x) ensures exists i :: 0 <= i < |calls| && calls[i] == x {
      assert x in calls;
    }
    forall i | 0 <= i < |calls| ensures calls[i] in all && calls[i] > 0 && !SteppedOver(all, calls[i]) {
      assert calls[i] in calls;
    }
  }

  /** Pass 2 and `after_relations` for every stream in order: all tables leave COPY mode exactly if the stream has
      a relation. Without one, nothing fails behind a stream of nodes, and behind ways `after_relations` throws exactly
      for a pending relation with a stored member way that is not stepped over: the nodes of the way cannot be read. */
  method PassAndAfterRelations(h: DiffHandler2, events: seq<Event>) returns (ok: bool, calls: seq<int>)
    requires h.progress == POINT_PHASE && h.InPhase() && h.NoAreas() && InOrder(events)
    modifies h, h.index, h.t.nodes, h.t.untagged, h.t.ways, h.t.areas, h.t.relations, h.t.nodeWays
    modifies h.t.nodeRelations, h.t.wayRelations, h.t.relationRelations
    ensures ModesNow(h.t) == CLOSED <==> HasRelation(events)
    ensures ModesNow(h.t) == ModesBehind(ProgressAfter(events))
    ensures ok <==> HasRelation(events) || OnlyNodes(events)
                    || !Blocked(events, old(ListsNow(h.t)), old(h.pendingRelations))
    ensures !HasRelation(events) ==>
              Worklist(calls, old(h.pendingRelations) + GatheredByAll(events, old(ListsNow(h.t))))
  {
    hide Blocked, GatheredByAll, Worklist;
    PhasesPassed(events);
    ghost var rel, before := ListsNow(h.t), h.pendingRelations;
    ok := Pass2(h, events);
    ok, calls := h.AfterRelations();
    if !HasRelation(events) { BlockedIff(events, rel, before, calls); }
  }

  ghost predicate OnlyNodes(es: seq<Event>) { forall i :: 0 <= i < |es| ==> es[i].OfNode? }
}
