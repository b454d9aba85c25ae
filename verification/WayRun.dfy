/** What the objects of a diff do to the geometries of the ways, from the first to the last. */
module WayRun {
  import opened DiffGeometry
  import opened DiffPass1
  import opened DiffPass2
  import opened DiffRun
  import opened DiffTables
  import opened NodeLists
  import opened PendingWork
  import opened PgTables

  // ----- geometries: what is assumed of a diff

  /** Ways that pass 1 deletes. */
  function GoneWays(es: seq<Event>): set<int> {
    set e | e in es && e.OfWay? && !Untouched(e.way.version, e.way.deleted) :: e.way.id
  }

  function DiffWays(es: seq<Event>): set<int> { set e | e in es && e.OfWay? :: e.way.id }

  /** Nodes whose rows pass 1 deletes. */
  function GoneNodes(es: seq<Event>): set<int> {
    set e | e in es && e.OfNode? && !Untouched(e.node.version, e.node.deleted) :: e.node.id
  }

  function DeletedNodes(es: seq<Event>): set<int> { set e | e in es && e.OfNode? && e.node.deleted :: e.node.id }

  /** Nodes that get a location in pass 2. */
  function MovedNodes(es: seq<Event>): set<int> { set e | e in es && e.OfNode? && !e.node.deleted :: e.node.id }

  /** One entry for a way; node lists that the database can restore; a first version is not in the database yet; no
      surviving way names a deleted node. */
  ghost predicate GoodDiff(es: seq<Event>, ways: seq<WayRow>, lists: seq<NodeRow>) {
    && (forall i, j :: 0 <= i < j < |es| && es[i].OfWay? && es[j].OfWay? ==> es[i].way.id != es[j].way.id)
    && (forall i :: 0 <= i < |es| && es[i].OfWay? && !es[i].way.deleted ==> Restorable(es[i].way.nodes))
    && (forall i, r :: 0 <= i < |es| && es[i].OfWay? && Untouched(es[i].way.version, es[i].way.deleted) && r in ways ==>
          r.id != es[i].way.id)
    && (forall i :: 0 <= i < |es| && es[i].OfWay? && Untouched(es[i].way.version, es[i].way.deleted) ==>
          forall r :: r in lists ==> r.way != es[i].way.id)
    && (forall r :: r in lists && r.way !in GoneWays(es) ==> r.node !in DeletedNodes(es))
  }

  // ----- geometries: pass 1

  ghost predicate AfterPass1(ways0: seq<WayRow>, lists0: seq<NodeRow>, ways: seq<WayRow>, lists: seq<NodeRow>,
                             gone: set<int>)
  {
    && (forall r :: r in ways <==> r in ways0 && r.id !in gone)
    && (forall r :: r in lists <==> r in lists0 && r.way !in gone)
    && (forall id :: id !in gone ==> ListOf(lists, id) == ListOf(lists0, id) && RowsOf(ways, id) == RowsOf(ways0, id))
  }

  /** What pass 1 leaves of the locations: without a file those of the deleted rows are lost. */
  ghost predicate LocationsAfter(persistent: bool, before: Locations, after: Locations, gone: set<int>) {
    forall n :: Locate(after, n) == if n in gone && !persistent then Nowhere else Locate(before, n)
  }

  lemma NothingGone(ways: seq<WayRow>, lists: seq<NodeRow>)
    ensures AfterPass1(ways, lists, ways, lists, GoneWays([])) && GoneNodes([]) == {}
  {
  }

  lemma GoneGrows(es: seq<Event>, i: nat)
    requires i < |es|
    ensures var e := es[i];
            && GoneWays(es[..i + 1]) ==
               (if e.OfWay? && !Untouched(e.way.version, e.way.deleted) then GoneWays(es[..i]) + {e.way.id}
                else GoneWays(es[..i]))
            && GoneNodes(es[..i + 1]) ==
               (if e.OfNode? && !Untouched(e.node.version, e.node.deleted) then GoneNodes(es[..i]) + {e.node.id}
                else GoneNodes(es[..i]))
  {
    assert es[..i + 1] == es[..i] + [es[i]];
    forall e ensures e in es[..i + 1] <==> e in es[..i] || e == es[i] {
    }
  }

  lemma GoneStep(ways0: seq<WayRow>, lists0: seq<NodeRow>, ways: seq<WayRow>, lists: seq<NodeRow>, gone: set<int>,
                 id: int)
    requires AfterPass1(ways0, lists0, ways, lists, gone)
    ensures AfterPass1(ways0, lists0, WithoutWay(ways, id), WithoutList(lists, id), gone + {id})
  {
    forall r ensures r in WithoutWay(ways, id) <==> r in ways && r.id != id { RestMember(ways, HasId(id), r); }
    forall r ensures r in WithoutList(lists, id) <==> r in lists && r.way != id { RestMember(lists, InList(id), r); }
    forall way | way != id
      ensures ListOf(WithoutList(lists, id), way) == ListOf(lists, way)
      ensures RowsOf(WithoutWay(ways, id), way) == RowsOf(ways, way)
    {
      KeptList(lists, id, way);
      FilterRest(ways, HasId(way), HasId(id));
    }
  }

  // ----- geometries: pass 2

  /** A surviving way uses a node that has got a new location. */
  ghost predicate Affected(lists: seq<NodeRow>, moved: set<int>, way: int) {
    exists n :: n in moved && Uses(lists, way, n)
  }

  ghost predicate PendingIs(pending: seq<int>, lists: seq<NodeRow>, moved: set<int>) {
    forall x :: x in pending <==> Affected(lists, moved, x)
  }

  /** The ways that `clean_up_container_and_work_on` does not come to. */
  ghost predicate Excused(lists: seq<NodeRow>, moved: set<int>, way: int) {
    Affected(lists, moved, way) && (way <= 0 || forall y :: y > 0 && Affected(lists, moved, y) ==> way <= y)
  }

  ghost predicate Finished(b: Builder, rows: Rows, locs: Locations, lists1: seq<NodeRow>, moved: set<int>) {
    forall r :: r in rows.ways ==> RowOk(b, r, rows.lists, locs) || Excused(lists1, moved, r.id)
  }

  /** No row of these ways is in the database. */
  ghost predicate Fresh(rows: Rows, ids: set<int>) {
    (forall r :: r in rows.ways ==> r.id !in ids) && (forall r :: r in rows.lists ==> r.way !in ids)
  }

  /** The state of pass 2: `lists1` are the node lists behind pass 1, `came` and `coming` the nodes of the diff before
      and behind this point, `left` the ways of the diff still to come. */
  ghost predicate Invariant(p: Progress, b: Builder, rows: Rows, locs: Locations, lists1: seq<NodeRow>, came: set<int>,
                            coming: set<int>, left: set<int>)
  {
    && Fresh(rows, left)
    && match p
       case POINT_PHASE =>
         rows.lists == lists1 && Consistent(b, rows.ways, rows.lists, locs, rows.pending, coming)
         && PendingIs(rows.pending, lists1, came)
       case WAY_PHASE =>
         coming == {} && Consistent(b, rows.ways, rows.lists, locs, rows.pending, {})
         && PendingIs(rows.pending, lists1, came) && StrictlyAscending(rows.pending)
       case RELATION_PHASE => coming == {} && Finished(b, rows, locs, lists1, came)
  }

  lemma StepNode(p: Progress, b: Builder, before: Rows, after: Rows, locs: Locations, locs': Locations,
                 lists1: seq<NodeRow>, came: set<int>, coming: set<int>, coming': set<int>, left: set<int>, n: NodeE)
    requires Invariant(p, b, before, locs, lists1, came, coming, left)
    requires p == POINT_PHASE && !n.deleted
    requires after == before.(pending := before.pending + WaysAt(before.lists, n.id))
    requires coming - {n.id} <= coming' && SameElsewhere(locs, locs', n.id)
    ensures Invariant(p, b, after, locs', lists1, came + {n.id}, coming', left)
  {
    hide WaysAt, Consistent, Uses;
    forall way ensures way in WaysAt(lists1, n.id) <==> Uses(lists1, way, n.id) { WaysAtUses(lists1, n.id, way); }
    var more := WaysAt(lists1, n.id);
    NodeStep(b, before.ways, lists1, locs, locs', before.pending, coming, n.id, more);
    Weaken(b, before.ways, lists1, locs', after.pending, after.pending, coming - {n.id}, coming');
    forall x ensures x in after.pending <==> Affected(lists1, came + {n.id}, x) {
      if Affected(lists1, came, x) {
        var m :| m in came && Uses(lists1, x, m);
        assert m in came + {n.id};
      }
      if x in more { assert n.id in came + {n.id} && Uses(lists1, x, n.id); }
    }
  }

  /** Leaving the node phase, or staying in the way phase: the pending ways are sorted. */
  lemma StepSorted(p: Progress, b: Builder, before: Rows, locs: Locations, lists1: seq<NodeRow>, came: set<int>,
                   left: set<int>, sorted: seq<int>)
    requires Invariant(p, b, before, locs, lists1, came, {}, left) && p != RELATION_PHASE
    requires Sorted(p, before.pending, sorted)
    ensures Invariant(WAY_PHASE, b, before.(pending := sorted), locs, lists1, came, {}, left)
  {
    hide Affected, StrictlyAscending, Consistent;
    Weaken(b, before.ways, before.lists, locs, before.pending, sorted, {}, {});
  }

  lemma StepWay(b: Builder, before: Rows, after: Rows, locs: Locations, lists1: seq<NodeRow>, came: set<int>,
                left: set<int>, w: WayE)
    requires Invariant(WAY_PHASE, b, before, locs, lists1, came, {}, left)
    requires w.id in left && Restorable(w.nodes) && forall r :: r in lists1 ==> r.way != w.id
    requires var row := WayRow(w.id, b.create(Located(locs, w.nodes)));
             after.ways == if w.interesting then before.ways + [row] else before.ways
    requires after.lists == before.lists + WayRows(w.id, w.nodes)
    requires w.id !in before.pending ==> after.pending == before.pending
    ensures Invariant(WAY_PHASE, b, after, locs, lists1, came, {}, left - {w.id})
  {
    hide Consistent, Located;
    assert !Affected(lists1, came, w.id);
    assert after.pending == before.pending;
    WayStep(b, before.ways, before.lists, locs, before.pending, w.id, w.nodes, w.interesting);
  }

  ghost predicate Remaining(b: Builder, ways: seq<WayRow>, lists: seq<NodeRow>, locs: Locations, pending: seq<int>,
                            calls: seq<int>)
  {
    forall r :: r in ways ==> RowOk(b, r, lists, locs) || (r.id in pending && r.id !in calls)
  }

  /** Every call of `update_way` puts one way in order and leaves the others. */
  lemma {:induction false} AllUpdates(b: Builder, ways: seq<WayRow>, lists: seq<NodeRow>, locs: Locations,
                                      pending: seq<int>, calls: seq<int>)
    requires Consistent(b, ways, lists, locs, pending, {})
    ensures Remaining(b, UpdatedAll(b, ways, lists, locs, calls), lists, locs, pending, calls)
  {
    hide RowOk, UpdatedWays, Uses;
    if calls == [] {
      forall r | r in ways ensures RowOk(b, r, lists, locs) || r.id in pending {
        assert !Awaits(lists, r.id, {});
      }
    } else {
      var front, id := calls[..|calls| - 1], calls[|calls| - 1];
      AllUpdates(b, ways, lists, locs, pending, front);
      OneUpdate(b, UpdatedAll(b, ways, lists, locs, front), lists, locs, pending, front, id);
      assert calls == front + [id];
    }
  }

  lemma OneUpdate(b: Builder, ways: seq<WayRow>, lists: seq<NodeRow>, locs: Locations, pending: seq<int>,
                  calls: seq<int>, id: int)
    requires Remaining(b, ways, lists, locs, pending, calls)
    ensures Remaining(b, UpdatedWays(b, ways, lists, locs, id), lists, locs, pending, calls + [id])
  {
    hide NodeList, Faithful, Located;
    var after := UpdatedWays(b, ways, lists, locs, id);
    forall r | r in after ensures RowOk(b, r, lists, locs) || (r.id in pending && r.id !in calls + [id]) {
      var i :| 0 <= i < |after| && after[i] == r;
      assert ways[i] in ways;
      if ways[i].id == id {
        RefreshedIsFaithful(b, Located(locs, NodeList(lists, id)));
      }
    }
  }

  lemma StepRelation(b: Builder, before: Rows, after: Rows, locs: Locations, lists1: seq<NodeRow>, came: set<int>,
                     left: set<int>, calls: seq<int>)
    requires Invariant(WAY_PHASE, b, before, locs, lists1, came, {}, left)
    requires Worklist(calls, before.pending) && after.lists == before.lists
    requires after.ways == UpdatedAll(b, before.ways, before.lists, locs, calls)
    ensures Invariant(RELATION_PHASE, b, after, locs, lists1, came, {}, left)
  {
    hide RowOk, UpdatedWays, Affected;
    AllUpdates(b, before.ways, before.lists, locs, before.pending, calls);
    SameIds(b, before.ways, before.lists, locs, calls);
    forall r | r in after.ways ensures RowOk(b, r, after.lists, locs) || Excused(lists1, came, r.id) {
      if !RowOk(b, r, after.lists, locs) && r.id > 0 {
        assert SteppedOver(before.pending, r.id);
      }
    }
    forall r | r in after.ways ensures r.id !in left {
      var i :| 0 <= i < |after.ways| && after.ways[i] == r;
      assert before.ways[i] in before.ways;
    }
  }

  lemma {:induction false} SameIds(b: Builder, ways: seq<WayRow>, lists: seq<NodeRow>, locs: Locations, calls: seq<int>)
    ensures var after := UpdatedAll(b, ways, lists, locs, calls);
            |after| == |ways| && forall i :: 0 <= i < |ways| ==> after[i].id == ways[i].id
  {
    if calls != [] { SameIds(b, ways, lists, locs, calls[..|calls| - 1]); }
  }

  /** One accepted object keeps the invariant. */
  lemma StepKeeps(e: Event, p: Progress, b: Builder, before: Rows, after: Rows, locs: Locations, locs': Locations,
                  lists1: seq<NodeRow>, came: set<int>, came': set<int>, coming: set<int>, coming': set<int>,
                  left: set<int>, left': set<int>, sorted: seq<int>, calls: seq<int>)
    requires Accepted(p, e) && Effect(e, p, b, locs', before, after, sorted, calls)
    requires Invariant(p, b, before, locs, lists1, came, coming, left)
    requires if e.OfNode? && !e.node.deleted then SameElsewhere(locs, locs', e.node.id) else locs' == locs
    requires came' == if e.OfNode? && !e.node.deleted then came + {e.node.id} else came
    requires coming' == coming || (e.OfNode? && !e.node.deleted && coming - {e.node.id} <= coming')
    requires !e.OfNode? ==> coming == {}
    requires left' == if e.OfWay? then left - {e.way.id} else left
    requires e.OfWay? ==> e.way.id in left && forall r :: r in lists1 ==> r.way != e.way.id
    requires e.OfWay? && !e.way.deleted ==> Restorable(e.way.nodes)
    ensures Invariant(After(p, e), b, after, locs', lists1, came', coming', left')
  {
    hide Consistent, Affected, WaysAt, UpdatedAll, Worklist, Located, WayRows, StrictlyAscending;
    match e
    case OfNode(n) =>
      if !n.deleted { StepNode(p, b, before, after, locs, locs', lists1, came, coming, coming', left, n); }
    case OfArea(_) =>
      if p != RELATION_PHASE { StepSorted(p, b, before, locs, lists1, came, left, sorted); }
    case OfWay(w) =>
      if p != RELATION_PHASE {
        StepSorted(p, b, before, locs, lists1, came, left, sorted);
        if !w.deleted { StepWay(b, before.(pending := sorted), after, locs, lists1, came, left, w); }
      }
    case OfRelation(_) =>
      if p != RELATION_PHASE {
        StepSorted(p, b, before, locs, lists1, came, left, sorted);
        StepRelation(b, before.(pending := sorted), after, locs, lists1, came, left, calls);
      } else {
        NoUpdate(b, before.ways, before.lists, locs);
      }
  }

  lemma NoUpdate(b: Builder, ways: seq<WayRow>, lists: seq<NodeRow>, locs: Locations)
    ensures UpdatedAll(b, ways, lists, locs, []) == ways
  {
  }

  // ----- geometries: what stays

  /** The surviving ways whose geometry is replaced. */
  ghost predicate Refreshes(lists: seq<NodeRow>, moved: set<int>, way: int) {
    Affected(lists, moved, way) && !Excused(lists, moved, way)
  }

  /** The row that a way of the diff gets. */
  function DiffRows(b: Builder, locs: Locations, w: WayE): seq<WayRow> {
    if w.deleted || !w.interesting then [] else [WayRow(w.id, b.create(Located(locs, w.nodes)))]
  }

  function DiffList(w: WayE): seq<NodeRow> { if w.deleted then [] else WayRows(w.id, w.nodes) }

  /** The way has exactly the row and the node list of the diff. */
  ghost predicate FromDiff(b: Builder, ways: seq<WayRow>, lists: seq<NodeRow>, locs: Locations, w: WayE) {
    RowsOf(ways, w.id) == DiffRows(b, locs, w) && ListOf(lists, w.id) == DiffList(w)
  }

  /** The rows of a way behind the calls of `update_way`. */
  function Renew(b: Builder, rows: seq<WayRow>, lists: seq<NodeRow>, locs: Locations, id: int): seq<WayRow> {
    WithGeometries(rows, Refreshed(b, Located(locs, NodeList(lists, id))))
  }

  ghost predicate Names(ws: set<WayE>, id: int) { exists w :: w in ws && w.id == id }

  ghost predicate NoNodes(lists: seq<NodeRow>, id: int) { forall r :: r in lists ==> r.way != id }

  ghost predicate NoRow(ways: seq<WayRow>, id: int) { forall r :: r in ways ==> r.id != id }

  /** The ways of the diff seen so far have exactly what the diff says. */
  ghost predicate SeenRight(p: Progress, b: Builder, rows: Rows, locs: Locations, lists1: seq<NodeRow>, seen: set<WayE>)
  {
    forall w :: w in seen ==>
      p != POINT_PHASE && NoNodes(lists1, w.id) && FromDiff(b, rows.ways, rows.lists, locs, w)
  }

  /** A way has exactly the node list and the rows behind pass 1, but for a geometry that is replaced when the way
      phase ends. */
  ghost predicate KeptWay(p: Progress, b: Builder, rows: Rows, locs: Locations, ways1: seq<WayRow>,
                          lists1: seq<NodeRow>, came: set<int>, id: int)
  {
    && ListOf(rows.lists, id) == ListOf(lists1, id)
    && RowsOf(rows.ways, id) ==
       if p == RELATION_PHASE && Refreshes(lists1, came, id) then Renew(b, RowsOf(ways1, id), lists1, locs, id)
       else RowsOf(ways1, id)
  }

  ghost predicate Preserved(p: Progress, b: Builder, rows: Rows, locs: Locations, ways1: seq<WayRow>,
                            lists1: seq<NodeRow>, came: set<int>, seen: set<WayE>)
  {
    && SeenRight(p, b, rows, locs, lists1, seen)
    && forall id :: !Names(seen, id) ==> KeptWay(p, b, rows, locs, ways1, lists1, came, id)
  }

  lemma {:induction false} UpdatesRows(b: Builder, ways: seq<WayRow>, lists: seq<NodeRow>, locs: Locations,
                                       calls: seq<int>, id: int)
    ensures RowsOf(UpdatedAll(b, ways, lists, locs, calls), id) ==
            if id in calls then Renew(b, RowsOf(ways, id), lists, locs, id) else RowsOf(ways, id)
  {
    hide RowsOf, NodeList, Located, Refreshed;
    if calls != [] {
      var front, last := calls[..|calls| - 1], calls[|calls| - 1];
      assert calls == front + [last];
      UpdatesRows(b, ways, lists, locs, front, id);
      UpdatedRowsOf(UpdatedAll(b, ways, lists, locs, front), last, Refreshed(b, Located(locs, NodeList(lists, last))),
                    id);
    }
  }

  /** The calls are exactly the ways behind the smallest positive id. */
  lemma CallsRefresh(pending: seq<int>, lists1: seq<NodeRow>, came: set<int>, calls: seq<int>, way: int)
    requires PendingIs(pending, lists1, came) && StrictlyAscending(pending) && Worklist(calls, pending)
    ensures way in calls <==> Refreshes(lists1, came, way)
  {
    hide Affected;
    if way in calls && Excused(lists1, came, way) { UniqueLosesSmallest(pending, way); }
    if Refreshes(lists1, came, way) {
      var y :| y > 0 && Affected(lists1, came, y) && y < way;
      assert y in pending && !SteppedOver(pending, way);
    }
  }

  /** New rows of one way, seen from the rows of any way. */
  lemma AppendedRows(ways: seq<WayRow>, more: seq<WayRow>, way: int, id: int)
    requires NoRow(ways, way) && forall i :: 0 <= i < |more| ==> more[i].id == way
    ensures RowsOf(ways + more, id) == if id == way then more else RowsOf(ways, id)
  {
    hide Filter;
    FilterAppend(ways, more, HasId(id));
    FilterAll(more, HasId(id));
    FilterAll(ways, HasId(way));
    assert RowsOf(ways, id) + [] == RowsOf(ways, id) && [] + more == more;
  }

  lemma AppendedList(lists: seq<NodeRow>, more: seq<NodeRow>, way: int, id: int)
    requires NoNodes(lists, way) && forall i :: 0 <= i < |more| ==> more[i].way == way
    ensures ListOf(lists + more, id) == if id == way then more else ListOf(lists, id)
  {
    hide Filter;
    FilterAppend(lists, more, InList(id));
    FilterAll(more, InList(id));
    FilterAll(lists, InList(way));
    assert ListOf(lists, id) + [] == ListOf(lists, id) && [] + more == more;
  }

  lemma OfTheWay(b: Builder, locs: Locations, w: WayE)
    ensures forall i :: 0 <= i < |DiffRows(b, locs, w)| ==> DiffRows(b, locs, w)[i].id == w.id
    ensures forall i :: 0 <= i < |DiffList(w)| ==> DiffList(w)[i].way == w.id
  {
  }

  lemma SentIsSeen(b: Builder, before: Rows, after: Rows, locs: Locations, w: WayE, v: WayE)
    requires NoNodes(before.lists, w.id) && NoRow(before.ways, w.id)
    requires after.ways == before.ways + DiffRows(b, locs, w) && after.lists == before.lists + DiffList(w)
    requires v == w || (v.id != w.id && FromDiff(b, before.ways, before.lists, locs, v))
    ensures FromDiff(b, after.ways, after.lists, locs, v)
  {
    hide RowsOf, ListOf, DiffRows, DiffList, NoNodes, NoRow;
    OfTheWay(b, locs, w);
    AppendedRows(before.ways, DiffRows(b, locs, w), w.id, v.id);
    AppendedList(before.lists, DiffList(w), w.id, v.id);
  }

  lemma SentLeavesOthers(p: Progress, b: Builder, before: Rows, after: Rows, locs: Locations, ways1: seq<WayRow>,
                         lists1: seq<NodeRow>, came: set<int>, w: WayE, id: int)
    requires NoNodes(before.lists, w.id) && NoRow(before.ways, w.id) && id != w.id && p != RELATION_PHASE
    requires after.ways == before.ways + DiffRows(b, locs, w) && after.lists == before.lists + DiffList(w)
    requires KeptWay(p, b, before, locs, ways1, lists1, came, id)
    ensures KeptWay(WAY_PHASE, b, after, locs, ways1, lists1, came, id)
  {
    hide RowsOf, ListOf, DiffRows, DiffList, NoNodes, NoRow, Refreshes, Renew;
    OfTheWay(b, locs, w);
    AppendedRows(before.ways, DiffRows(b, locs, w), w.id, id);
    AppendedList(before.lists, DiffList(w), w.id, id);
  }

  /** A way of the diff is sent. */
  lemma SentPreserves(p: Progress, b: Builder, before: Rows, after: Rows, locs: Locations, ways1: seq<WayRow>,
                      lists1: seq<NodeRow>, came: set<int>, left: set<int>, seen: set<WayE>, w: WayE)
    requires Preserved(p, b, before, locs, ways1, lists1, came, seen) && p != RELATION_PHASE
    requires Fresh(before, left) && w.id in left && NoNodes(lists1, w.id) && !Names(seen, w.id)
    requires after.ways == before.ways + DiffRows(b, locs, w) && after.lists == before.lists + DiffList(w)
    ensures Preserved(WAY_PHASE, b, after, locs, ways1, lists1, came, seen + {w})
  {
    hide FromDiff, DiffRows, DiffList, KeptWay, NoNodes, NoRow, Fresh;
    NoneLeft(before, left, w.id);
    OneMoreName(seen, w);
    forall v | v in seen + {w} ensures NoNodes(lists1, v.id) && FromDiff(b, after.ways, after.lists, locs, v) {
      SentIsSeen(b, before, after, locs, w, v);
    }
    forall id | !Names(seen + {w}, id) ensures KeptWay(WAY_PHASE, b, after, locs, ways1, lists1, came, id) {
      SentLeavesOthers(p, b, before, after, locs, ways1, lists1, came, w, id);
    }
  }

  lemma NoneLeft(rows: Rows, left: set<int>, id: int)
    requires Fresh(rows, left) && id in left
    ensures NoNodes(rows.lists, id) && NoRow(rows.ways, id)
  {
  }

  lemma OneMoreName(seen: set<WayE>, w: WayE)
    ensures forall id :: Names(seen + {w}, id) <==> Names(seen, id) || id == w.id
  {
    forall id | Names(seen, id) ensures Names(seen + {w}, id) {
      var v :| v in seen && v.id == id;
      assert v in seen + {w};
    }
    assert w in seen + {w};
  }

  /** The geometries are replaced. */
  lemma UpdatesPreserve(p: Progress, b: Builder, before: Rows, after: Rows, locs: Locations, ways1: seq<WayRow>,
                        lists1: seq<NodeRow>, came: set<int>, seen: set<WayE>, calls: seq<int>)
    requires Preserved(p, b, before, locs, ways1, lists1, came, seen) && p != RELATION_PHASE
    requires forall x :: x in calls <==> Refreshes(lists1, came, x)
    requires after.lists == before.lists && after.ways == UpdatedAll(b, before.ways, before.lists, locs, calls)
    ensures Preserved(RELATION_PHASE, b, after, locs, ways1, lists1, came, seen)
  {
    hide RowsOf, ListOf, UpdatedAll, Located, DiffRows, DiffList, Refreshed, Excused;
    forall id
      ensures RowsOf(after.ways, id) ==
              if id in calls then Renew(b, RowsOf(before.ways, id), before.lists, locs, id) else RowsOf(before.ways, id)
    {
      UpdatesRows(b, before.ways, before.lists, locs, calls, id);
    }
    forall w | w in seen ensures w.id !in calls {
      assert !Affected(lists1, came, w.id);
    }
  }

  lemma PreservedKeeps(e: Event, p: Progress, b: Builder, before: Rows, after: Rows, locs: Locations, locs': Locations,
                       ways1: seq<WayRow>, lists1: seq<NodeRow>, came: set<int>, came': set<int>, coming: set<int>,
                       left: set<int>, seen: set<WayE>, seen': set<WayE>, sorted: seq<int>, calls: seq<int>)
    requires Accepted(p, e) && Effect(e, p, b, locs', before, after, sorted, calls)
    requires Invariant(p, b, before, locs, lists1, came, coming, left)
    requires !e.OfNode? ==> coming == {}
    requires !(e.OfNode? && !e.node.deleted) ==> locs' == locs
    requires Preserved(p, b, before, locs, ways1, lists1, came, seen)
    requires came' == if e.OfNode? && !e.node.deleted then came + {e.node.id} else came
    requires seen' == if e.OfWay? then seen + {e.way} else seen
    requires e.OfWay? ==> e.way.id in left && NoNodes(lists1, e.way.id) && !Names(seen, e.way.id)
    ensures Preserved(After(p, e), b, after, locs', ways1, lists1, came', seen')
  {
    hide Consistent, Affected, WaysAt, UpdatedAll, Worklist, Located, WayRows, StrictlyAscending, RowsOf, ListOf,
         Refreshes, Renew, NoNodes, Names, Fresh, PendingIs;
    match e
    case OfNode(n) =>
    case OfArea(_) =>
    case OfWay(w) =>
      if p == RELATION_PHASE {
        DeletedPreserves(b, before, after, locs, ways1, lists1, came, left, seen, w);
      } else {
        if w.deleted { assert before.ways + [] == before.ways && before.lists + [] == before.lists; }
        SentPreserves(p, b, before, after, locs, ways1, lists1, came, left, seen, w);
      }
    case OfRelation(_) =>
      if p != RELATION_PHASE {
        StepSorted(p, b, before, locs, lists1, came, left, sorted);
        forall w ensures w in calls <==> Refreshes(lists1, came, w) { CallsRefresh(sorted, lists1, came, calls, w); }
        UpdatesPreserve(p, b, before, after, locs, ways1, lists1, came, seen, calls);
      } else {
        NoUpdate(b, before.ways, before.lists, locs);
      }
  }

  /** A deleted way behind the way phase. */
  lemma DeletedPreserves(b: Builder, before: Rows, after: Rows, locs: Locations, ways1: seq<WayRow>,
                         lists1: seq<NodeRow>, came: set<int>, left: set<int>, seen: set<WayE>, w: WayE)
    requires Preserved(RELATION_PHASE, b, before, locs, ways1, lists1, came, seen) && w.deleted
    requires Fresh(before, left) && w.id in left && NoNodes(lists1, w.id)
    requires after.ways == before.ways && after.lists == before.lists
    ensures Preserved(RELATION_PHASE, b, after, locs, ways1, lists1, came, seen + {w})
  {
    hide Filter, Located, WayRows, NoNodes, NodeList, Refreshes, Renew;
    FilterAll(before.ways, HasId(w.id));
    FilterAll(before.lists, InList(w.id));
    OneMoreName(seen, w);
  }

  // ----- geometries: the whole update

  lemma MovedGrows(es: seq<Event>, i: nat)
    requires i < |es|
    ensures var e := es[i];
            MovedNodes(es[..i + 1]) ==
            if e.OfNode? && !e.node.deleted then MovedNodes(es[..i]) + {e.node.id} else MovedNodes(es[..i])
  {
    assert es[..i + 1] == es[..i] + [es[i]];
    forall e ensures e in es[..i + 1] <==> e in es[..i] || e == es[i] {
    }
  }

  /** The ways of the diff. */
  function WayEntries(es: seq<Event>): set<WayE> { set e | e in es && e.OfWay? :: e.way }

  lemma EntriesGrow(es: seq<Event>, i: nat)
    requires i < |es|
    requires forall j, k :: 0 <= j < k < |es| && es[j].OfWay? && es[k].OfWay? ==> es[j].way.id != es[k].way.id
    ensures var e := es[i];
            WayEntries(es[..i + 1]) == if e.OfWay? then WayEntries(es[..i]) + {e.way} else WayEntries(es[..i])
    ensures es[i].OfWay? ==> !Names(WayEntries(es[..i]), es[i].way.id)
  {
    assert es[..i + 1] == es[..i] + [es[i]];
    forall e ensures e in es[..i + 1] <==> e in es[..i] || e == es[i] {
    }
    if es[i].OfWay? {
      forall w | w in WayEntries(es[..i]) ensures w.id != es[i].way.id {
        var e :| e in es[..i] && e.OfWay? && e.way == w;
        var j :| 0 <= j < i && es[j] == e;
      }
    }
  }

  lemma EntryNames(es: seq<Event>, id: int)
    ensures Names(WayEntries(es), id) <==> id in DiffWays(es)
  {
    if Names(WayEntries(es), id) {
      var w :| w in WayEntries(es) && w.id == id;
      assert OfWay(w) in es;
    }
    if id in DiffWays(es) {
      var e :| e in es && e.OfWay? && e.way.id == id;
      assert e.way in WayEntries(es);
    }
  }

  /** What is still to come shrinks with every object. */
  lemma ComingShrinks(es: seq<Event>, i: nat)
    requires i < |es|
    ensures var e := es[i];
            if e.OfNode? && !e.node.deleted then MovedNodes(es[i..]) - {e.node.id} <= MovedNodes(es[i + 1..])
            else MovedNodes(es[i..]) == MovedNodes(es[i + 1..])
  {
    assert es[i..] == [es[i]] + es[i + 1..];
    forall e ensures e in es[i..] <==> e == es[i] || e in es[i + 1..] {
    }
  }

  lemma NoMoreNodes(es: seq<Event>, i: nat)
    requires i < |es| && InOrder(es) && !es[i].OfNode?
    ensures MovedNodes(es[i..]) == {}
  {
    forall e | e in es[i..] ensures !(e.OfNode? && !e.node.deleted) {
      var j :| 0 <= j < |es[i..]| && es[i..][j] == e;
      assert es[i + j] == e;
    }
  }

  lemma WaysShrink(es: seq<Event>, i: nat)
    requires i < |es|
    requires forall j, k :: 0 <= j < k < |es| && es[j].OfWay? && es[k].OfWay? ==> es[j].way.id != es[k].way.id
    ensures var e := es[i];
            DiffWays(es[i + 1..]) == if e.OfWay? then DiffWays(es[i..]) - {e.way.id} else DiffWays(es[i..])
    ensures es[i].OfWay? ==> es[i].way.id in DiffWays(es[i..])
  {
    assert es[i..] == [es[i]] + es[i + 1..];
    forall e ensures e in es[i..] <==> e == es[i] || e in es[i + 1..] {
    }
    if es[i].OfWay? {
      forall e | e in es[i + 1..] && e.OfWay? ensures e.way.id != es[i].way.id {
        var j :| 0 <= j < |es[i + 1..]| && es[i + 1..][j] == e;
        assert es[i + 1 + j] == e;
      }
    }
  }

  /** Behind pass 1 the invariant of pass 2 holds. */
  lemma StartOfPass2(es: seq<Event>, b: Builder, ways0: seq<WayRow>, lists0: seq<NodeRow>, rows: Rows, locs: Locations)
    requires GoodDiff(es, ways0, lists0) && rows.pending == []
    requires AfterPass1(ways0, lists0, rows.ways, rows.lists, GoneWays(es))
    requires Consistent(b, rows.ways, rows.lists, locs, [], GoneNodes(es))
    ensures Invariant(POINT_PHASE, b, rows, locs, rows.lists, {}, MovedNodes(es), DiffWays(es))
  {
    hide RowOk;
    forall r, node | r in rows.ways && node in DeletedNodes(es) ensures !Uses(rows.lists, r.id, node) {
    }
    DropUnused(b, rows.ways, rows.lists, locs, GoneNodes(es), DeletedNodes(es));
    GoneOrMoved(es);
    Weaken(b, rows.ways, rows.lists, locs, [], [], GoneNodes(es) - DeletedNodes(es), MovedNodes(es));
    NoDiffWays(es, ways0, lists0, rows);
  }

  lemma GoneOrMoved(es: seq<Event>)
    ensures GoneNodes(es) - DeletedNodes(es) <= MovedNodes(es)
  {
    forall n | n in GoneNodes(es) && n !in DeletedNodes(es) ensures n in MovedNodes(es) {
      var e :| e in es && e.OfNode? && !Untouched(e.node.version, e.node.deleted) && e.node.id == n;
      assert !e.node.deleted;
    }
  }

  lemma NoDiffWays(es: seq<Event>, ways0: seq<WayRow>, lists0: seq<NodeRow>, rows: Rows)
    requires GoodDiff(es, ways0, lists0) && AfterPass1(ways0, lists0, rows.ways, rows.lists, GoneWays(es))
    ensures Fresh(rows, DiffWays(es))
  {
    forall id | id in DiffWays(es)
      ensures (forall r :: r in rows.ways ==> r.id != id) && forall r :: r in rows.lists ==> r.way != id
    {
      var e :| e in es && e.OfWay? && e.way.id == id;
      var i :| 0 <= i < |es| && es[i] == e;
      if Untouched(e.way.version, e.way.deleted) {
        assert forall r :: r in ways0 ==> r.id != id;
        assert forall r :: r in lists0 ==> r.way != id;
      } else {
        assert id in GoneWays(es);
      }
    }
  }

  /** A surviving way that uses a node with a new location, in terms of the database before the update. */
  ghost predicate AffectedBy(lists0: seq<NodeRow>, es: seq<Event>, way: int) {
    way !in GoneWays(es) && Affected(lists0, MovedNodes(es), way)
  }

  lemma AffectedBefore(lists0: seq<NodeRow>, lists1: seq<NodeRow>, es: seq<Event>, way: int)
    requires forall r :: r in lists1 <==> r in lists0 && r.way !in GoneWays(es)
    ensures Affected(lists1, MovedNodes(es), way) <==> AffectedBy(lists0, es, way)
  {
    hide GoneWays, MovedNodes;
    if AffectedBy(lists0, es, way) {
      var n :| n in MovedNodes(es) && Uses(lists0, way, n);
      assert Uses(lists1, way, n);
    }
    if Affected(lists1, MovedNodes(es), way) {
      var n :| n in MovedNodes(es) && Uses(lists1, way, n);
      assert Uses(lists0, way, n);
    }
  }

  predicate LiveNode(e: Event, node: int) { e.OfNode? && !e.node.deleted && e.node.id == node }

  /** The last live entry of the node, or the first one, is at this location. */
  ghost predicate Brings(es: seq<Event>, last: bool, node: int, location: Location) {
    exists i :: 0 <= i < |es| && LiveNode(es[i], node) && es[i].node.location == location
                && forall j :: 0 <= j < |es| && LiveNode(es[j], node) ==> if last then j <= i else i <= j
  }

  /** The locations behind the nodes of a diff: a file keeps the last location of a node, the cache the first. */
  ghost predicate Brought(es: seq<Event>, persistent: bool, locs: Locations, locs': Locations) {
    forall n :: if n in MovedNodes(es) then Brings(es, persistent, n, Locate(locs', n))
                else Locate(locs', n) == Locate(locs, n)
  }

  lemma BroughtStep(es: seq<Event>, i: nat, persistent: bool, locs: Locations, before: Locations, after: Locations,
                    cached: set<int>)
    requires i < |es| && Brought(es[..i], persistent, locs, before) && cached == MovedNodes(es[..i])
    requires var e := es[i];
             after == if e.OfNode? && !e.node.deleted && (persistent || e.node.id !in cached)
                      then before[e.node.id := e.node.location] else before
    ensures Brought(es[..i + 1], persistent, locs, after)
  {
    hide MovedNodes, Brings;
    MovedGrows(es, i);
    forall n
      ensures if n in MovedNodes(es[..i + 1]) then Brings(es[..i + 1], persistent, n, Locate(after, n))
              else Locate(after, n) == Locate(locs, n)
    {
      if n in MovedNodes(es[..i + 1]) {
        if n in MovedNodes(es[..i]) && Locate(after, n) == Locate(before, n) && !(persistent && LiveNode(es[i], n)) {
          StillBrings(es, i, persistent, n, Locate(after, n));
        } else {
          NowBrings(es, i, persistent, n);
        }
      }
    }
  }

  lemma StillBrings(es: seq<Event>, i: nat, last: bool, node: int, location: Location)
    requires i < |es| && Brings(es[..i], last, node, location) && !(last && LiveNode(es[i], node))
    ensures Brings(es[..i + 1], last, node, location)
  {
    var front, more := es[..i], es[..i + 1];
    var k :| 0 <= k < i && LiveNode(front[k], node) && front[k].node.location == location
             && forall j :: 0 <= j < i && LiveNode(front[j], node) ==> if last then j <= k else k <= j;
    assert more[k] == front[k];
    forall j | 0 <= j < i + 1 && LiveNode(more[j], node) ensures if last then j <= k else k <= j {
      if j < i { assert front[j] == more[j]; }
    }
  }

  lemma NowBrings(es: seq<Event>, i: nat, last: bool, node: int)
    requires i < |es| && LiveNode(es[i], node) && (last || node !in MovedNodes(es[..i]))
    ensures Brings(es[..i + 1], last, node, es[i].node.location)
  {
    var more := es[..i + 1];
    assert more[i] == es[i];
    forall j | 0 <= j < i && LiveNode(more[j], node) ensures last {
      assert es[..i][j] == more[j];
      assert more[j] in es[..i] ==> node in MovedNodes(es[..i]);
    }
  }

  lemma NothingSeen(b: Builder, rows: Rows, locs: Locations, came: set<int>)
    ensures Preserved(POINT_PHASE, b, rows, locs, rows.ways, rows.lists, came, {})
  {
  }

  lemma NothingBrought(persistent: bool, locs: Locations)
    ensures Brought([], persistent, locs, locs)
  {
  }

  lemma NothingMoved()
    ensures MovedNodes([]) == {} && DiffWays([]) == {} && WayEntries([]) == {}
  {
  }

  lemma InDiffWays(es: seq<Event>, i: nat)
    requires i < |es| && es[i].OfWay?
    ensures es[i].way.id in DiffWays(es)
  {
    assert es[i] in es;
  }

  /** The surviving ways that use a moved node but are stepped over: the one with the smallest positive id, and those
      whose id is not positive; without a relation in the diff all of them. */
  ghost predicate Skipped(lists0: seq<NodeRow>, es: seq<Event>, way: int) {
    && AffectedBy(lists0, es, way)
    && (!HasRelation(es) || way <= 0 || forall y :: y > 0 && AffectedBy(lists0, es, y) ==> way <= y)
  }

  /** The geometry of a stored way is replaced by an update. */
  ghost predicate Renewed(lists0: seq<NodeRow>, es: seq<Event>, way: int) {
    AffectedBy(lists0, es, way) && !Skipped(lists0, es, way)
  }

  lemma SkippedBefore(lists0: seq<NodeRow>, lists1: seq<NodeRow>, es: seq<Event>, way: int)
    requires HasRelation(es) && forall r :: r in lists1 <==> r in lists0 && r.way !in GoneWays(es)
    ensures Excused(lists1, MovedNodes(es), way) <==> Skipped(lists0, es, way)
    ensures Refreshes(lists1, MovedNodes(es), way) <==> Renewed(lists0, es, way)
  {
    hide Affected, AffectedBy, GoneWays, MovedNodes;
    forall y ensures Affected(lists1, MovedNodes(es), y) <==> AffectedBy(lists0, es, y) {
      AffectedBefore(lists0, lists1, es, y);
    }
  }

  lemma UntouchedHasNoList(lists0: seq<NodeRow>, ways0: seq<WayRow>, es: seq<Event>, way: int)
    requires GoodDiff(es, ways0, lists0) && way !in GoneWays(es)
    ensures way in DiffWays(es) ==> NoNodes(lists0, way)
  {
    forall e | e in es && e.OfWay? && e.way.id == way ensures NoNodes(lists0, way) {
      var i :| 0 <= i < |es| && es[i] == e;
      assert Untouched(e.way.version, e.way.deleted);
    }
  }

  /** A surviving way that uses a moved node is not in the diff. */
  lemma AffectedIsOutside(lists0: seq<NodeRow>, ways0: seq<WayRow>, es: seq<Event>, way: int)
    requires GoodDiff(es, ways0, lists0) && AffectedBy(lists0, es, way)
    ensures way !in DiffWays(es)
  {
    UntouchedHasNoList(lists0, ways0, es, way);
  }

  /** The table of ways and the node lists behind an update. The ways of the diff have exactly the rows and the node
      lists of the diff; the others have those they had, with new geometries exactly for the ways that are renewed. So
      every row fits its node list and the new locations, or its way is stepped over, and the whole table is in order if
      and only if the old geometries of the ways stepped over happen to fit. */
  ghost predicate WaysRight(es: seq<Event>, b: Builder, ways0: seq<WayRow>, lists0: seq<NodeRow>, ways: seq<WayRow>,
                            lists: seq<NodeRow>, locs: Locations)
  {
    && (forall w :: w in WayEntries(es) ==>
          && FromDiff(b, ways, lists, locs, w)
          && NodeList(lists, w.id) == if w.deleted then [] else w.nodes)
    && (forall id :: id !in DiffWays(es) ==> Outside(es, b, ways0, lists0, ways, lists, locs, id))
    && (forall r :: r in ways ==> RowOk(b, r, lists, locs) || Skipped(lists0, es, r.id))
    && ((forall r :: r in ways ==> RowOk(b, r, lists, locs)) <==>
        (forall r :: r in ways0 && Skipped(lists0, es, r.id) ==> RowOk(b, r, lists0, locs)))
  }

  /** What becomes of a way outside the diff. */
  ghost predicate Outside(es: seq<Event>, b: Builder, ways0: seq<WayRow>, lists0: seq<NodeRow>, ways: seq<WayRow>,
                          lists: seq<NodeRow>, locs: Locations, id: int)
  {
    && ListOf(lists, id) == ListOf(lists0, id)
    && RowsOf(ways, id) ==
       if Renewed(lists0, es, id) then Renew(b, RowsOf(ways0, id), lists0, locs, id) else RowsOf(ways0, id)
  }

  /** From the results on single ways to the exact condition for the whole table. */
  lemma AllInOrderIff(es: seq<Event>, b: Builder, ways0: seq<WayRow>, lists0: seq<NodeRow>, ways: seq<WayRow>,
                      lists: seq<NodeRow>, locs: Locations)
    requires GoodDiff(es, ways0, lists0)
    requires forall r :: r in ways ==> RowOk(b, r, lists, locs) || Skipped(lists0, es, r.id)
    requires forall id :: id !in DiffWays(es) ==> Outside(es, b, ways0, lists0, ways, lists, locs, id)
    ensures (forall r :: r in ways ==> RowOk(b, r, lists, locs)) <==>
            (forall r :: r in ways0 && Skipped(lists0, es, r.id) ==> RowOk(b, r, lists0, locs))
  {
    hide AffectedBy, GoodDiff, Filter, Faithful, DiffWays, HasRelation, Renew;
    forall r: WayRow | Skipped(lists0, es, r.id)
      ensures r in ways <==> r in ways0
      ensures RowOk(b, r, lists, locs) <==> RowOk(b, r, lists0, locs)
    {
      AffectedIsOutside(lists0, ways0, es, r.id);
      assert Outside(es, b, ways0, lists0, ways, lists, locs, r.id);
      FilterMember(ways, HasId(r.id), r);
      FilterMember(ways0, HasId(r.id), r);
    }
  }

  /** The lists of the diff can be read back. */
  lemma ListComesBack(lists: seq<NodeRow>, w: WayE)
    requires ListOf(lists, w.id) == DiffList(w) && (!w.deleted ==> Restorable(w.nodes))
    ensures NodeList(lists, w.id) == if w.deleted then [] else w.nodes
  {
    if !w.deleted {
      NewList([], w.id, w.nodes);
      NewRows([], w.id, WayRows(w.id, w.nodes));
      assert [] + WayRows(w.id, w.nodes) == WayRows(w.id, w.nodes);
    }
  }

  lemma EntriesAreRestorable(es: seq<Event>, ways0: seq<WayRow>, lists0: seq<NodeRow>, w: WayE)
    requires GoodDiff(es, ways0, lists0) && w in WayEntries(es) && !w.deleted
    ensures Restorable(w.nodes)
  {
    var e :| e in es && e.OfWay? && e.way == w;
    var i :| 0 <= i < |es| && es[i] == e;
  }

  /** The ways that are not refreshed by the end of pass 2. */
  lemma LeftOver(es: seq<Event>, p: Progress, b: Builder, lists0: seq<NodeRow>, lists1: seq<NodeRow>, rows: Rows,
                 locs: Locations)
    requires p == RELATION_PHASE <==> HasRelation(es)
    requires forall r :: r in lists1 <==> r in lists0 && r.way !in GoneWays(es)
    requires Invariant(p, b, rows, locs, lists1, MovedNodes(es), {}, {})
    ensures forall r :: r in rows.ways ==> RowOk(b, r, rows.lists, locs) || Skipped(lists0, es, r.id)
    ensures forall id :: p == RELATION_PHASE && Refreshes(lists1, MovedNodes(es), id) <==> Renewed(lists0, es, id)
  {
    hide RowOk, Affected, AffectedBy, Excused, GoneWays, MovedNodes, Uses;
    forall id
      ensures p == RELATION_PHASE && Refreshes(lists1, MovedNodes(es), id) <==> Renewed(lists0, es, id)
      ensures p == RELATION_PHASE ==> (Excused(lists1, MovedNodes(es), id) <==> Skipped(lists0, es, id))
      ensures Affected(lists1, MovedNodes(es), id) <==> AffectedBy(lists0, es, id)
    {
      AffectedBefore(lists0, lists1, es, id);
      if p == RELATION_PHASE { SkippedBefore(lists0, lists1, es, id); }
    }
    forall r | r in rows.ways ensures RowOk(b, r, rows.lists, locs) || Skipped(lists0, es, r.id) {
      assert !Awaits(rows.lists, r.id, {});
    }
  }

  lemma GoneAreInDiff(es: seq<Event>)
    ensures GoneWays(es) <= DiffWays(es)
  {
  }

  /** The invariants behind pass 2, in terms of the database before the update. */
  lemma WaysAreRight(es: seq<Event>, p: Progress, b: Builder, ways0: seq<WayRow>, lists0: seq<NodeRow>,
                     ways1: seq<WayRow>, lists1: seq<NodeRow>, rows: Rows, locs: Locations)
    requires p == RELATION_PHASE <==> HasRelation(es)
    requires GoodDiff(es, ways0, lists0) && AfterPass1(ways0, lists0, ways1, lists1, GoneWays(es))
    requires Invariant(p, b, rows, locs, lists1, MovedNodes(es), {}, {})
    requires Preserved(p, b, rows, locs, ways1, lists1, MovedNodes(es), WayEntries(es))
    ensures WaysRight(es, b, ways0, lists0, rows.ways, rows.lists, locs)
  {
    hide RowOk, NodeList, ListOf, RowsOf, GoneWays, MovedNodes, DiffWays, WayEntries, Skipped, Refreshes, Renewed,
         GoodDiff, DiffRows, DiffList, Invariant, Names, Renew;
    GoneAreInDiff(es);
    LeftOver(es, p, b, lists0, lists1, rows, locs);
    forall w | w in WayEntries(es)
      ensures FromDiff(b, rows.ways, rows.lists, locs, w)
      ensures NodeList(rows.lists, w.id) == if w.deleted then [] else w.nodes
    {
      if !w.deleted { EntriesAreRestorable(es, ways0, lists0, w); }
      ListComesBack(rows.lists, w);
    }
    forall id | id !in DiffWays(es) ensures Outside(es, b, ways0, lists0, rows.ways, rows.lists, locs, id) {
      EntryNames(es, id);
      SameRenew(b, RowsOf(ways0, id), lists0, lists1, locs, id);
    }
    AllInOrderIff(es, b, ways0, lists0, rows.ways, rows.lists, locs);
  }

  lemma SameRenew(b: Builder, rows: seq<WayRow>, lists: seq<NodeRow>, lists': seq<NodeRow>, locs: Locations, id: int)
    requires ListOf(lists, id) == ListOf(lists', id)
    ensures Renew(b, rows, lists, locs, id) == Renew(b, rows, lists', locs, id)
  {
  }
}
