/** What the objects of a diff do to the member lists of the relations, and which relations become pending. */
module RelationRun {
  import opened DiffGeometry
  import opened DiffPass1
  import opened DiffPass2
  import opened DiffRun
  import opened DiffTables
  import opened MemberLists
  import opened Members
  import opened NodeLists
  import opened PendingWork
  import opened PgTables
  import opened Sorting
  import opened WayRun

  // ----- what is assumed of a diff

  /** Pass 1 deletes the rows of the relation. */
  predicate Gone(e: Event) { e.OfRelation? && (e.relation.version > 1 || e.relation.deleted) }

  function GoneRelations(es: seq<Event>): set<int> { set e | e in es && Gone(e) :: e.relation.id }

  /** Ways that are sent in pass 2. */
  function LiveWays(es: seq<Event>): set<int> { set e | e in es && e.OfWay? && !e.way.deleted :: e.way.id }

  /** No member list of this relation. */
  ghost predicate NoList(rows: seq<MemberRow>, id: int) { forall r :: r in rows ==> r.relation != id }

  ghost predicate NoLists(rel: Relations, id: int) {
    NoList(rel.nodes, id) && NoList(rel.ways, id) && NoList(rel.relations, id)
  }

  /** One entry for a relation, and a first version is not in the database yet. */
  ghost predicate GoodRelations(es: seq<Event>, rel0: Relations) {
    && (forall i, j :: 0 <= i < j < |es| && es[i].OfRelation? && es[j].OfRelation? ==>
          es[i].relation.id != es[j].relation.id)
    && (forall i :: 0 <= i < |es| && es[i].OfRelation? && !Gone(es[i]) ==>
          NoLists(rel0, es[i].relation.id))
  }

  // ----- pass 1

  /** What pass 1 leaves of a member table. */
  ghost predicate Kept(rows0: seq<MemberRow>, rows: seq<MemberRow>, gone: set<int>) {
    && (forall r :: r in rows <==> r in rows0 && r.relation !in gone)
    && (forall x :: x !in gone ==> Filter(rows, MemberOf(x)) == Filter(rows0, MemberOf(x)))
  }

  ghost predicate RelationsAfterPass1(rel0: Relations, rel: Relations, gone: set<int>) {
    Kept(rel0.nodes, rel.nodes, gone) && Kept(rel0.ways, rel.ways, gone) && Kept(rel0.relations, rel.relations, gone)
  }

  lemma KeptStep(rows0: seq<MemberRow>, rows: seq<MemberRow>, gone: set<int>, id: int)
    requires Kept(rows0, rows, gone)
    ensures Kept(rows0, Rest(rows, MemberOf(id)), gone + {id})
  {
    hide Filter, Rest;
    forall r ensures r in Rest(rows, MemberOf(id)) <==> r in rows && r.relation != id {
      RestMember(rows, MemberOf(id), r);
    }
    forall x | x !in gone + {id} ensures Filter(Rest(rows, MemberOf(id)), MemberOf(x)) == Filter(rows, MemberOf(x)) {
      FilterRest(rows, MemberOf(x), MemberOf(id));
    }
  }

  function WithoutLists(rel: Relations, id: int): Relations {
    Relations(Rest(rel.nodes, MemberOf(id)), Rest(rel.ways, MemberOf(id)), Rest(rel.relations, MemberOf(id)), [])
  }

  lemma RelationsGone(rel0: Relations, rel: Relations, gone: set<int>, id: int)
    requires RelationsAfterPass1(rel0, rel, gone)
    ensures RelationsAfterPass1(rel0, WithoutLists(rel, id), gone + {id})
  {
    hide Kept;
    KeptStep(rel0.nodes, rel.nodes, gone, id);
    KeptStep(rel0.ways, rel.ways, gone, id);
    KeptStep(rel0.relations, rel.relations, gone, id);
  }

  lemma GoneRelationsGrow(es: seq<Event>, i: nat)
    requires i < |es|
    ensures var e := es[i];
            GoneRelations(es[..i + 1]) ==
            if Gone(e) then GoneRelations(es[..i]) + {e.relation.id} else GoneRelations(es[..i])
  {
    assert es[..i + 1] == es[..i] + [es[i]];
    forall e ensures e in es[..i + 1] <==> e in es[..i] || e == es[i] {
    }
  }

  lemma SentGrow(es: seq<Event>, i: nat)
    requires i < |es|
    ensures var e := es[i];
            LiveWays(es[..i + 1]) ==
            if e.OfWay? && !e.way.deleted then LiveWays(es[..i]) + {e.way.id} else LiveWays(es[..i])
  {
    assert es[..i + 1] == es[..i] + [es[i]];
    forall e ensures e in es[..i + 1] <==> e in es[..i] || e == es[i] {
    }
  }

  lemma NoRelationGone(rel: Relations)
    ensures RelationsAfterPass1(rel, rel, GoneRelations([])) && LiveWays([]) == {}
  {
  }

  /** Behind pass 1 the tables have no list of a relation of the diff. */
  lemma NoListsOfDiff(es: seq<Event>, rel0: Relations, rel1: Relations, i: nat)
    requires GoodRelations(es, rel0) && RelationsAfterPass1(rel0, rel1, GoneRelations(es))
    requires i < |es| && es[i].OfRelation?
    ensures NoLists(rel1, es[i].relation.id)
  {
    hide Filter;
    if Gone(es[i]) {
      assert es[i] in es;
      assert es[i].relation.id in GoneRelations(es);
    }
  }

  // ----- pending relations

  ghost predicate HasMember(rows: seq<MemberRow>, member: int, relation: int) {
    exists r :: r in rows && r.member == member && r.relation == relation
  }

  /** One of these objects is a stored member of the relation. */
  ghost predicate Touches(rows: seq<MemberRow>, members: set<int>, relation: int) {
    exists m :: m in members && HasMember(rows, m, relation)
  }

  /** A member way has got a new geometry. */
  ghost predicate ByUpdate(b: Builder, lists: seq<NodeRow>, locs: Locations, rows: seq<MemberRow>, lists1: seq<NodeRow>,
                           moved: set<int>, relation: int)
  {
    exists w :: Refreshes(lists1, moved, w) && Builds(b, lists, locs, w) && HasMember(rows, w, relation)
  }

  lemma RelationsWithMember(rows: seq<MemberRow>, member: int, x: int)
    ensures x in RelationsWith(rows, member) <==> HasMember(rows, member, x)
  {
    var found := Filter(rows, MemberIs(member));
    if x in RelationsWith(rows, member) {
      var i :| 0 <= i < |found| && found[i].relation == x;
      FilterMember(rows, MemberIs(member), found[i]);
    }
    if HasMember(rows, member, x) {
      var r :| r in rows && r.member == member && r.relation == x;
      FilterMember(rows, MemberIs(member), r);
      var i :| 0 <= i < |found| && found[i] == r;
      assert RelationsWith(rows, member)[i] == x;
    }
  }

  lemma {:induction false} RelationsOfAllMember(b: Builder, lists: seq<NodeRow>, locs: Locations, rows: seq<MemberRow>,
                                                calls: seq<int>, x: int)
    ensures x in RelationsOfAll(b, lists, locs, rows, calls) <==>
            exists w :: w in calls && Builds(b, lists, locs, w) && HasMember(rows, w, x)
  {
    hide Builds, HasMember, RelationsWith;
    if calls != [] {
      var front, last := calls[..|calls| - 1], calls[|calls| - 1];
      RelationsOfAllMember(b, lists, locs, rows, front, x);
      RelationsWithMember(rows, last, x);
      assert calls == front + [last];
    }
  }

  /** The pending relations in every phase; `rel1` are the member lists behind pass 1, `came` the nodes and `sent` the
      ways that have come. */
  ghost predicate Gathered(p: Progress, b: Builder, lists: seq<NodeRow>, locs: Locations, rel: Relations,
                           rel1: Relations, lists1: seq<NodeRow>, came: set<int>, sent: set<int>)
  {
    if p == RELATION_PHASE then
      && StrictlyAscending(rel.pending)
      && forall x :: x in rel.pending <==>
           (Touches(rel1.nodes, came, x) || Touches(rel1.ways, sent, x)
            || ByUpdate(b, lists, locs, rel1.ways, lists1, came, x))
    else
      && rel == rel1.(pending := rel.pending)
      && forall x :: x in rel.pending <==> (Touches(rel1.nodes, came, x) || Touches(rel1.ways, sent, x))
  }

  /** The relations of one more object. */
  lemma TouchesMore(rows: seq<MemberRow>, members: set<int>, m: int)
    ensures forall x :: Touches(rows, members + {m}, x) <==> Touches(rows, members, x) || x in RelationsWith(rows, m)
  {
    hide HasMember, RelationsWith;
    forall x ensures Touches(rows, members + {m}, x) <==> Touches(rows, members, x) || x in RelationsWith(rows, m) {
      RelationsWithMember(rows, m, x);
      if Touches(rows, members, x) {
        var n :| n in members && HasMember(rows, n, x);
        assert n in members + {m};
      }
      if HasMember(rows, m, x) { assert m in members + {m}; }
    }
  }

  /** Who is in the list in which the first relation is searched. */
  lemma FirstRelation(p: Progress, b: Builder, before: Rows, locs: Locations, rel: Relations, rel1: Relations,
                      lists1: seq<NodeRow>, came: set<int>, sent: set<int>, left: set<int>, sorted: seq<int>,
                      calls: seq<int>, found: seq<int>)
    requires p != RELATION_PHASE && Gathered(p, b, before.lists, locs, rel, rel1, lists1, came, sent)
    requires Invariant(p, b, before, locs, lists1, came, {}, left)
    requires Sorted(p, before.pending, sorted) && Worklist(calls, sorted)
    requires Collected(p, b, before.lists, locs, rel, calls, found)
    ensures Gathered(RELATION_PHASE, b, before.lists, locs, rel.(pending := found), rel1, lists1, came, sent)
  {
    hide Touches, HasMember, Builds, Refreshes, Consistent, Worklist, RelationsOfAll;
    StepSorted(p, b, before, locs, lists1, came, left, sorted);
    forall w ensures w in calls <==> Refreshes(lists1, came, w) { CallsRefresh(sorted, lists1, came, calls, w); }
    forall x
      ensures x in RelationsOfAll(b, before.lists, locs, rel.ways, calls) <==>
              ByUpdate(b, before.lists, locs, rel1.ways, lists1, came, x)
    {
      RelationsOfAllMember(b, before.lists, locs, rel.ways, calls, x);
    }
  }

  lemma NothingGathered(b: Builder, lists: seq<NodeRow>, locs: Locations, rel: Relations, lists1: seq<NodeRow>)
    requires rel.pending == []
    ensures Gathered(POINT_PHASE, b, lists, locs, rel, rel, lists1, {}, {})
  {
  }

  /** A relation without member lists is not pending. */
  lemma NotPending(p: Progress, b: Builder, lists: seq<NodeRow>, locs: Locations, rel: Relations, rel1: Relations,
                   lists1: seq<NodeRow>, came: set<int>, sent: set<int>, id: int)
    requires Gathered(p, b, lists, locs, rel, rel1, lists1, came, sent) && NoLists(rel1, id)
    ensures id !in rel.pending
  {
    hide Refreshes, Builds;
  }

  /** One accepted object keeps what is known of the pending relations. */
  lemma GatheredKeeps(e: Event, p: Progress, b: Builder, before: Rows, after: Rows, locs: Locations, locs': Locations,
                      rel: Relations, rel': Relations, rel1: Relations, lists1: seq<NodeRow>, came: set<int>,
                      came': set<int>, sent: set<int>, sent': set<int>, coming: set<int>, left: set<int>,
                      sorted: seq<int>, calls: seq<int>, found: seq<int>)
    requires Accepted(p, e) && Effect(e, p, b, locs', before, after, sorted, calls)
    requires RelationEffect(e, p, b, after.lists, locs', rel, rel', calls, found)
    requires Invariant(p, b, before, locs, lists1, came, coming, left)
    requires Gathered(p, b, before.lists, locs, rel, rel1, lists1, came, sent)
    requires !e.OfNode? ==> coming == {}
    requires !(e.OfNode? && !e.node.deleted) ==> locs' == locs
    requires came' == if e.OfNode? && !e.node.deleted then came + {e.node.id} else came
    requires sent' == if e.OfWay? && !e.way.deleted then sent + {e.way.id} else sent
    requires e.OfRelation? ==> NoLists(rel1, e.relation.id)
    ensures Gathered(After(p, e), b, after.lists, locs', rel', rel1, lists1, came', sent')
  {
    hide Touches, HasMember, Builds, Refreshes, Consistent, Worklist, RelationsOfAll, RelationsWith, Invariant, WayRows,
         WaysAt, UpdatedAll, Located, Sorted, NoLists, Sent, StrictlyAscending, ByUpdate;
    match e
    case OfNode(n) =>
      TouchesMore(rel1.nodes, came, n.id);
    case OfArea(_) =>
    case OfWay(w) =>
      TouchesMore(rel1.ways, sent, w.id);
    case OfRelation(r) =>
      if p != RELATION_PHASE {
        FirstRelation(p, b, before, locs, rel, rel1, lists1, came, sent, left, sorted, calls, found);
      }
      NotPending(RELATION_PHASE, b, after.lists, locs, rel.(pending := found), rel1, lists1, came, sent, r.id);
  }

  // ----- member lists

  function SentBy(e: Event, kind: ItemType): seq<MemberRow> { if e.OfRelation? then Sent(e.relation, kind) else [] }

  function SentAll(es: seq<Event>, kind: ItemType): seq<MemberRow> {
    if es == [] then [] else SentAll(es[..|es| - 1], kind) + SentBy(es[|es| - 1], kind)
  }

  /** What the diff has sent stands behind what pass 1 left. */
  ghost predicate Appended(rel: Relations, rel1: Relations, es: seq<Event>) {
    && rel.nodes == rel1.nodes + SentAll(es, NODE) && rel.ways == rel1.ways + SentAll(es, WAY)
    && rel.relations == rel1.relations + SentAll(es, RELATION)
  }

  lemma NothingAppended(rel: Relations)
    ensures Appended(rel, rel, [])
  {
  }

  lemma AppendedKeeps(es: seq<Event>, i: nat, p: Progress, b: Builder, lists: seq<NodeRow>, locs: Locations,
                      rel: Relations, rel': Relations, rel1: Relations, calls: seq<int>, found: seq<int>)
    requires i < |es| && Appended(rel, rel1, es[..i])
    requires RelationEffect(es[i], p, b, lists, locs, rel, rel', calls, found)
    ensures Appended(rel', rel1, es[..i + 1])
  {
    hide Sent, Collected, RelationsWith;
    assert es[..i + 1][..i] == es[..i];
    AppendedTable(rel1.nodes, es, i, NODE);
    AppendedTable(rel1.ways, es, i, WAY);
    AppendedTable(rel1.relations, es, i, RELATION);
  }

  lemma AppendedTable(rows: seq<MemberRow>, es: seq<Event>, i: nat, kind: ItemType)
    requires i < |es|
    ensures rows + SentAll(es[..i + 1], kind) == rows + SentAll(es[..i], kind) + SentBy(es[i], kind)
    ensures !es[i].OfRelation? ==> SentAll(es[..i + 1], kind) == SentAll(es[..i], kind)
  {
    hide Sent;
    assert es[..i + 1][..i] == es[..i];
  }

  /** The rows of a list belong to its relation. */
  lemma ListIsOf(r: RelationE, kind: ItemType, id: int)
    ensures Filter(Sent(r, kind), MemberOf(id)) == if id == r.id then Sent(r, kind) else []
  {
    RowsAreOf(r.id, r.members, kind, Limit(r.members));
    FilterAll(Sent(r, kind), MemberOf(id));
  }

  lemma {:induction false} RowsAreOf(relation: int, members: seq<Member>, kind: ItemType, n: nat)
    requires n <= |members|
    ensures forall i :: 0 <= i < |MemberRows(relation, members, kind, n)| ==>
              MemberRows(relation, members, kind, n)[i].relation == relation
  {
    if n > 0 { RowsAreOf(relation, members, kind, n - 1); }
  }

  ghost predicate Mentions(es: seq<Event>, id: int) {
    exists i :: 0 <= i < |es| && es[i].OfRelation? && es[i].relation.id == id
  }

  lemma {:induction false} NothingSentFor(es: seq<Event>, kind: ItemType, id: int)
    requires !Mentions(es, id)
    ensures Filter(SentAll(es, kind), MemberOf(id)) == []
  {
    hide Sent, Filter;
    if es == [] {
      FilterAll(SentAll(es, kind), MemberOf(id));
    } else {
      var front, last := es[..|es| - 1], es[|es| - 1];
      assert forall i :: 0 <= i < |front| ==> front[i] == es[i];
      NothingSentFor(front, kind, id);
      FilterAppend(SentAll(front, kind), SentBy(last, kind), MemberOf(id));
      FilterAll(SentBy(last, kind), MemberOf(id));
      if last.OfRelation? { ListIsOf(last.relation, kind, id); }
    }
  }

  /** Of everything sent, only its own list belongs to a relation that comes once. */
  lemma {:induction false} SentFor(es: seq<Event>, kind: ItemType, i: nat)
    requires i < |es| && es[i].OfRelation?
    requires forall j, k :: 0 <= j < k < |es| && es[j].OfRelation? && es[k].OfRelation? ==>
               es[j].relation.id != es[k].relation.id
    ensures Filter(SentAll(es, kind), MemberOf(es[i].relation.id)) == Sent(es[i].relation, kind)
  {
    hide Sent, Filter;
    var id := es[i].relation.id;
    var front, last := es[..|es| - 1], es[|es| - 1];
    FilterAppend(SentAll(front, kind), SentBy(last, kind), MemberOf(id));
    assert forall j :: 0 <= j < |front| ==> front[j] == es[j];
    if i == |es| - 1 {
      NothingSentFor(front, kind, id);
      ListIsOf(last.relation, kind, id);
    } else {
      SentFor(front, kind, i);
      FilterAll(SentBy(last, kind), MemberOf(id));
      if last.OfRelation? { ListIsOf(last.relation, kind, id); }
    }
  }

  /** The member list of a relation in one table behind an update. */
  ghost predicate TableRight(es: seq<Event>, rows0: seq<MemberRow>, rows: seq<MemberRow>, kind: ItemType) {
    && (forall i :: 0 <= i < |es| && es[i].OfRelation? ==>
          Filter(rows, MemberOf(es[i].relation.id)) == Sent(es[i].relation, kind))
    && (forall id :: !Mentions(es, id) ==> Filter(rows, MemberOf(id)) == Filter(rows0, MemberOf(id)))
  }

  /** The relations of the diff have the member lists of the diff, the others those they had. */
  ghost predicate ListsRight(es: seq<Event>, rel0: Relations, rel: Relations) {
    && TableRight(es, rel0.nodes, rel.nodes, NODE) && TableRight(es, rel0.ways, rel.ways, WAY)
    && TableRight(es, rel0.relations, rel.relations, RELATION)
  }

  lemma TableIsRight(es: seq<Event>, rows0: seq<MemberRow>, rows1: seq<MemberRow>, kind: ItemType)
    requires forall i, j :: 0 <= i < j < |es| && es[i].OfRelation? && es[j].OfRelation? ==>
               es[i].relation.id != es[j].relation.id
    requires Kept(rows0, rows1, GoneRelations(es))
    requires forall i :: 0 <= i < |es| && es[i].OfRelation? ==> NoList(rows1, es[i].relation.id)
    ensures TableRight(es, rows0, rows1 + SentAll(es, kind), kind)
  {
    hide Sent, Filter, SentAll;
    forall i | 0 <= i < |es| && es[i].OfRelation?
      ensures Filter(rows1 + SentAll(es, kind), MemberOf(es[i].relation.id)) == Sent(es[i].relation, kind)
    {
      FilterAppend(rows1, SentAll(es, kind), MemberOf(es[i].relation.id));
      FilterAll(rows1, MemberOf(es[i].relation.id));
      SentFor(es, kind, i);
    }
    forall id | !Mentions(es, id)
      ensures Filter(rows1 + SentAll(es, kind), MemberOf(id)) == Filter(rows0, MemberOf(id))
    {
      FilterAppend(rows1, SentAll(es, kind), MemberOf(id));
      NothingSentFor(es, kind, id);
      NotGone(es, id);
    }
  }

  lemma NotGone(es: seq<Event>, id: int)
    ensures id in GoneRelations(es) ==> Mentions(es, id)
  {
    if id in GoneRelations(es) {
      var e :| e in es && Gone(e) && e.relation.id == id;
      var i :| 0 <= i < |es| && es[i] == e;
      assert es[i].OfRelation?;
    }
  }

  lemma ListsAreRight(es: seq<Event>, rel0: Relations, rel1: Relations, rel: Relations)
    requires GoodRelations(es, rel0) && RelationsAfterPass1(rel0, rel1, GoneRelations(es)) && Appended(rel, rel1, es)
    ensures ListsRight(es, rel0, rel)
  {
    hide Kept, TableRight, SentAll, NoList, GoneRelations;
    forall i | 0 <= i < |es| && es[i].OfRelation? ensures NoLists(rel1, es[i].relation.id) {
      NoListsOfDiff(es, rel0, rel1, i);
    }
    TableIsRight(es, rel0.nodes, rel1.nodes, NODE);
    TableIsRight(es, rel0.ways, rel1.ways, WAY);
    TableIsRight(es, rel0.relations, rel1.relations, RELATION);
  }

  /** From the diff to the database and back: whatever `MembersOf` makes of the tables behind an update is the member
      list of the diff, in ids and types, exactly if that list survives. */
  lemma MembersOfDiffComeBack(es: seq<Event>, rel0: Relations, rel: Relations, i: nat, found: seq<Placed>)
    requires ListsRight(es, rel0, rel) && i < |es| && es[i].OfRelation? && !es[i].relation.deleted
    requires var id := es[i].relation.id;
             IsSortOf(found, Places(Filter(rel.nodes, MemberOf(id)), NODE) + Places(Filter(rel.ways, MemberOf(id)), WAY)
                             + Places(Filter(rel.relations, MemberOf(id)), RELATION), PlacedPos)
    ensures SameMembers(found, es[i].relation.members) <==> Survives(es[i].relation.members)
  {
    hide Filter, ListRows, Places, IsSortOf, SameMembers, Survives;
    var r := es[i].relation;
    MembersComeBackIff(r.id, r.members, Places(ListRows(r.id, r.members, NODE), NODE),
                       Places(ListRows(r.id, r.members, WAY), WAY),
                       Places(ListRows(r.id, r.members, RELATION), RELATION), found);
  }

  // ----- the calls for the pending relations

  /** The diff concerns a surviving relation: a stored member node gets a location, a stored member way is sent again,
      or a stored member way gets a new geometry that can be built. */
  ghost predicate Concerned(es: seq<Event>, rel0: Relations, lists0: seq<NodeRow>, b: Builder, lists: seq<NodeRow>,
                            locs: Locations, relation: int)
  {
    && relation !in GoneRelations(es)
    && (Touches(rel0.nodes, MovedNodes(es), relation) || Touches(rel0.ways, LiveWays(es), relation)
        || exists w :: Renewed(lists0, es, w) && Builds(b, lists, locs, w) && HasMember(rel0.ways, w, relation))
  }

  lemma KeptMembers(rows0: seq<MemberRow>, rows1: seq<MemberRow>, gone: set<int>, m: int, x: int)
    requires Kept(rows0, rows1, gone)
    ensures HasMember(rows1, m, x) <==> x !in gone && HasMember(rows0, m, x)
  {
    hide Filter;
  }

  lemma KeptTouches(rows0: seq<MemberRow>, rows1: seq<MemberRow>, gone: set<int>, ms: set<int>, x: int)
    requires Kept(rows0, rows1, gone)
    ensures Touches(rows1, ms, x) <==> x !in gone && Touches(rows0, ms, x)
  {
    hide HasMember, Kept;
    forall m ensures HasMember(rows1, m, x) <==> x !in gone && HasMember(rows0, m, x) {
      KeptMembers(rows0, rows1, gone, m, x);
    }
  }

  /** The pending relations behind pass 2, in terms of the database before the update. */
  lemma PendingIsConcerned(es: seq<Event>, rel0: Relations, rel1: Relations, rel: Relations, ways0: seq<WayRow>,
                           lists0: seq<NodeRow>, ways1: seq<WayRow>, lists1: seq<NodeRow>, b: Builder,
                           lists: seq<NodeRow>, locs: Locations, x: int)
    requires AfterPass1(ways0, lists0, ways1, lists1, GoneWays(es))
    requires RelationsAfterPass1(rel0, rel1, GoneRelations(es))
    requires HasRelation(es)
    requires Gathered(RELATION_PHASE, b, lists, locs, rel, rel1, lists1, MovedNodes(es), LiveWays(es))
    ensures x in rel.pending <==> Concerned(es, rel0, lists0, b, lists, locs, x)
  {
    hide HasMember, Kept, Touches, Builds, Renewed, Skipped, Refreshes, Excused, StrictlyAscending, GoneRelations,
         GoneWays, MovedNodes, LiveWays, NodeList;
    var gone := GoneRelations(es);
    KeptTouches(rel0.nodes, rel1.nodes, gone, MovedNodes(es), x);
    KeptTouches(rel0.ways, rel1.ways, gone, LiveWays(es), x);
    forall w
      ensures Refreshes(lists1, MovedNodes(es), w) <==> Renewed(lists0, es, w)
      ensures HasMember(rel1.ways, w, x) <==> x !in gone && HasMember(rel0.ways, w, x)
    {
      SkippedBefore(lists0, lists1, es, w);
      KeptMembers(rel0.ways, rel1.ways, gone, w, x);
    }
  }

  /** Exactly the relations with a positive id that the diff concerns are called, except the smallest one. */
  ghost predicate CallsRight(es: seq<Event>, rel0: Relations, lists0: seq<NodeRow>, b: Builder, lists: seq<NodeRow>,
                             locs: Locations, calls: seq<int>)
  {
    && StrictlyAscending(calls)
    && forall x :: x in calls <==>
         (Concerned(es, rel0, lists0, b, lists, locs, x)
          && exists y :: 0 < y < x && Concerned(es, rel0, lists0, b, lists, locs, y))
  }

  lemma CallsAreRight(es: seq<Event>, rel0: Relations, rel1: Relations, rel: Relations, ways0: seq<WayRow>,
                      lists0: seq<NodeRow>, ways1: seq<WayRow>, lists1: seq<NodeRow>, b: Builder,
                      lists: seq<NodeRow>, locs: Locations, calls: seq<int>)
    requires AfterPass1(ways0, lists0, ways1, lists1, GoneWays(es))
    requires RelationsAfterPass1(rel0, rel1, GoneRelations(es))
    requires HasRelation(es)
    requires Gathered(RELATION_PHASE, b, lists, locs, rel, rel1, lists1, MovedNodes(es), LiveWays(es))
    requires Worklist(calls, rel.pending)
    ensures CallsRight(es, rel0, lists0, b, lists, locs, calls)
  {
    hide Concerned, AfterPass1, RelationsAfterPass1, SteppedOver;
    forall x ensures x in rel.pending <==> Concerned(es, rel0, lists0, b, lists, locs, x) {
      PendingIsConcerned(es, rel0, rel1, rel, ways0, lists0, ways1, lists1, b, lists, locs, x);
    }
    forall x
      ensures x in calls <==> x in rel.pending && exists y :: 0 < y < x && y in rel.pending
    {
      NotSmallest(rel.pending, x);
    }
  }

  lemma NotSmallest(pending: seq<int>, x: int)
    requires StrictlyAscending(pending)
    ensures x in pending && x > 0 && !SteppedOver(pending, x) <==> x in pending && exists y :: 0 < y < x && y in pending
  {
    if x in pending && x > 0 && !SteppedOver(pending, x) {
      if forall y :: y in pending && y > 0 ==> x <= y { UniqueLosesSmallest(pending, x); }
      var y :| y in pending && 0 < y < x;
    }
  }
}
