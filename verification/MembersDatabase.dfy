/** The member index (contrib/libosmium_patched/include/osmium_patched/relations/members_database.hpp)
    with the object stash and the relations database it works on. An object of the OSM file is
    represented by its id. */
module MembersDatabase {
  import opened MemberElements
  import opened Wrappers

  /** The stash of libosmium, reduced to its contract: every added item gets a handle never used before. */
  class ItemStash {
    var items: map<nat, int>
    var next: nat

    ghost predicate Valid() reads this { forall s :: s in items ==> s < next }

    constructor ()
      ensures Valid() && items == map[] && next == 0
    {
      items, next := map[], 0;
    }

    method AddItem(objectId: int) returns (h: Handle)
      requires Valid()
      modifies this
      ensures Valid() && next == old(next) + 1
      ensures h == Slot(old(next)) && items == old(items)[old(next) := objectId]
    {
      h := Slot(next);
      items := items[next := objectId];
      next := next + 1;
    }

    method RemoveItem(h: Handle)
      requires Valid() && h.Slot? && h.slot in items
      modifies this
      ensures Valid() && next == old(next)
      ensures items == old(items) - {h.slot}
    {
      items := items - {h.slot};
    }
  }

  /** The relations database of libosmium: per relation a counter of missing members.
      `fired` records the completion callbacks, `tracked` the number of members ever tracked. */
  class RelationsDatabase {
    var rels: seq<Rel>
    ghost var tracked: seq<nat>
    var fired: seq<nat>

    /** Exactly once: a relation has been completed iff members were tracked and none is missing. */
    ghost predicate Valid()
      reads this
    {
      && |tracked| == |rels|
      && (forall r :: 0 <= r < |rels| ==>
            0 <= rels[r].needed <= tracked[r]
            && multiset(fired)[r] == (if tracked[r] > 0 && rels[r].needed == 0 then 1 else 0))
      && (forall r :: r in fired ==> r < |rels|)
    }

    ghost predicate UniqueIds()
      reads this
    {
      forall q, r :: 0 <= q < r < |rels| ==> rels[q].id != rels[r].id
    }

    constructor ()
      ensures Valid() && UniqueIds() && rels == [] && fired == []
    {
      rels, tracked, fired := [], [], [];
    }

    /** A member of relation r is tracked. */
    method IncrementMembers(r: nat)
      requires Valid() && r < |rels| && r !in fired
      modifies this
      ensures Valid() && fired == old(fired)
      ensures rels == old(rels)[r := old(rels)[r].(needed := old(rels)[r].needed + 1)]
      ensures tracked == old(tracked)[r := old(tracked)[r] + 1]
    {
      rels := rels[r := rels[r].(needed := rels[r].needed + 1)];
      tracked := tracked[r := tracked[r] + 1];
    }

    /** A member of relation r has come; if it was the last one, the completion callback is called. */
    method DecrementMembers(r: nat) returns (hasAllMembers: bool)
      requires Valid() && r < |rels| && rels[r].needed > 0
      modifies this
      ensures Valid() && tracked == old(tracked)
      ensures rels == old(rels)[r := old(rels)[r].(needed := old(rels)[r].needed - 1)]
      ensures hasAllMembers <==> rels[r].needed == 0
      ensures fired == old(fired) + if hasAllMembers then [r] else []
    {
      rels := rels[r := rels[r].(needed := rels[r].needed - 1)];
      hasAllMembers := rels[r].needed == 0;
      if hasAllMembers {
        fired := fired + [r];
      }
    }

    /** Store a relation; its handle is its position. */
    method Add(id: int, size: nat) returns (pos: nat)
      requires Valid()
      modifies this
      ensures Valid() && pos == |old(rels)| && fired == old(fired)
      ensures rels == old(rels) + [Rel(id, size, 0)] && tracked == old(tracked) + [0]
    {
      pos := |rels|;
      assert pos !in fired;
      rels, tracked := rels + [Rel(id, size, 0)], tracked + [0];
    }
  }

  /** First position whose element is not below the id (std::lower_bound). */
  method LowerBound(es: seq<Element>, id: int) returns (lo: nat)
    requires SortedById(es)
    ensures lo <= |es|
    ensures forall k :: 0 <= k < lo ==> es[k].memberId < id
    ensures forall k :: lo <= k < |es| ==> id <= es[k].memberId
  {
    lo := 0;
    var hi := |es|;
    while lo < hi
      invariant 0 <= lo <= hi <= |es|
      invariant forall k :: 0 <= k < lo ==> es[k].memberId < id
      invariant forall k :: hi <= k < |es| ==> id <= es[k].memberId
    {
      var mid := (lo + hi) / 2;
      if es[mid].memberId < id {
        lo := mid + 1;
      } else {
        hi := mid;
      }
    }
  }

  /** First position whose element is above the id (std::upper_bound). */
  method UpperBound(es: seq<Element>, id: int) returns (up: nat)
    requires SortedById(es)
    ensures up <= |es|
    ensures forall k :: 0 <= k < up ==> es[k].memberId <= id
    ensures forall k :: up <= k < |es| ==> id < es[k].memberId
  {
    up := 0;
    var hi := |es|;
    while up < hi
      invariant 0 <= up <= hi <= |es|
      invariant forall k :: 0 <= k < up ==> es[k].memberId <= id
      invariant forall k :: hi <= k < |es| ==> id < es[k].memberId
    {
      var mid := (up + hi) / 2;
      if es[mid].memberId <= id {
        up := mid + 1;
      } else {
        hi := mid;
      }
    }
  }

  /** The binary search finds exactly what the linear scan finds, in the same order; it needs the
      elements sorted by id only, so removal marks, which break the triple order, do no harm. */
  method Find(es: seq<Element>, id: int) returns (lo: nat, hi: nat)
    requires SortedById(es)
    ensures lo <= hi <= |es|
    ensures forall k :: 0 <= k < |es| ==> (lo <= k < hi <==> es[k].memberId == id)
    ensures es[lo..hi] == Only(es, id)
  {
    lo := LowerBound(es, id);
    hi := UpperBound(es, id);
    assert hi < |es| ==> id < es[hi].memberId;
    OnlyIsRange(es, lo, hi, id);
  }

  /** Sorting by triples sorts by id. */
  lemma SortedIsSortedById(es: seq<Element>)
    requires Sorted(es)
    ensures SortedById(es)
  {
  }

  /** What the re-entrant callback removes: for each relation a list of member ids. The removals
      must be removals of tracked members, each at most as often as it occurs in the relation. */
  ghost predicate PurgesTracked(purge: nat -> seq<int>, es: seq<Element>) {
    forall r, id :: multiset(purge(r))[id] <= EntriesFor(es, id, r)
  }

  class MembersDatabase {
    var elements: seq<Element>
    var initPhase: bool
    const stash: ItemStash
    const relations: RelationsDatabase
    /** Missing members of each relation that belong to the other two member databases. */
    ghost var others: seq<nat>

    ghost predicate Wellformed()
      reads this, stash, relations
    {
      && stash.Valid() && relations.Valid() && relations.UniqueIds()
      && |others| == |relations.rels|
      && InRange(elements, relations.rels)
    }

    /** The tracking phase: nothing found yet, the counters count the entries. */
    ghost predicate Tracking()
      reads this, stash, relations
    {
      && Wellformed() && initPhase
      && (forall k :: 0 <= k < |elements| ==> elements[k].handle.Invalid? && !elements[k].IsRemoved())
      && CountersOk(elements, relations.rels, others, [])
    }

    /** The lookup phase while an object is being told to the entries `untold`. */
    ghost predicate Telling(untold: seq<Element>)
      reads this, stash, relations
    {
      && Wellformed() && !initPhase && SortedById(elements)
      && CountersOk(elements, relations.rels, others, untold)
      && HandlesOk(elements, stash.items, stash.next)
      && RemovedOk(elements, relations.fired)
    }

    /** The lookup phase between two calls. */
    ghost predicate Valid()
      reads this, stash, relations
    {
      Telling([])
    }

    constructor (stash: ItemStash, relations: RelationsDatabase, ghost others: seq<nat>)
      requires stash.Valid() && relations.Valid() && relations.UniqueIds()
      requires |others| == |relations.rels|
      requires forall r :: 0 <= r < |others| ==> others[r] == relations.rels[r].needed
      ensures this.stash == stash && this.relations == relations && this.others == others
      ensures elements == [] && Tracking()
    {
      elements, initPhase := [], true;
      this.stash, this.relations, this.others := stash, relations, others;
    }

    method Track(r: nat, memberId: int, memberNum: nat)
      requires Tracking() && r < |relations.rels|
      requires memberNum < relations.rels[r].size < REMOVED_VALUE
      requires r !in relations.fired
      modifies this`elements, relations
      ensures Tracking() && relations.fired == old(relations.fired)
      ensures elements == old(elements) + [Element(memberId, memberNum, r, Invalid)]
      ensures |relations.rels| == |old(relations.rels)|
      ensures forall q :: 0 <= q < |relations.rels| ==>
                && relations.rels[q].id == old(relations.rels)[q].id
                && relations.rels[q].size == old(relations.rels)[q].size
      ensures relations.tracked == old(relations.tracked)[r := old(relations.tracked)[r] + 1]
    {
      ghost var before := elements;
      var e := Element(memberId, memberNum, r, Invalid);
      elements := elements + [e];
      relations.IncrementMembers(r);
      forall q | 0 <= q < |relations.rels|
        ensures relations.rels[q].needed == others[q] + Missing(elements, q)
      {
        CountsAppend(before, [e], memberId, q);
      }
    }

    /** Sort the elements; from now on they can be looked up. */
    method PrepareForLookup()
      requires Tracking()
      modifies this`elements, this`initPhase
      ensures Valid() && Sorted(elements)
      ensures multiset(elements) == multiset(old(elements))
      ensures forall id, r :: EntriesFor(elements, id, r) == EntriesFor(old(elements), id, r)
      ensures forall k :: 0 <= k < |elements| ==> elements[k].handle.Invalid?
    {
      hide CountersOk, HandlesOk, RemovedOk, EntriesFor, Sort;
      SortSorts(elements);
      SortedStart(elements, relations.rels, others, relations.fired, stash.items, stash.next);
      elements := Sort(elements);
      initPhase := false;
    }

    /** `count_not_removed` on the range of an id. */
    method CountNotRemoved(lo: nat, hi: nat, ghost id: int) returns (n: nat)
      requires lo <= hi <= |elements|
      requires forall k :: 0 <= k < |elements| ==> (lo <= k < hi <==> elements[k].memberId == id)
      ensures n == Kept(elements, id)
    {
      n := 0;
      for k := lo to hi
        invariant n == Kept(elements[lo..k], id)
      {
        assert elements[lo..k + 1] == elements[lo..k] + [elements[k]];
        CountsAppend(elements[lo..k], [elements[k]], id, 0);
        if !elements[k].IsRemoved() {
          n := n + 1;
        }
      }
      OnlyIsRange(elements, lo, hi, id);
      KeptOfOnly(elements, id);
    }

    /** Remove the entry of a member in a relation; free the object if it was the last kept one. */
    method Remove(memberId: int, relationId: int)
      requires Wellformed() && SortedById(elements) && HandlesOk(elements, stash.items, stash.next)
      requires Kept(elements, memberId) == 1 ==>
                 forall k :: 0 <= k < |elements| && elements[k].memberId == memberId ==> elements[k].handle.Slot?
      modifies this`elements, stash
      ensures elements == MarkFirst(old(elements), relations.rels, memberId, relationId)
      ensures stash.Valid() && stash.next == old(stash.next)
      ensures !Frees(old(elements), memberId) ==> stash.items == old(stash.items)
      ensures Frees(old(elements), memberId) ==>
                exists k :: 0 <= k < |old(elements)|
                  && old(elements)[k].memberId == memberId && old(elements)[k].handle.Slot?
                  && stash.items == old(stash.items) - {old(elements)[k].handle.slot}
    {
      var lo, hi := Find(elements, memberId);
      ghost var k := MarkFirstShape(elements, relations.rels, memberId, relationId);
      NoneKept(elements, memberId);
      if lo == hi {
        return;
      }
      var n := CountNotRemoved(lo, hi, memberId);
      if n == 1 {
        stash.RemoveItem(elements[lo].handle);
      }
      for i := lo to hi
        modifies this`elements
        invariant elements == old(elements)
        invariant forall j :: lo <= j < i ==> !Matches(elements[j], relations.rels, memberId, relationId)
      {
        if !elements[i].IsRemoved() && relationId == relations.rels[elements[i].relationPos].id {
          elements := elements[i := elements[i].(memberNum := REMOVED_VALUE)];
          break;
        }
      }
    }

    /** The callback for a completed relation: it removes the given members of that relation. */
    method CompleteRelation(r: nat, ids: seq<int>, ghost untold: seq<Element>)
      requires Telling(untold) && r < |relations.rels| && r in relations.fired && Missing(elements, r) == 0
      requires forall id :: KeptFor(elements, id, r) == EntriesFor(elements, id, r)
      requires forall id :: multiset(ids)[id] <= EntriesFor(elements, id, r)
      modifies this`elements, stash
      ensures Telling(untold) && SameButMarks(old(elements), elements)
      ensures forall id :: KeptFor(elements, id, r) == EntriesFor(old(elements), id, r) - multiset(ids)[id]
      ensures forall id, q: nat :: q != r ==> KeptFor(elements, id, q) == KeptFor(old(elements), id, q)
    {
      for j := 0 to |ids|
        invariant Telling(untold) && SameButMarks(old(elements), elements) && Missing(elements, r) == 0
        invariant forall id :: KeptFor(elements, id, r) == EntriesFor(old(elements), id, r) - multiset(ids[..j])[id]
        invariant forall id, q: nat :: q != r ==> KeptFor(elements, id, q) == KeptFor(old(elements), id, q)
      {
        assert ids[..j + 1] == ids[..j] + [ids[j]];
        assert ids == ids[..j + 1] + ids[j + 1..];
        RemoveMember(r, ids[j], untold);
      }
      assert ids[..|ids|] == ids;
    }

    /** Remove a kept member of a completed relation. */
    method RemoveMember(r: nat, id: int, ghost untold: seq<Element>)
      requires Telling(untold) && r < |relations.rels| && r in relations.fired && Missing(elements, r) == 0
      requires KeptFor(elements, id, r) > 0
      modifies this`elements, stash
      ensures Telling(untold) && SameButMarks(old(elements), elements) && Missing(elements, r) == 0
      ensures forall i, q: nat ::
                KeptFor(elements, i, q) == KeptFor(old(elements), i, q) - if i == id && q == r then 1 else 0
    {
      ghost var before, items := elements, stash.items;
      ghost var w := KeptForWitness(elements, id, r);
      NoneMissing(elements, r);
      ghost var k := MarkFirstShape(elements, relations.rels, id, relations.rels[r].id);
      assert elements[k].relationPos == r;
      assert elements[k].handle.Slot?;
      Remove(id, relations.rels[r].id);
      RemovalStep(before, relations.rels, items, stash.items, stash.next, id, r, k);
      MarkedState(before, elements, k, relations.rels, others, untold, relations.fired);
      forall i, q: nat
        ensures KeptFor(elements, i, q) == KeptFor(before, i, q) - if i == id && q == r then 1 else 0
      {
        MarkCounts(before, k, i, q);
      }
    }

    static lemma RemovalStep(es: seq<Element>, rels: seq<Rel>, items: map<nat, int>, left: map<nat, int>, next: nat,
                             id: int, r: nat, k: nat)
      requires HandlesOk(es, items, next) && k < |es| && r < |rels| && Matches(es[k], rels, id, rels[r].id)
      requires es[k].handle.Slot?
      requires !Frees(es, id) ==> left == items
      requires Frees(es, id) ==> exists j :: 0 <= j < |es| && es[j].memberId == id && es[j].handle.Slot?
                                     && left == items - {es[j].handle.slot}
      ensures HandlesOk(es[k := es[k].(memberNum := REMOVED_VALUE)], left, next)
    {
      RemovalKeepsHandles(es, items, next, k);
    }

    /** Store the object and give its handle to every entry of the id. */
    method AddObject(objectId: int, lo: nat, hi: nat)
      requires stash.Valid() && lo <= hi <= |elements|
      requires forall k :: 0 <= k < |elements| ==> (lo <= k < hi <==> elements[k].memberId == objectId)
      modifies this`elements, stash
      ensures stash.Valid() && stash.next == old(stash.next) + 1
      ensures stash.items == old(stash.items)[old(stash.next) := objectId]
      ensures Handed(old(elements), elements, objectId, Slot(old(stash.next)))
    {
      var handle := stash.AddItem(objectId);
      for i := lo to hi
        modifies this`elements
        invariant |elements| == |old(elements)|
        invariant forall k :: 0 <= k < |elements| ==>
                    elements[k] == if lo <= k < i then old(elements)[k].(handle := handle) else old(elements)[k]
      {
        elements := elements[i := elements[i].(handle := handle)];
      }
    }

    /** Add an object. Every relation that tracks it is told; those for which it was the last
        missing member are completed, and the callback may remove their members at once. */
    method Add(objectId: int, purge: nat -> seq<int>) returns (added: bool)
      requires Valid() && PurgesTracked(purge, elements)
      requires forall k :: 0 <= k < |elements| && elements[k].memberId == objectId ==> elements[k].handle.Invalid?
      modifies this`elements, stash, relations
      ensures Valid() && PurgesTracked(purge, elements)
      ensures added <==> exists k :: 0 <= k < |old(elements)| && old(elements)[k].memberId == objectId
      ensures SameButMarksAndHandle(old(elements), elements, objectId)
      ensures relations.tracked == old(relations.tracked)
      ensures |relations.rels| == |old(relations.rels)|
      ensures old(relations.fired) <= relations.fired
      ensures Purged(old(elements), elements, old(relations.fired), relations.fired, purge)
    {
      hide Purged;
      NothingPurged(elements, relations.fired, purge);
      var lo, hi := Find(elements, objectId);
      if lo == hi {
        return false;
      }
      StoreObject(objectId, lo, hi);
      ghost var es1 := elements;
      assert PurgesTracked(purge, elements);
      hide PurgesTracked;
      TellAll(objectId, lo, hi, purge);
      HandedThenMarked(old(elements), es1, elements, objectId, Slot(old(stash.next)));
      PurgedFrom(old(elements), es1, elements, old(relations.fired), relations.fired, purge);
      added := true;
    }

    /** Tell the relations of all entries of the range. */
    method TellAll(objectId: int, lo: nat, hi: nat, purge: nat -> seq<int>)
      requires lo <= hi <= |elements| && Telling(elements[lo..hi]) && PurgesTracked(purge, elements)
      requires forall k :: lo <= k < hi ==> elements[k].memberId == objectId
      modifies this`elements, stash, relations
      ensures SameButMarks(old(elements), elements) && Valid() && PurgesTracked(purge, elements)
      ensures relations.tracked == old(relations.tracked) && |relations.rels| == |old(relations.rels)|
      ensures old(relations.fired) <= relations.fired
      ensures Purged(old(elements), elements, old(relations.fired), relations.fired, purge)
    {
      hide Telling, PurgesTracked, Purged;
      NothingPurged(elements, relations.fired, purge);
      for i := lo to hi
        invariant SameButMarks(old(elements), elements)
        invariant Telling(elements[i..hi])
        invariant PurgesTracked(purge, elements)
        invariant relations.tracked == old(relations.tracked) && |relations.rels| == |old(relations.rels)|
        invariant old(relations.fired) <= relations.fired
        invariant Purged(old(elements), elements, old(relations.fired), relations.fired, purge)
      {
        ghost var before, fired := elements, relations.fired;
        Tell(objectId, i, hi, purge);
        PurgedTwice(old(elements), before, elements, old(relations.fired), fired, relations.fired, purge);
      }
      assert elements[hi..hi] == [];
    }

    /** The object with the given id. Err is where the program reads a freed item: the object came, and then all
        its entries were removed. */
    method GetObject(id: int) returns (r: Result<Option<int>>)
      requires Valid()
      ensures var came := exists k :: 0 <= k < |elements| && elements[k].memberId == id && elements[k].handle.Slot?;
              && (r.Err? <==> came && Kept(elements, id) == 0)
              && (r.Ok? ==> r.value == if came then Some(id) else None)
    {
      var lo, hi := Find(elements, id);
      if lo == hi {
        return Ok(None);
      }
      var h := elements[lo].handle;
      if h.Slot? {
        return if h.slot in stash.items then Ok(Some(stash.items[h.slot])) else Err("freed item");
      }
      return Ok(None);
    }

    /** How many entries are waiting, found and removed. */
    method Count() returns (waiting: nat, available: nat, removed: nat)
      requires Valid()
      ensures waiting + available + removed == |elements|
      ensures removed == |elements| - Remaining(elements)
      ensures waiting == Waiting(elements)
    {
      waiting, available, removed := 0, 0, 0;
      for k := 0 to |elements|
        invariant waiting + available + removed == k
        invariant waiting + Waiting(elements[k..]) == Waiting(elements)
        invariant k - removed + Remaining(elements[k..]) == Remaining(elements)
      {
        assert elements[k..][1..] == elements[k + 1..];
        if elements[k].IsRemoved() {
          removed := removed + 1;
        } else if elements[k].handle.Slot? {
          available := available + 1;
        } else {
          waiting := waiting + 1;
        }
      }
    }

    /** The relation whose tags apply to a member: the one in which it comes first
        (src/associated_street_relation_manager.cpp). Before any removal the elements are sorted
        by triples, and the first entry of the range is the minimum. */
    method GetRelationTags(id: int) returns (r: Option<nat>)
      requires Sorted(elements)
      ensures r == None <==> forall k :: 0 <= k < |elements| ==> elements[k].memberId != id
      ensures r.Some? ==>
                exists k :: 0 <= k < |elements| && elements[k].relationPos == r.value && IsFirst(elements, k, id)
    {
      SortedIsSortedById(elements);
      var lo, hi := Find(elements, id);
      if lo == hi {
        return None;
      }
      assert IsFirst(elements, lo, id);
      return Some(elements[lo].relationPos);
    }

    /** Store the object of a nonempty range; all entries of the range are still to be told. */
    method StoreObject(objectId: int, lo: nat, hi: nat)
      requires Valid() && lo < hi <= |elements|
      requires forall k :: 0 <= k < |elements| ==> (lo <= k < hi <==> elements[k].memberId == objectId)
      requires forall k :: lo <= k < hi ==> elements[k].handle.Invalid?
      modifies this`elements, stash
      ensures |elements| == |old(elements)| && Telling(elements[lo..hi])
      ensures forall i, r :: EntriesFor(elements, i, r) == EntriesFor(old(elements), i, r)
      ensures forall i, r: nat :: KeptFor(elements, i, r) == KeptFor(old(elements), i, r)
      ensures Handed(old(elements), elements, objectId, Slot(old(stash.next)))
    {
      AddObject(objectId, lo, hi);
      AddedStart(old(elements), elements, old(stash.items), old(stash.next), relations.rels, others, relations.fired,
                 objectId, lo, hi);
      forall i, r: nat ensures KeptFor(elements, i, r) == KeptFor(old(elements), i, r) {
        HandedCounts(old(elements), elements, objectId, Slot(old(stash.next)), i, r);
      }
    }

    /** Tell the relation of entry i that its member has come. */
    method Tell(objectId: int, i: nat, hi: nat, purge: nat -> seq<int>)
      requires i < hi <= |elements| && Telling(elements[i..hi]) && PurgesTracked(purge, elements)
      requires elements[i].memberId == objectId
      modifies this`elements, stash, relations
      ensures SameButMarks(old(elements), elements) && Telling(elements[i + 1..hi]) && PurgesTracked(purge, elements)
      ensures relations.tracked == old(relations.tracked) && |relations.rels| == |old(relations.rels)|
      ensures old(relations.fired) <= relations.fired
      ensures Purged(old(elements), elements, old(relations.fired), relations.fired, purge)
    {
      hide PurgesTracked, Purged, HandlesOk, SortedById;
      var r := elements[i].relationPos;
      assert elements[i..hi][0] == elements[i];
      // the asserts of the program
      NotRemoved(i, hi);
      assert !elements[i].IsRemoved();
      assert elements[i].memberId == objectId;
      assert elements[i].memberNum < relations.rels[r].size;
      hide Telling;
      var complete := Decrement(i, hi);
      if complete {
        assert relations.fired[..|relations.fired| - 1] == old(relations.fired);
        Call(r, i, hi, purge);
      } else {
        assert relations.fired == old(relations.fired);
        NothingPurged(elements, relations.fired, purge);
      }
    }

    /** The relation of an entry that is still to be told misses a member, so none of its entries is removed. */
    lemma NotRemoved(i: nat, hi: nat)
      requires i < hi <= |elements| && Telling(elements[i..hi])
      ensures var r := elements[i].relationPos;
              && r < |relations.rels| && relations.rels[r].needed > 0 && r !in relations.fired
              && forall k :: 0 <= k < |elements| && elements[k].relationPos == r ==> !elements[k].IsRemoved()
    {
      hide HandlesOk, SortedById;
      var r := elements[i].relationPos;
      assert elements[i..hi] == [elements[i]] + elements[i + 1..hi];
      CountsAppend([elements[i]], elements[i + 1..hi], 0, r);
      assert multiset(relations.fired)[r] == 0;
    }

    /** The counter of the relation of entry i. */
    method Decrement(i: nat, hi: nat) returns (complete: bool)
      requires i < hi <= |elements| && Telling(elements[i..hi])
      modifies relations
      ensures var r := elements[i].relationPos;
              && r < |relations.rels| && r !in old(relations.fired)
              && relations.fired == old(relations.fired) + (if complete then [r] else [])
              && (complete ==> relations.rels[r].needed == 0)
              && forall k :: 0 <= k < |elements| && elements[k].relationPos == r ==> !elements[k].IsRemoved()
      ensures Telling(elements[i + 1..hi])
      ensures relations.tracked == old(relations.tracked) && |relations.rels| == |old(relations.rels)|
    {
      hide HandlesOk, SortedById;
      NotRemoved(i, hi);
      var r := elements[i].relationPos;
      ghost var untold := elements[i + 1..hi];
      assert elements[i..hi] == [elements[i]] + untold;
      forall q: nat ensures Entries(elements[i..hi], q) == (if q == r then 1 else 0) + Entries(untold, q) {
        CountsAppend([elements[i]], untold, 0, q);
      }
      complete := relations.DecrementMembers(r);
    }

    /** The call of the callback for a relation that has just been completed. */
    method Call(r: nat, i: nat, hi: nat, purge: nat -> seq<int>)
      requires i < hi <= |elements| && Telling(elements[i + 1..hi]) && PurgesTracked(purge, elements)
      requires relations.fired != [] && relations.fired[|relations.fired| - 1] == r
      requires r !in relations.fired[..|relations.fired| - 1]
      requires r < |relations.rels| && relations.rels[r].needed == 0
      requires forall k :: 0 <= k < |elements| && elements[k].relationPos == r ==> !elements[k].IsRemoved()
      modifies this`elements, stash
      ensures SameButMarks(old(elements), elements) && Telling(elements[i + 1..hi]) && PurgesTracked(purge, elements)
      ensures Purged(old(elements), elements, relations.fired[..|relations.fired| - 1], relations.fired, purge)
    {
      ghost var before, untold := elements, elements[i + 1..hi];
      assert r in relations.fired;
      forall id ensures KeptFor(elements, id, r) == EntriesFor(elements, id, r) {
        AllKept(elements, id, r);
      }
      CompleteRelation(r, purge(r), untold);
      SameUntold(before, elements, relations.rels, others, i + 1, hi);
      forall q: nat, id ensures EntriesFor(elements, id, q) == EntriesFor(before, id, q) {
        MarksDoNotCount(before, elements, id, q);
      }
      OnlyLast(before, elements, relations.fired, r, purge);
    }
  }

  lemma PurgedFrom(es: seq<Element>, fs: seq<Element>, gs: seq<Element>, before: seq<nat>, fired: seq<nat>,
                   purge: nat -> seq<int>)
    requires forall i, r: nat :: KeptFor(fs, i, r) == KeptFor(es, i, r)
    requires forall i, r: nat :: EntriesFor(fs, i, r) == EntriesFor(es, i, r)
    requires Purged(fs, gs, before, fired, purge)
    ensures Purged(es, gs, before, fired, purge)
  {
    hide KeptFor, EntriesFor;
  }

  lemma OnlyLast(es: seq<Element>, fs: seq<Element>, fired: seq<nat>, r: nat, purge: nat -> seq<int>)
    requires fired != [] && fired[|fired| - 1] == r && r !in fired[..|fired| - 1]
    requires forall id :: KeptFor(fs, id, r) == EntriesFor(es, id, r) - multiset(purge(r))[id]
    requires forall id, q: nat :: q != r ==> KeptFor(fs, id, q) == KeptFor(es, id, q)
    ensures Purged(es, fs, fired[..|fired| - 1], fired, purge)
  {
    hide KeptFor, EntriesFor;
    var front := fired[..|fired| - 1];
    assert fired == front + [r];
  }

  lemma NothingPurged(es: seq<Element>, fired: seq<nat>, purge: nat -> seq<int>)
    ensures Purged(es, es, fired, fired, purge)
  {
  }

  /** Sorting the tracked entries starts the lookup phase. */
  lemma SortedStart(es: seq<Element>, rels: seq<Rel>, others: seq<nat>, fired: seq<nat>, items: map<nat, int>,
                    next: nat)
    requires |others| == |rels| && CountersOk(es, rels, others, []) && InRange(es, rels)
    requires forall k :: 0 <= k < |es| ==> es[k].handle.Invalid? && !es[k].IsRemoved()
    ensures var fs := Sort(es);
            && Sorted(fs) && SortedById(fs) && InRange(fs, rels) && CountersOk(fs, rels, others, [])
            && HandlesOk(fs, items, next) && RemovedOk(fs, fired)
    ensures forall id, r :: EntriesFor(Sort(es), id, r) == EntriesFor(es, id, r)
    ensures forall k :: 0 <= k < |Sort(es)| ==> Sort(es)[k].handle.Invalid?
  {
    var fs := Sort(es);
    SortSorts(es);
    forall k | 0 <= k < |fs| ensures fs[k] in es {
      assert fs[k] in multiset(fs);
    }
    forall id, r: nat ensures EntriesFor(fs, id, r) == EntriesFor(es, id, r) {
      SortCounts(es, id, r);
    }
    forall r: nat ensures Missing(fs, r) == Missing(es, r) {
      SortCounts(es, 0, r);
    }
  }

  /** One removal mark on an entry of a completed relation. */
  lemma MarkedState(es: seq<Element>, fs: seq<Element>, k: nat, rels: seq<Rel>, others: seq<nat>,
                    untold: seq<Element>, fired: seq<nat>)
    requires k < |es| && fs == es[k := es[k].(memberNum := REMOVED_VALUE)]
    requires |others| == |rels| && CountersOk(es, rels, others, untold) && InRange(es, rels) && SortedById(es)
    requires RemovedOk(es, fired) && es[k].handle.Slot? && es[k].relationPos in fired
    ensures SameButMarks(es, fs) && CountersOk(fs, rels, others, untold) && InRange(fs, rels) && SortedById(fs)
    ensures RemovedOk(fs, fired)
    ensures forall r :: Missing(fs, r) == Missing(es, r)
  {
    forall r: nat ensures Missing(fs, r) == Missing(es, r) {
      MarksDoNotCount(es, fs, 0, r);
    }
  }

  /** Right after the object got its handle all its entries are still to be told. */
  lemma AddedStart(es: seq<Element>, fs: seq<Element>, items: map<nat, int>, next: nat, rels: seq<Rel>,
                   others: seq<nat>, fired: seq<nat>, id: int, lo: nat, hi: nat)
    requires |others| == |rels| && CountersOk(es, rels, others, []) && HandlesOk(es, items, next)
    requires RemovedOk(es, fired) && InRange(es, rels) && SortedById(es)
    requires Handed(es, fs, id, Slot(next)) && forall s :: s in items ==> s < next
    requires lo <= hi <= |es| && forall k :: 0 <= k < |es| ==> (lo <= k < hi <==> es[k].memberId == id)
    requires forall k :: 0 <= k < |es| && es[k].memberId == id ==> es[k].handle.Invalid?
    ensures CountersOk(fs, rels, others, fs[lo..hi]) && HandlesOk(fs, items[next := id], next + 1)
    ensures RemovedOk(fs, fired) && InRange(fs, rels) && SortedById(fs)
    ensures forall i, r :: EntriesFor(fs, i, r) == EntriesFor(es, i, r)
  {
    AddingKeepsHandles(es, fs, id, items, next);
    hide HandlesOk;
    forall r: nat, i
      ensures Missing(es, r) == Missing(fs, r) + Entries(fs[lo..hi], r) && EntriesFor(fs, i, r) == EntriesFor(es, i, r)
    {
      AddedCounts(es, fs, next, id, lo, hi, r, i);
    }
    AddedShape(es, fs, rels, fired, id, Slot(next));
  }

  /** Handing out a handle leaves the order, the relations and the marks as they are. */
  lemma AddedShape(es: seq<Element>, fs: seq<Element>, rels: seq<Rel>, fired: seq<nat>, id: int, h: Handle)
    requires RemovedOk(es, fired) && InRange(es, rels) && SortedById(es)
    requires Handed(es, fs, id, h) && h.Slot?
    ensures RemovedOk(fs, fired) && InRange(fs, rels) && SortedById(fs)
  {
    forall k | 0 <= k < |fs| && fs[k].IsRemoved()
      ensures fs[k].handle.Slot? && fs[k].relationPos in fired
    {
      assert es[k].IsRemoved();
    }
  }

  lemma AddedCounts(es: seq<Element>, fs: seq<Element>, next: nat, id: int, lo: nat, hi: nat, r: nat, i: int)
    requires Handed(es, fs, id, Slot(next))
    requires lo <= hi <= |es| && forall k :: 0 <= k < |es| ==> (lo <= k < hi <==> es[k].memberId == id)
    requires forall k :: 0 <= k < |es| && es[k].memberId == id ==> es[k].handle.Invalid?
    ensures Missing(es, r) == Missing(fs, r) + Entries(fs[lo..hi], r) && EntriesFor(fs, i, r) == EntriesFor(es, i, r)
  {
    OnlyIsRange(es, lo, hi, id);
    HandedCounts(es, fs, id, Slot(next), i, r);
    HandlesDoNotCount(es[lo..hi], fs[lo..hi], r);
  }

  lemma {:induction false} HandlesDoNotCount(a: seq<Element>, b: seq<Element>, r: nat)
    requires |a| == |b| && forall k :: 0 <= k < |a| ==> a[k].relationPos == b[k].relationPos
    ensures Entries(a, r) == Entries(b, r)
  {
    if a != [] { HandlesDoNotCount(a[1..], b[1..], r); }
  }

  /** Removal marks do not change which entries are still to be told. */
  lemma SameUntold(es: seq<Element>, fs: seq<Element>, rels: seq<Rel>, others: seq<nat>, lo: nat, hi: nat)
    requires SameButMarks(es, fs) && lo <= hi <= |es| && |others| == |rels|
    requires CountersOk(fs, rels, others, es[lo..hi])
    ensures CountersOk(fs, rels, others, fs[lo..hi])
  {
    forall r: nat ensures Entries(es[lo..hi], r) == Entries(fs[lo..hi], r) {
      HandlesDoNotCount(es[lo..hi], fs[lo..hi], r);
    }
  }

  /** Two states of the index that differ in removal marks and in the handle of one id. */
  ghost predicate SameButMarksAndHandle(a: seq<Element>, b: seq<Element>, id: int) {
    && |a| == |b|
    && (forall k :: 0 <= k < |a| ==>
          && b[k].memberId == a[k].memberId && b[k].relationPos == a[k].relationPos
          && (a[k].memberId != id ==> b[k].handle == a[k].handle)
          && (a[k].memberId == id ==> b[k].handle.Slot?))
  }

  lemma HandedThenMarked(es: seq<Element>, fs: seq<Element>, gs: seq<Element>, id: int, h: Handle)
    requires Handed(es, fs, id, h) && h.Slot? && SameButMarks(fs, gs)
    ensures SameButMarksAndHandle(es, gs, id)
  {
  }

  /** The entry of the id that is minimal in (member position, relation position). */
  ghost predicate IsFirst(es: seq<Element>, k: nat, id: int) {
    && k < |es| && es[k].memberId == id
    && forall j :: 0 <= j < |es| && es[j].memberId == id ==> AtMost(es[k], es[j])
  }

  /** Entries not marked as removed. */
  function Remaining(es: seq<Element>): nat {
    if es == [] then 0 else (if es[0].IsRemoved() then 0 else 1) + Remaining(es[1..])
  }

  /** Entries whose object has not been found. */
  function Waiting(es: seq<Element>): nat {
    if es == [] then 0 else (if !es[0].IsRemoved() && es[0].handle.Invalid? then 1 else 0) + Waiting(es[1..])
  }

  // ----- whole runs

  /** One call of `track`. */
  datatype TrackCall = TrackCall(rel: nat, memberId: int, memberNum: nat)

  /** All tracked members of the relation are among the objects, and there is one. */
  ghost predicate CompleteWith(calls: seq<TrackCall>, objects: seq<int>, r: nat) {
    && (exists c :: c in calls && c.rel == r)
    && (forall c :: c in calls && c.rel == r ==> c.memberId in objects)
  }

  function CallsFor(calls: seq<TrackCall>, id: int, r: nat): nat {
    if calls == [] then 0
    else (if calls[0].memberId == id && calls[0].rel == r then 1 else 0) + CallsFor(calls[1..], id, r)
  }

  lemma {:induction false} CallsForAppend(a: seq<TrackCall>, c: TrackCall, id: int, r: nat)
    ensures CallsFor(a + [c], id, r) == CallsFor(a, id, r) + if c.memberId == id && c.rel == r then 1 else 0
  {
    if a == [] {
      assert CallsFor([c], id, r) == (if c.memberId == id && c.rel == r then 1 else 0) + CallsFor([], id, r);
    } else {
      assert (a + [c])[1..] == a[1..] + [c];
      CallsForAppend(a[1..], c, id, r);
    }
  }

  lemma {:induction false} CallsForPositive(calls: seq<TrackCall>, id: int, r: nat)
    ensures CallsFor(calls, id, r) > 0 <==> exists c :: c in calls && c.memberId == id && c.rel == r
  {
    if calls != [] {
      CallsForPositive(calls[1..], id, r);
      if c :| c in calls && c.memberId == id && c.rel == r {
        assert c == calls[0] || c in calls[1..];
      }
    }
  }

  lemma {:induction false} EntriesForPositive(es: seq<Element>, id: int, r: nat)
    ensures EntriesFor(es, id, r) > 0 <==> exists k :: 0 <= k < |es| && es[k].memberId == id && es[k].relationPos == r
  {
    if es != [] {
      EntriesForPositive(es[1..], id, r);
      if k :| 0 <= k < |es| && es[k].memberId == id && es[k].relationPos == r {
        if k > 0 { assert es[1..][k - 1] == es[k]; }
      }
      if k :| 0 <= k < |es[1..]| && es[1..][k].memberId == id && es[1..][k].relationPos == r {
        assert es[k + 1] == es[1..][k];
      }
    }
  }

  ghost predicate SameEntries(es: seq<Element>, calls: seq<TrackCall>) {
    forall id, r :: EntriesFor(es, id, r) == CallsFor(calls, id, r)
  }

  ghost predicate FoundAre(es: seq<Element>, objects: seq<int>) {
    forall k :: 0 <= k < |es| ==> (es[k].handle.Slot? <==> es[k].memberId in objects)
  }

  /** Nothing of a relation is missing exactly when its tracked members are all among the objects. */
  lemma NothingMissingIffAllCame(es: seq<Element>, calls: seq<TrackCall>, objects: seq<int>, r: nat)
    requires SameEntries(es, calls) && FoundAre(es, objects)
    ensures Missing(es, r) == 0 <==> forall c :: c in calls && c.rel == r ==> c.memberId in objects
    ensures Entries(es, r) > 0 <==> exists c :: c in calls && c.rel == r
  {
    NoneMissing(es, r);
    NoEntries(es, r);
    forall c | c in calls && c.rel == r
      ensures exists k :: 0 <= k < |es| && es[k].memberId == c.memberId && es[k].relationPos == r
    {
      CallsForPositive(calls, c.memberId, r);
      EntriesForPositive(es, c.memberId, r);
    }
    forall k | 0 <= k < |es| && es[k].relationPos == r
      ensures exists c :: c in calls && c.memberId == es[k].memberId && c.rel == r
    {
      EntriesForPositive(es, es[k].memberId, r);
      CallsForPositive(calls, es[k].memberId, r);
    }
  }

  lemma {:induction false} SameEntriesFor(a: seq<Element>, b: seq<Element>, id: int, i: int, r: nat)
    requires SameButMarksAndHandle(a, b, id)
    ensures EntriesFor(a, i, r) == EntriesFor(b, i, r)
  {
    if a != [] { SameEntriesFor(a[1..], b[1..], id, i, r); }
  }

  /** With nothing tracked elsewhere, the completed relations are those whose members all came. */
  lemma FiredIffComplete(db: MembersDatabase, calls: seq<TrackCall>, objects: seq<int>)
    requires db.Valid() && SameEntries(db.elements, calls) && FoundAre(db.elements, objects)
    requires forall r :: 0 <= r < |db.others| ==> db.others[r] == 0
    requires TrackedMatches(db.relations.tracked, calls)
    requires forall c :: c in calls ==> c.rel < |db.others|
    ensures forall r: nat :: multiset(db.relations.fired)[r] == if CompleteWith(calls, objects, r) then 1 else 0
  {
    forall r: nat
      ensures multiset(db.relations.fired)[r] == if CompleteWith(calls, objects, r) then 1 else 0
    {
      if r < |db.others| {
        NothingMissingIffAllCame(db.elements, calls, objects, r);
        assert Entries([], r) == 0;
      } else {
        assert r !in db.relations.fired;
      }
    }
  }

  /** Store all relations and track all members. */
  method TrackAll(rels: seq<Rel>, calls: seq<TrackCall>) returns (db: MembersDatabase)
    requires forall q, r :: 0 <= q < r < |rels| ==> rels[q].id != rels[r].id
    requires forall c :: c in calls ==> c.rel < |rels| && c.memberNum < rels[c.rel].size < REMOVED_VALUE
    ensures fresh(db) && fresh(db.stash) && fresh(db.relations)
    ensures db.Tracking() && SameEntries(db.elements, calls) && db.relations.fired == []
    ensures |db.relations.rels| == |rels| && forall r :: 0 <= r < |rels| ==> db.others[r] == 0
    ensures TrackedMatches(db.relations.tracked, calls)
  {
    var relations := StoreRelations(rels);
    var stash := new ItemStash();
    db := new MembersDatabase(stash, relations, seq(|rels|, i => 0));
    for j := 0 to |calls|
      invariant fresh(db) && fresh(db.stash) && fresh(db.relations)
      invariant db.Tracking() && SameEntries(db.elements, calls[..j]) && db.relations.fired == []
      invariant |db.relations.rels| == |rels| && forall r :: 0 <= r < |rels| ==> db.others[r] == 0
      invariant forall r :: 0 <= r < |rels| ==> db.relations.rels[r].size == rels[r].size
      invariant TrackedMatches(db.relations.tracked, calls[..j])
    {
      ghost var es, tracked := db.elements, db.relations.tracked;
      assert calls[j] in calls;
      db.Track(calls[j].rel, calls[j].memberId, calls[j].memberNum);
      assert calls[..j + 1] == calls[..j] + [calls[j]];
      TrackStep(es, tracked, calls[..j], calls[j]);
    }
    assert calls[..|calls|] == calls;
  }

  ghost predicate TrackedMatches(tracked: seq<nat>, calls: seq<TrackCall>) {
    forall r :: 0 <= r < |tracked| ==> (tracked[r] > 0 <==> exists c :: c in calls && c.rel == r)
  }

  lemma TrackStep(es: seq<Element>, tracked: seq<nat>, calls: seq<TrackCall>, c: TrackCall)
    requires SameEntries(es, calls) && TrackedMatches(tracked, calls) && c.rel < |tracked|
    ensures SameEntries(es + [Element(c.memberId, c.memberNum, c.rel, Invalid)], calls + [c])
    ensures TrackedMatches(tracked[c.rel := tracked[c.rel] + 1], calls + [c])
  {
    var e := Element(c.memberId, c.memberNum, c.rel, Invalid);
    forall id, r: nat ensures EntriesFor(es + [e], id, r) == CallsFor(calls + [c], id, r) {
      CountsAppend(es, [e], id, r);
      CallsForAppend(calls, c, id, r);
    }
    assert (calls + [c])[|calls|] == c;
  }

  method StoreRelations(rels: seq<Rel>) returns (relations: RelationsDatabase)
    requires forall q, r :: 0 <= q < r < |rels| ==> rels[q].id != rels[r].id
    ensures fresh(relations) && relations.Valid() && relations.UniqueIds() && relations.fired == []
    ensures |relations.rels| == |rels|
    ensures forall r :: 0 <= r < |rels| ==>
              relations.rels[r] == Rel(rels[r].id, rels[r].size, 0) && relations.tracked[r] == 0
  {
    relations := new RelationsDatabase();
    for i := 0 to |rels|
      invariant fresh(relations) && relations.Valid() && relations.fired == []
      invariant |relations.rels| == i && forall r :: 0 <= r < i ==>
                  relations.rels[r] == Rel(rels[r].id, rels[r].size, 0) && relations.tracked[r] == 0
    {
      var pos := relations.Add(rels[i].id, rels[i].size);
    }
  }

  /** A whole run: track all members, prepare, add the objects in any order, each once. Every relation is completed
      exactly once, namely at the object that is its last missing member, also if a member occurs in it several times.
      What the callbacks remove is gone behind the run, and nothing else: of a completed relation every member is kept
      as often as it was tracked and not removed, of the others as often as it was tracked. */
  method Run(rels: seq<Rel>, calls: seq<TrackCall>, objects: seq<int>, purge: nat -> seq<int>)
      returns (db: MembersDatabase, completed: seq<seq<nat>>)
    requires forall q, r :: 0 <= q < r < |rels| ==> rels[q].id != rels[r].id
    requires forall c :: c in calls ==> c.rel < |rels| && c.memberNum < rels[c.rel].size < REMOVED_VALUE
    requires forall j, k :: 0 <= j < k < |objects| ==> objects[j] != objects[k]
    requires forall r, id :: multiset(purge(r))[id] <= CallsFor(calls, id, r)
    ensures fresh(db) && fresh(db.stash) && fresh(db.relations) && RunState(db, calls, objects)
    ensures |completed| == |objects|
    ensures forall k, r: nat :: 0 <= k < |objects| ==>
              multiset(completed[k])[r] == CompletedAt(calls, objects, k, r)
    ensures forall id, r: nat :: KeptFor(db.elements, id, r) == Left(calls, objects, purge, id, r)
  {
    db := TrackAll(rels, calls);
    ghost var tracked := db.elements;
    db.PrepareForLookup();
    completed := [];
    ghost var start, none := db.elements, db.relations.fired;
    forall id, r: nat ensures KeptFor(start, id, r) == CallsFor(calls, id, r) {
      assert EntriesFor(start, id, r) == EntriesFor(tracked, id, r);
      AllKept(start, id, r);
    }
    NothingPurged(start, none, purge);
    hide Purged, KeptFor, EntriesFor, CallsFor, CompletedAt;
    for k := 0 to |objects|
      invariant fresh(db) && fresh(db.stash) && fresh(db.relations)
      invariant RunState(db, calls, objects[..k]) && |db.others| == |rels| && |completed| == k
      invariant forall j, r: nat :: 0 <= j < k ==> multiset(completed[j])[r] == CompletedAt(calls, objects, j, r)
      invariant KeptIs(db.elements, db.relations.fired, calls, purge)
    {
      assert objects[..k + 1] == objects[..k] + [objects[k]];
      var now := AddNext(db, calls, objects, k, purge);
      completed := completed + [now];
    }
    assert objects[..|objects|] == objects;
    FiredIffComplete(db, calls, objects);
  }

  /** How often a member is kept in a relation behind a run. */
  ghost function Left(calls: seq<TrackCall>, objects: seq<int>, purge: nat -> seq<int>, id: int, r: nat): int {
    CallsFor(calls, id, r) - if CompleteWith(calls, objects, r) then multiset(purge(r))[id] else 0
  }

  ghost predicate KeptIs(es: seq<Element>, fired: seq<nat>, calls: seq<TrackCall>, purge: nat -> seq<int>) {
    forall id, r: nat ::
      KeptFor(es, id, r) == CallsFor(calls, id, r) - if r in fired then multiset(purge(r))[id] else 0
  }

  lemma KeptStays(es: seq<Element>, fs: seq<Element>, before: seq<nat>, fired: seq<nat>, calls: seq<TrackCall>,
                  purge: nat -> seq<int>)
    requires KeptIs(es, before, calls, purge) && SameEntries(es, calls)
    requires Purged(es, fs, before, fired, purge) && before <= fired
    ensures KeptIs(fs, fired, calls, purge)
  {
    hide KeptFor, EntriesFor, CallsFor;
    forall r: nat ensures r in before ==> r in fired { Within(before, fired, r); }
  }

  /** A run and the lookups behind it. `found` is what `get_object` gives for every object: the object if a relation
      that tracks it is not completed or its callback has left a member for it; nothing if no relation tracks it; and
      otherwise a freed item is read. */
  method CollectRelations(rels: seq<Rel>, calls: seq<TrackCall>, objects: seq<int>, purge: nat -> seq<int>)
      returns (completed: seq<seq<nat>>, found: seq<Result<Option<int>>>)
    requires forall q, r :: 0 <= q < r < |rels| ==> rels[q].id != rels[r].id
    requires forall c :: c in calls ==> c.rel < |rels| && c.memberNum < rels[c.rel].size < REMOVED_VALUE
    requires forall j, k :: 0 <= j < k < |objects| ==> objects[j] != objects[k]
    requires forall r, id :: multiset(purge(r))[id] <= CallsFor(calls, id, r)
    ensures |completed| == |found| == |objects|
    ensures forall k, r: nat :: 0 <= k < |objects| ==>
              multiset(completed[k])[r] == CompletedAt(calls, objects, k, r)
    ensures forall k :: 0 <= k < |objects| ==> Lookup(calls, objects, purge, objects[k], found[k])
  {
    var db;
    db, completed := Run(rels, calls, objects, purge);
    found := LookupAll(db, calls, objects, purge);
  }

  ghost predicate Lookup(calls: seq<TrackCall>, objects: seq<int>, purge: nat -> seq<int>, id: int,
                         found: Result<Option<int>>)
  {
    var tracked := exists c :: c in calls && c.memberId == id;
    var needed := exists r: nat :: Left(calls, objects, purge, id, r) > 0;
    && (found.Err? <==> tracked && !needed)
    && (found.Ok? ==> found.value == if tracked then Some(id) else None)
  }

  method LookupAll(db: MembersDatabase, ghost calls: seq<TrackCall>, objects: seq<int>, ghost purge: nat -> seq<int>)
      returns (found: seq<Result<Option<int>>>)
    requires RunState(db, calls, objects)
    requires forall id, r: nat :: KeptFor(db.elements, id, r) == Left(calls, objects, purge, id, r)
    ensures |found| == |objects|
    ensures forall k :: 0 <= k < |objects| ==> Lookup(calls, objects, purge, objects[k], found[k])
  {
    found := [];
    for k := 0 to |objects|
      invariant |found| == k
      invariant forall j :: 0 <= j < k ==> Lookup(calls, objects, purge, objects[j], found[j])
    {
      hide KeptFor, Left;
      var r := db.GetObject(objects[k]);
      TrackedIffEntry(db.elements, calls, objects, objects[k]);
      NeededIffKept(db.elements, calls, objects, purge, objects[k]);
      found := found + [r];
    }
  }

  lemma NeededIffKept(es: seq<Element>, calls: seq<TrackCall>, objects: seq<int>, purge: nat -> seq<int>, id: int)
    requires forall i, r: nat :: KeptFor(es, i, r) == Left(calls, objects, purge, i, r)
    ensures Kept(es, id) > 0 <==> exists r: nat :: Left(calls, objects, purge, id, r) > 0
  {
    hide KeptFor, Left;
    if Kept(es, id) > 0 {
      var r := KeptHasRelation(es, id);
      assert Left(calls, objects, purge, id, r) > 0;
    }
    forall r: nat | Left(calls, objects, purge, id, r) > 0 ensures Kept(es, id) > 0 {
      assert KeptFor(es, id, r) > 0;
      KeptForIsKept(es, id, r);
    }
  }

  /** The object of a run has an entry with its handle exactly if it is tracked. */
  lemma TrackedIffEntry(es: seq<Element>, calls: seq<TrackCall>, objects: seq<int>, id: int)
    requires SameEntries(es, calls) && FoundAre(es, objects) && id in objects
    ensures (exists k :: 0 <= k < |es| && es[k].memberId == id && es[k].handle.Slot?) <==>
            exists c :: c in calls && c.memberId == id
  {
    forall c | c in calls && c.memberId == id ensures exists k :: 0 <= k < |es| && es[k].memberId == id {
      CallsForPositive(calls, id, c.rel);
      EntriesForPositive(es, id, c.rel);
    }
    forall k | 0 <= k < |es| && es[k].memberId == id ensures exists c :: c in calls && c.memberId == id {
      EntriesForPositive(es, id, es[k].relationPos);
      CallsForPositive(calls, id, es[k].relationPos);
    }
  }

  /** 1 if object k is the last missing member of the relation, else 0. */
  ghost function CompletedAt(calls: seq<TrackCall>, objects: seq<int>, k: nat, r: nat): nat
    requires k < |objects|
  {
    if CompleteWith(calls, objects[..k + 1], r) && !CompleteWith(calls, objects[..k], r) then 1 else 0
  }

  ghost predicate RunState(db: MembersDatabase, calls: seq<TrackCall>, objects: seq<int>)
    reads db, db.stash, db.relations
  {
    && db.Valid() && SameEntries(db.elements, calls) && FoundAre(db.elements, objects)
    && TrackedMatches(db.relations.tracked, calls)
    && (forall r :: 0 <= r < |db.others| ==> db.others[r] == 0)
    && (forall c :: c in calls ==> c.rel < |db.others|)
  }

  /** Add object k of a run and return the relations completed by it. */
  method AddNext(db: MembersDatabase, calls: seq<TrackCall>, objects: seq<int>, k: nat, purge: nat -> seq<int>)
      returns (now: seq<nat>)
    requires k < |objects| && RunState(db, calls, objects[..k]) && objects[k] !in objects[..k]
    requires forall r, id :: multiset(purge(r))[id] <= CallsFor(calls, id, r)
    requires KeptIs(db.elements, db.relations.fired, calls, purge)
    modifies db`elements, db.stash, db.relations
    ensures RunState(db, calls, objects[..k + 1])
    ensures KeptIs(db.elements, db.relations.fired, calls, purge)
    ensures forall r: nat :: multiset(now)[r] == CompletedAt(calls, objects, k, r)
  {
    ghost var es := db.elements;
    var before := |db.relations.fired|;
    ghost var fired := db.relations.fired;
    FiredIffComplete(db, calls, objects[..k]);
    var added := db.Add(objects[k], purge);
    assert objects[..k + 1] == objects[..k] + [objects[k]];
    forall id, r: nat ensures EntriesFor(db.elements, id, r) == EntriesFor(es, id, r) {
      SameEntriesFor(es, db.elements, objects[k], id, r);
    }
    KeptStays(es, db.elements, fired, db.relations.fired, calls, purge);
    FiredIffComplete(db, calls, objects[..k + 1]);
    now := db.relations.fired[before..];
    assert db.relations.fired == fired + now;
  }
}
