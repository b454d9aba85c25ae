/** The entries of the member index (struct element in
    contrib/libosmium_patched/include/osmium_patched/relations/members_database.hpp), how they
    are ordered and counted, and what one removal does to them. */
module MemberElements {
  /** std::numeric_limits<std::size_t>::max(), the mark of a removed entry. */
  const REMOVED_VALUE: nat := 0xFFFF_FFFF_FFFF_FFFF

  /** Handle of an object in the stash; the default one is invalid: not found yet. */
  datatype Handle = Invalid | Slot(slot: nat)

  datatype Element = Element(memberId: int, memberNum: nat, relationPos: nat, handle: Handle) {
    predicate IsRemoved() { memberNum == REMOVED_VALUE }
  }

  /** A relation of the relations database: its id, its number of members, and how many tracked
      members are still missing. */
  datatype Rel = Rel(id: int, size: nat, needed: int)

  // ----- order

  /** `!(b < a)` for the order of the triples (member_id, member_num, relation_pos). */
  predicate AtMost(a: Element, b: Element) {
    || a.memberId < b.memberId
    || (a.memberId == b.memberId && (|| a.memberNum < b.memberNum
                                     || (a.memberNum == b.memberNum && a.relationPos <= b.relationPos)))
  }

  ghost predicate Sorted(es: seq<Element>) {
    forall i, j :: 0 <= i < j < |es| ==> AtMost(es[i], es[j])
  }

  ghost predicate SortedById(es: seq<Element>) {
    forall i, j :: 0 <= i < j < |es| ==> es[i].memberId <= es[j].memberId
  }

  function Insert(e: Element, es: seq<Element>): (r: seq<Element>)
    ensures multiset(r) == multiset(es) + multiset{e}
  {
    if es == [] then [e]
    else if AtMost(e, es[0]) then
      assert [e] + es == [e] + es;
      [e] + es
    else
      assert es == [es[0]] + es[1..];
      [es[0]] + Insert(e, es[1..])
  }

  /** std::sort on the elements. */
  function Sort(es: seq<Element>): (r: seq<Element>)
    ensures multiset(r) == multiset(es)
  {
    if es == [] then []
    else
      assert es == [es[0]] + es[1..];
      Insert(es[0], Sort(es[1..]))
  }

  lemma {:induction false} InsertSorted(e: Element, es: seq<Element>)
    requires Sorted(es)
    ensures Sorted(Insert(e, es))
  {
    if es != [] && !AtMost(e, es[0]) {
      InsertSorted(e, es[1..]);
      var rest := Insert(e, es[1..]);
      forall j | 0 <= j < |rest|
        ensures AtMost(es[0], rest[j])
      {
        assert rest[j] in multiset(rest);
        assert rest[j] == e || rest[j] in es[1..];
      }
    }
  }

  lemma {:induction false} SortSorts(es: seq<Element>)
    ensures Sorted(Sort(es))
  {
    if es != [] {
      SortSorts(es[1..]);
      InsertSorted(es[0], Sort(es[1..]));
    }
  }

  // ----- counting

  /** Number of entries of relation r. */
  function Entries(es: seq<Element>, r: nat): nat {
    if es == [] then 0 else (if es[0].relationPos == r then 1 else 0) + Entries(es[1..], r)
  }

  /** Number of entries of relation r whose object has not been added yet. */
  function Missing(es: seq<Element>, r: nat): nat {
    if es == [] then 0
    else (if es[0].relationPos == r && es[0].handle.Invalid? then 1 else 0) + Missing(es[1..], r)
  }

  /** Number of entries for member id in relation r. */
  function EntriesFor(es: seq<Element>, id: int, r: nat): nat {
    if es == [] then 0
    else (if es[0].memberId == id && es[0].relationPos == r then 1 else 0) + EntriesFor(es[1..], id, r)
  }

  /** Those of them not marked as removed. */
  function KeptFor(es: seq<Element>, id: int, r: nat): nat {
    if es == [] then 0
    else (if es[0].memberId == id && es[0].relationPos == r && !es[0].IsRemoved() then 1 else 0)
         + KeptFor(es[1..], id, r)
  }

  /** Number of entries for member id, in any relation, not marked as removed. */
  function Kept(es: seq<Element>, id: int): nat {
    if es == [] then 0
    else (if es[0].memberId == id && !es[0].IsRemoved() then 1 else 0) + Kept(es[1..], id)
  }

  /** Two states of the index that differ in removal marks only. */
  ghost predicate SameButMarks(a: seq<Element>, b: seq<Element>) {
    |a| == |b| && forall k :: 0 <= k < |a| ==> b[k] == a[k].(memberNum := b[k].memberNum)
  }

  lemma {:induction false} MarksDoNotCount(a: seq<Element>, b: seq<Element>, id: int, r: nat)
    requires SameButMarks(a, b)
    ensures Entries(a, r) == Entries(b, r) && Missing(a, r) == Missing(b, r)
    ensures EntriesFor(a, id, r) == EntriesFor(b, id, r)
  {
    if a != [] { MarksDoNotCount(a[1..], b[1..], id, r); }
  }

  lemma {:induction false} CountsAppend(a: seq<Element>, b: seq<Element>, id: int, r: nat)
    ensures Entries(a + b, r) == Entries(a, r) + Entries(b, r)
    ensures Missing(a + b, r) == Missing(a, r) + Missing(b, r)
    ensures EntriesFor(a + b, id, r) == EntriesFor(a, id, r) + EntriesFor(b, id, r)
    ensures KeptFor(a + b, id, r) == KeptFor(a, id, r) + KeptFor(b, id, r)
    ensures Kept(a + b, id) == Kept(a, id) + Kept(b, id)
  {
    if a == [] {
      assert a + b == b;
    } else {
      assert (a + b)[1..] == a[1..] + b;
      CountsAppend(a[1..], b, id, r);
    }
  }

  lemma {:induction false} InsertCounts(e: Element, es: seq<Element>, id: int, r: nat)
    ensures Entries(Insert(e, es), r) == Entries([e], r) + Entries(es, r)
    ensures Missing(Insert(e, es), r) == Missing([e], r) + Missing(es, r)
    ensures EntriesFor(Insert(e, es), id, r) == EntriesFor([e], id, r) + EntriesFor(es, id, r)
    ensures KeptFor(Insert(e, es), id, r) == KeptFor([e], id, r) + KeptFor(es, id, r)
  {
    if es != [] {
      if AtMost(e, es[0]) {
        CountsAppend([e], es, id, r);
      } else {
        InsertCounts(e, es[1..], id, r);
        CountsAppend([es[0]], Insert(e, es[1..]), id, r);
        CountsAppend([es[0]], es[1..], id, r);
        assert es == [es[0]] + es[1..];
      }
    }
  }

  lemma {:induction false} SortCounts(es: seq<Element>, id: int, r: nat)
    ensures Entries(Sort(es), r) == Entries(es, r) && Missing(Sort(es), r) == Missing(es, r)
    ensures EntriesFor(Sort(es), id, r) == EntriesFor(es, id, r) && KeptFor(Sort(es), id, r) == KeptFor(es, id, r)
  {
    if es != [] {
      SortCounts(es[1..], id, r);
      InsertCounts(es[0], Sort(es[1..]), id, r);
      CountsAppend([es[0]], es[1..], id, r);
      assert es == [es[0]] + es[1..];
    }
  }

  lemma {:induction false} NoEntries(es: seq<Element>, r: nat)
    ensures Entries(es, r) == 0 <==> forall k :: 0 <= k < |es| ==> es[k].relationPos != r
  {
    if es != [] {
      NoEntries(es[1..], r);
      if Entries(es, r) == 0 {
        forall k | 0 <= k < |es| ensures es[k].relationPos != r {
          if k > 0 { assert es[k] == es[1..][k - 1]; }
        }
      }
    }
  }

  lemma {:induction false} NoneMissing(es: seq<Element>, r: nat)
    ensures Missing(es, r) == 0 <==> forall k :: 0 <= k < |es| && es[k].relationPos == r ==> es[k].handle.Slot?
  {
    if es != [] {
      NoneMissing(es[1..], r);
      if Missing(es, r) == 0 {
        forall k | 0 <= k < |es| && es[k].relationPos == r ensures es[k].handle.Slot? {
          if k > 0 { assert es[k] == es[1..][k - 1]; }
        }
      }
    }
  }

  lemma {:induction false} NoneKept(es: seq<Element>, id: int)
    ensures Kept(es, id) == 0 <==> forall k :: 0 <= k < |es| && es[k].memberId == id ==> es[k].IsRemoved()
  {
    if es != [] {
      NoneKept(es[1..], id);
      if Kept(es, id) == 0 {
        forall k | 0 <= k < |es| && es[k].memberId == id ensures es[k].IsRemoved() {
          if k > 0 { assert es[k] == es[1..][k - 1]; }
        }
      }
    }
  }

  lemma {:induction false} AllKept(es: seq<Element>, id: int, r: nat)
    requires forall k :: 0 <= k < |es| && es[k].relationPos == r ==> !es[k].IsRemoved()
    ensures KeptFor(es, id, r) == EntriesFor(es, id, r)
  {
    if es != [] { AllKept(es[1..], id, r); }
  }

  // ----- one removal

  predicate Matches(e: Element, rels: seq<Rel>, id: int, relationId: int) {
    e.memberId == id && !e.IsRemoved() && e.relationPos < |rels| && rels[e.relationPos].id == relationId
  }

  /** The elements after `remove(id, relationId)`: the first kept matching entry is marked. */
  function MarkFirst(es: seq<Element>, rels: seq<Rel>, id: int, relationId: int): seq<Element> {
    if es == [] then []
    else if Matches(es[0], rels, id, relationId) then [es[0].(memberNum := REMOVED_VALUE)] + es[1..]
    else [es[0]] + MarkFirst(es[1..], rels, id, relationId)
  }

  /** Whether `remove` frees the object in the stash. */
  function Frees(es: seq<Element>, id: int): bool { Kept(es, id) == 1 }

  ghost predicate HasMatch(es: seq<Element>, rels: seq<Rel>, id: int, relationId: int) {
    exists k :: 0 <= k < |es| && Matches(es[k], rels, id, relationId)
  }

  lemma {:induction false} MarkFirstShape(es: seq<Element>, rels: seq<Rel>, id: int, relationId: int) returns (k: nat)
    ensures k <= |es|
    ensures k < |es| ==> Matches(es[k], rels, id, relationId)
    ensures k < |es| ==> MarkFirst(es, rels, id, relationId) == es[k := es[k].(memberNum := REMOVED_VALUE)]
    ensures k == |es| ==> MarkFirst(es, rels, id, relationId) == es
    ensures forall j :: 0 <= j < k ==> !Matches(es[j], rels, id, relationId)
  {
    if es == [] {
      k := 0;
    } else if Matches(es[0], rels, id, relationId) {
      k := 0;
    } else {
      var m := MarkFirstShape(es[1..], rels, id, relationId);
      k := m + 1;
      assert es == [es[0]] + es[1..];
      forall j | 0 <= j < k ensures !Matches(es[j], rels, id, relationId) {
        if j > 0 { assert es[j] == es[1..][j - 1]; }
      }
      if k < |es| { assert es[k] == es[1..][m]; }
    }
  }

  lemma {:induction false} MarkCounts(es: seq<Element>, k: nat, id: int, r: nat)
    requires k < |es| && !es[k].IsRemoved()
    ensures var fs := es[k := es[k].(memberNum := REMOVED_VALUE)];
            && Kept(fs, id) == Kept(es, id) - (if es[k].memberId == id then 1 else 0)
            && KeptFor(fs, id, r)
               == KeptFor(es, id, r) - (if es[k].memberId == id && es[k].relationPos == r then 1 else 0)
  {
    var fs := es[k := es[k].(memberNum := REMOVED_VALUE)];
    if k == 0 {
      assert fs[1..] == es[1..];
    } else {
      assert fs[1..] == es[1..][k - 1 := es[1..][k - 1].(memberNum := REMOVED_VALUE)];
      MarkCounts(es[1..], k - 1, id, r);
    }
  }

  /** An object is needed exactly while some relation needs it. */
  lemma {:induction false} KeptHasRelation(es: seq<Element>, id: int) returns (r: nat)
    requires Kept(es, id) > 0
    ensures KeptFor(es, id, r) > 0
  {
    if es[0].memberId == id && !es[0].IsRemoved() {
      r := es[0].relationPos;
    } else {
      r := KeptHasRelation(es[1..], id);
    }
  }

  lemma {:induction false} KeptForIsKept(es: seq<Element>, id: int, r: nat)
    ensures KeptFor(es, id, r) <= Kept(es, id)
  {
    if es != [] { KeptForIsKept(es[1..], id, r); }
  }

  /** What callbacks have done between two states of the index: every relation that was completed in between has lost
      exactly the members that its callback removes, and nothing else is marked. */
  ghost predicate Purged(es: seq<Element>, fs: seq<Element>, before: seq<nat>, fired: seq<nat>, purge: nat -> seq<int>)
  {
    forall id, r: nat ::
      KeptFor(fs, id, r) ==
      if r in fired && r !in before then EntriesFor(es, id, r) - multiset(purge(r))[id] else KeptFor(es, id, r)
  }

  lemma PurgedTwice(es: seq<Element>, fs: seq<Element>, gs: seq<Element>, f0: seq<nat>, f1: seq<nat>, f2: seq<nat>,
                    purge: nat -> seq<int>)
    requires Purged(es, fs, f0, f1, purge) && Purged(fs, gs, f1, f2, purge) && f0 <= f1 <= f2
    requires SameButMarks(es, fs)
    ensures Purged(es, gs, f0, f2, purge)
  {
    forall id, r: nat ensures EntriesFor(fs, id, r) == EntriesFor(es, id, r) { MarksDoNotCount(es, fs, id, r); }
    forall r: nat ensures r in f0 ==> r in f1 { Within(f0, f1, r); }
    forall r: nat ensures r in f1 ==> r in f2 { Within(f1, f2, r); }
  }

  lemma Within(a: seq<nat>, b: seq<nat>, r: nat)
    requires a <= b
    ensures r in a ==> r in b
  {
    if r in a {
      var i :| 0 <= i < |a| && a[i] == r;
      assert b[i] == r;
    }
  }

  lemma {:induction false} KeptForWitness(es: seq<Element>, id: int, r: nat) returns (k: nat)
    requires KeptFor(es, id, r) > 0
    ensures k < |es| && es[k].memberId == id && es[k].relationPos == r && !es[k].IsRemoved()
  {
    if es[0].memberId == id && es[0].relationPos == r && !es[0].IsRemoved() {
      k := 0;
    } else {
      k := KeptForWitness(es[1..], id, r);
      k := k + 1;
    }
  }

  /** The documented lifetime rule, "if this is the last time this object was needed, remove it
      from the stash", holds for a removal exactly if the pair is present, or the object is needed
      by none or by several entries: with a single kept entry of another relation the object is
      freed under its feet. */
  lemma FreedExactlyWithLastEntry(es: seq<Element>, rels: seq<Rel>, id: int, relationId: int)
    ensures var after := MarkFirst(es, rels, id, relationId);
            (Frees(es, id) <==> Kept(es, id) > 0 && Kept(after, id) == 0)
            <==> (HasMatch(es, rels, id, relationId) || Kept(es, id) != 1)
  {
    var k := MarkFirstShape(es, rels, id, relationId);
    if k < |es| { MarkCounts(es, k, id, 0); }
  }

  // ----- the invariants of the index, on values

  /** Each counter is the number of tracked entries not added yet: `others` of them in the other
      member databases, and here those without a handle plus the entries still to be told. */
  ghost predicate CountersOk(es: seq<Element>, rels: seq<Rel>, others: seq<nat>, untold: seq<Element>)
    requires |others| == |rels|
  {
    forall r :: 0 <= r < |rels| ==> rels[r].needed == others[r] + Missing(es, r) + Entries(untold, r)
  }

  ghost predicate OneHandlePerId(es: seq<Element>) {
    forall j, k :: 0 <= j < |es| && 0 <= k < |es| && es[j].memberId == es[k].memberId ==> es[j].handle == es[k].handle
  }

  ghost predicate OneIdPerHandle(es: seq<Element>) {
    forall j, k :: 0 <= j < |es| && 0 <= k < |es| && es[j].handle.Slot? && es[j].handle == es[k].handle ==>
      es[j].memberId == es[k].memberId
  }

  /** Objects live in the stash exactly while an entry needs them. */
  ghost predicate StashExact(es: seq<Element>, items: map<nat, int>, next: nat) {
    forall k :: 0 <= k < |es| && es[k].handle.Slot? ==>
      && es[k].handle.slot < next
      && (es[k].handle.slot in items <==> Kept(es, es[k].memberId) > 0)
      && (es[k].handle.slot in items ==> items[es[k].handle.slot] == es[k].memberId)
  }

  ghost predicate HandlesOk(es: seq<Element>, items: map<nat, int>, next: nat) {
    OneHandlePerId(es) && OneIdPerHandle(es) && StashExact(es, items, next)
  }

  /** Only entries of completed relations are marked as removed, and only after their object came. */
  ghost predicate RemovedOk(es: seq<Element>, fired: seq<nat>) {
    forall k :: 0 <= k < |es| && es[k].IsRemoved() ==> es[k].handle.Slot? && es[k].relationPos in fired
  }

  ghost predicate InRange(es: seq<Element>, rels: seq<Rel>) {
    forall k :: 0 <= k < |es| ==>
      && es[k].relationPos < |rels|
      && rels[es[k].relationPos].size < REMOVED_VALUE
      && (!es[k].IsRemoved() ==> es[k].memberNum < rels[es[k].relationPos].size)
  }

  /** A removal of a present pair keeps handles and stash exact. */
  lemma RemovalKeepsHandles(es: seq<Element>, items: map<nat, int>, next: nat, k: nat)
    requires HandlesOk(es, items, next) && k < |es| && !es[k].IsRemoved() && es[k].handle.Slot?
    ensures HandlesOk(es[k := es[k].(memberNum := REMOVED_VALUE)],
                      if Frees(es, es[k].memberId) then items - {es[k].handle.slot} else items, next)
  {
    var fs := es[k := es[k].(memberNum := REMOVED_VALUE)];
    var id := es[k].memberId;
    var left := if Frees(es, id) then items - {es[k].handle.slot} else items;
    forall j | 0 <= j < |fs| && fs[j].handle.Slot?
      ensures fs[j].handle.slot < next
      ensures fs[j].handle.slot in left <==> Kept(fs, fs[j].memberId) > 0
      ensures fs[j].handle.slot in left ==> left[fs[j].handle.slot] == fs[j].memberId
    {
      assert fs[j].memberId == es[j].memberId && fs[j].handle == es[j].handle;
      MarkCounts(es, k, fs[j].memberId, 0);
      NoneKept(es, id);
      if fs[j].memberId != id {
        assert es[j].handle != es[k].handle;
      } else {
        assert es[j].handle == es[k].handle;
      }
    }
  }

  /** Giving one fresh handle to all entries of an id. */
  ghost predicate Handed(es: seq<Element>, fs: seq<Element>, id: int, h: Handle) {
    && |fs| == |es|
    && (forall k :: 0 <= k < |es| ==>
          fs[k] == if es[k].memberId == id then es[k].(handle := h) else es[k])
  }

  lemma {:induction false} HandedCounts(es: seq<Element>, fs: seq<Element>, id: int, h: Handle, i: int, r: nat)
    requires Handed(es, fs, id, h) && h.Slot?
    requires forall k :: 0 <= k < |es| && es[k].memberId == id ==> es[k].handle.Invalid?
    ensures Missing(es, r) == Missing(fs, r) + Entries(Only(es, id), r)
    ensures EntriesFor(es, i, r) == EntriesFor(fs, i, r) && Kept(es, i) == Kept(fs, i)
    ensures KeptFor(es, i, r) == KeptFor(fs, i, r)
  {
    if es != [] {
      HandedCounts(es[1..], fs[1..], id, h, i, r);
      assert Only(es, id) == (if es[0].memberId == id then [es[0]] else []) + Only(es[1..], id);
      assert es[0].memberId == id ==> Only(es, id)[1..] == Only(es[1..], id);
      assert es[0].memberId != id ==> Only(es, id) == Only(es[1..], id);
    }
  }

  /** The entries of an id, by looking at every element. */
  function Only(es: seq<Element>, id: int): seq<Element> {
    if es == [] then []
    else (if es[0].memberId == id then [es[0]] else []) + Only(es[1..], id)
  }

  lemma {:induction false} OnlyIsRange(es: seq<Element>, lo: nat, hi: nat, id: int)
    requires lo <= hi <= |es|
    requires forall k :: 0 <= k < |es| ==> (lo <= k < hi <==> es[k].memberId == id)
    ensures Only(es, id) == es[lo..hi]
  {
    if es == [] {
    } else if lo == 0 && hi > 0 {
      assert es[0..hi] == [es[0]] + es[1..hi];
      OnlyIsRange(es[1..], 0, hi - 1, id);
    } else if lo == 0 {
      OnlyIsRange(es[1..], 0, 0, id);
    } else {
      OnlyIsRange(es[1..], lo - 1, hi - 1, id);
    }
  }

  lemma {:induction false} KeptOfOnly(es: seq<Element>, id: int)
    ensures Kept(Only(es, id), id) == Kept(es, id)
  {
    if es != [] {
      KeptOfOnly(es[1..], id);
      assert Only(es, id) == (if es[0].memberId == id then [es[0]] else []) + Only(es[1..], id);
      assert es[0].memberId == id ==> Only(es, id)[1..] == Only(es[1..], id);
      assert es[0].memberId != id ==> Only(es, id) == Only(es[1..], id);
    }
  }

  /** Adding an object keeps handles and stash exact. */
  lemma AddingKeepsHandles(es: seq<Element>, fs: seq<Element>, id: int, items: map<nat, int>, next: nat)
    requires HandlesOk(es, items, next) && Handed(es, fs, id, Slot(next))
    requires forall s :: s in items ==> s < next
    requires forall k :: 0 <= k < |es| && es[k].memberId == id ==> es[k].handle.Invalid? && !es[k].IsRemoved()
    ensures HandlesOk(fs, items[next := id], next + 1)
  {
    forall j | 0 <= j < |fs| && fs[j].handle.Slot?
      ensures fs[j].handle.slot < next + 1
      ensures fs[j].handle.slot in items[next := id] <==> Kept(fs, fs[j].memberId) > 0
      ensures fs[j].handle.slot in items[next := id] ==> items[next := id][fs[j].handle.slot] == fs[j].memberId
    {
      HandedCounts(es, fs, id, Slot(next), fs[j].memberId, 0);
      NoneKept(fs, id);
      if es[j].memberId != id {
        assert es[j].handle.Slot? && es[j].handle.slot < next;
      }
    }
  }
}
