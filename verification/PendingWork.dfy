/** The lists of pending ids in src/diff_handler2.cpp: crossing off the ids that the diff contains, and
    `clean_up_container_and_work_on`. */
module PendingWork {
  import opened Sorting
  import opened Wrappers

  function Id(x: int): int { x }

  ghost predicate Ascending(s: seq<int>) { forall i, j :: 0 <= i < j < |s| ==> s[i] <= s[j] }

  ghost predicate StrictlyAscending(s: seq<int>) { forall i, j :: 0 <= i < j < |s| ==> s[i] < s[j] }

  // ----- sort and unique

  /** std::unique: drop every element that equals the one kept before it. */
  function Unique(s: seq<int>): (r: seq<int>)
    ensures |r| > 0 <==> |s| > 0
  {
    if |s| <= 1 then s
    else
      var u := Unique(s[..|s| - 1]);
      if u[|u| - 1] == s[|s| - 1] then u else u + [s[|s| - 1]]
  }

  lemma {:induction false} UniqueOfSorted(s: seq<int>)
    requires Ascending(s)
    ensures StrictlyAscending(Unique(s))
    ensures forall x :: x in Unique(s) <==> x in s
    ensures s != [] ==> Unique(s)[|Unique(s)| - 1] == s[|s| - 1]
  {
    if |s| > 1 {
      var front, last := s[..|s| - 1], s[|s| - 1];
      UniqueOfSorted(front);
      assert s == front + [last];
      var u := Unique(front);
      assert u[|u| - 1] == front[|front| - 1] == s[|s| - 2] <= last;
    }
  }

  /** The two statements that `write_new_nodes` and `write_new_ways` share. */
  method SortUnique(pending: seq<int>) returns (r: seq<int>)
    ensures StrictlyAscending(r) && forall x :: x in r <==> x in pending
  {
    r := SortBy(pending, Id);
    assert Ascending(r);
    SameElements(r, pending);
    UniqueOfSorted(r);
    r := Unique(r);
  }

  lemma SameElements(r: seq<int>, s: seq<int>)
    requires multiset(r) == multiset(s)
    ensures forall x :: x in r <==> x in s
  {
    forall x ensures x in r <==> x in s { assert x in multiset(r) <==> x in multiset(s); }
  }

  // ----- crossing off

  /** The search of `way` and `relation` from the saved index on. */
  function Search(pending: seq<int>, from: nat, id: int): Option<nat>
    decreases |pending| - from
  {
    if from >= |pending| then None
    else if pending[from] == id then Some(from)
    else if pending[from] > id then None
    else Search(pending, from + 1, id)
  }

  method CrossOff(pending: seq<int>, idx: nat, id: int) returns (p: seq<int>, i: nat)
    ensures match Search(pending, idx, id)
            case None => p == pending && i == idx
            case Some(found) => found < |pending| && p == pending[found := 0] && i == found
  {
    p, i := pending, idx;
    var found := idx;
    while found < |pending|
      invariant idx <= found
      invariant p == pending && i == idx
      invariant Search(pending, idx, id) == Search(pending, found, id)
      decreases |pending| - found
    {
      if p[found] == id {
        p := p[found := 0];
        i := found;
        break;
      }
      if p[found] > id {
        break;
      }
      found := found + 1;
    }
  }

  /** The list after the ids of the diff have been crossed off. */
  function Crossed(pending: seq<int>, done: set<int>): (r: seq<int>)
    ensures |r| == |pending| && forall i :: 0 <= i < |r| ==> r[i] == if pending[i] in done then 0 else pending[i]
  {
    seq(|pending|, i requires 0 <= i < |pending| => if pending[i] in done then 0 else pending[i])
  }

  /** State of the cursor after ids up to `last` have been crossed off: nothing before it is still to come. */
  ghost predicate Cursor(original: seq<int>, pending: seq<int>, idx: nat, done: set<int>, last: int) {
    && StrictlyAscending(original)
    && pending == Crossed(original, done)
    && idx <= |original|
    && (forall i :: 0 <= i < idx ==> original[i] < last)
    && (forall d :: d in done ==> 0 < d <= last)
  }

  lemma {:induction false} SearchFinds(original: seq<int>, pending: seq<int>, from: nat, done: set<int>, last: int,
                                       id: int)
    requires Cursor(original, pending, from, done, last) && last <= id && 0 < id
    ensures match Search(pending, from, id)
            case Some(found) => from <= found < |pending| && original[found] == id && id !in done
            case None => id in original ==> id in done
    decreases |pending| - from
  {
    if from < |pending| {
      if pending[from] < id {
        SearchFurther(original, pending, from, done, last, id);
      } else {
        assert pending[from] != 0 && pending[from] == original[from];
        forall i | 0 <= i < |original| ensures original[i] == id ==> i == from && pending[from] == id {
        }
      }
    }
  }

  lemma {:induction false} SearchFurther(original: seq<int>, pending: seq<int>, from: nat, done: set<int>,
                                         last: int, id: int)
    requires Cursor(original, pending, from, done, last) && last <= id && 0 < id
    requires from < |pending| && pending[from] < id
    ensures match Search(pending, from, id)
            case Some(found) => from <= found < |pending| && original[found] == id && id !in done
            case None => id in original ==> id in done
    decreases |pending| - from, 0
  {
    if original[from] < id {
      assert Cursor(original, pending, from + 1, done, id);
      SearchFinds(original, pending, from + 1, done, id, id);
    } else {
      // the entry has been crossed off
      assert original[from] == last == id;
    }
  }

  /** One search keeps the state of the cursor and crosses off exactly the id. */
  lemma CursorStep(original: seq<int>, pending: seq<int>, idx: nat, done: set<int>, last: int, id: int)
    requires Cursor(original, pending, idx, done, last) && last <= id && 0 < id
    ensures match Search(pending, idx, id)
            case Some(found) => found < |pending| && Cursor(original, pending[found := 0], found, done + {id}, id)
            case None => Cursor(original, pending, idx, done + {id}, id)
  {
    SearchFinds(original, pending, idx, done, last, id);
    match Search(pending, idx, id)
    case Some(found) =>
      forall i | 0 <= i < |original| ensures pending[found := 0][i] == Crossed(original, done + {id})[i] {
      }
    case None =>
      forall i | 0 <= i < |original| ensures pending[i] == Crossed(original, done + {id})[i] {
        if original[i] == id { assert id in original; }
      }
  }

  function Elements(ids: seq<int>): set<int> { set x | x in ids }

  /** Main result on the cursor: if the ids of the diff arrive in ascending order, searching from the saved
      index crosses off exactly the pending ids that the diff contains. */
  method CrossOffAll(pending: seq<int>, ids: seq<int>) returns (p: seq<int>)
    requires StrictlyAscending(pending) && Ascending(ids) && forall i :: 0 <= i < |ids| ==> 0 < ids[i]
    ensures p == Crossed(pending, Elements(ids))
  {
    p := pending;
    var idx := 0;
    ghost var last := 0;
    for i := 0 to |ids|
      invariant Cursor(pending, p, idx, Elements(ids[..i]), last)
      invariant forall j :: i <= j < |ids| ==> last <= ids[j]
    {
      hide Cursor, Crossed, Search;
      CursorStep(pending, p, idx, Elements(ids[..i]), last, ids[i]);
      assert Elements(ids[..i + 1]) == Elements(ids[..i]) + {ids[i]} by { assert ids[..i + 1] == ids[..i] + [ids[i]]; }
      p, idx := CrossOff(p, idx, ids[i]);
      last := ids[i];
    }
    assert ids[..|ids|] == ids;
  }

  // ----- cleaning up

  /** The second loop of `clean_up_container_and_work_on`: positive ids in order, each one once. */
  method CallEach(ids: seq<int>) returns (calls: seq<int>)
    requires Ascending(ids) && forall i :: 0 <= i < |ids| ==> ids[i] > 0
    ensures StrictlyAscending(calls) && forall x :: x in calls <==> x in ids
  {
    calls := [];
    var last := 0;
    for it := 0 to |ids|
      invariant calls == Unique(ids[..it])
      invariant last == if calls == [] then 0 else calls[|calls| - 1]
    {
      UniqueStep(ids, it);
      if last != ids[it] {
        calls := calls + [ids[it]];
        last := ids[it];
      }
    }
    assert ids[..|ids|] == ids;
    UniqueOfSorted(ids);
  }

  lemma UniqueStep(ids: seq<int>, it: nat)
    requires it < |ids|
    ensures var u := Unique(ids[..it]);
            Unique(ids[..it + 1]) == if u != [] && u[|u| - 1] == ids[it] then u else u + [ids[it]]
  {
    assert ids[..it + 1][..it] == ids[..it];
    if it == 0 { assert ids[..1] == [] + [ids[0]]; }
  }

  /** `clean_up_container_and_work_on`: the sorted container and the ids for which the function is called. */
  method CleanUp(container: seq<int>) returns (sorted: seq<int>, calls: seq<int>)
    ensures IsSortOf(sorted, container, Id)
    ensures StrictlyAscending(calls)
    ensures forall x :: x in calls <==> x in container && x > 0 && !SteppedOver(container, x)
  {
    hide SteppedOver;
    sorted := SortBy(container, Id);
    assert Ascending(sorted);
    calls := [];
    var it := 0;
    while it < |sorted| && sorted[it] <= 0
      invariant it <= |sorted|
      invariant forall i :: 0 <= i < it ==> sorted[i] <= 0
    {
      it := it + 1;
    }
    if it == |sorted| {
      SameElements(sorted, container);
      return;
    }
    BehindFirst(sorted, container, it);
    it := it + 1;
    calls := CallEach(sorted[it..]);
  }

  /** The smallest positive id, if it is in the list only once. */
  ghost predicate SteppedOver(container: seq<int>, x: int) {
    multiset(container)[x] == 1 && forall y :: y in container && y > 0 ==> x <= y
  }

  lemma BehindFirst(sorted: seq<int>, container: seq<int>, first: nat)
    requires Ascending(sorted) && multiset(sorted) == multiset(container)
    requires first < |sorted| && sorted[first] > 0 && forall i :: 0 <= i < first ==> sorted[i] <= 0
    ensures forall x :: x in sorted[first + 1..] <==> x in container && x > 0 && !SteppedOver(container, x)
  {
    SameElements(sorted, container);
    var p := sorted[first];
    assert p in sorted;
    forall y | y in container && y > 0 ensures p <= y {
      var i :| 0 <= i < |sorted| && sorted[i] == y;
    }
    forall x ensures x in sorted[first + 1..] <==> x in container && x > 0 && !SteppedOver(container, x) {
      CountBehind(sorted, first, x);
    }
  }

  /** How often an id occurs behind the first positive one. */
  lemma CountBehind(sorted: seq<int>, first: nat, x: int)
    requires Ascending(sorted) && first < |sorted|
    requires sorted[first] > 0 && forall i :: 0 <= i < first ==> sorted[i] <= 0
    ensures x in sorted[first + 1..] ==> x in sorted && x > 0
    ensures x > 0 ==> (x in sorted[first + 1..] <==> multiset(sorted)[x] > if x == sorted[first] then 1 else 0)
    ensures x in sorted <==> multiset(sorted)[x] > 0
  {
    var front, p, rest := sorted[..first], sorted[first], sorted[first + 1..];
    assert sorted == front + [p] + rest;
    assert multiset(sorted) == multiset(front) + multiset{p} + multiset(rest);
    assert x in rest <==> multiset(rest)[x] > 0;
    if x > 0 { assert x !in front; }
    assert forall i :: 0 <= i < |rest| ==> rest[i] == sorted[first + 1 + i];
  }

  /** The header promises a call for each non-zero element. That holds exactly if there are no negative ids
      and the smallest positive id, if there is one, is in the container more than once. */
  lemma HeaderPromise(container: seq<int>, calls: seq<int>)
    requires forall x :: x in calls <==> x in container && x > 0 && !SteppedOver(container, x)
    ensures (forall x :: x in calls <==> x in container && x != 0) <==>
            (forall x :: x in container ==> x >= 0 && (x > 0 ==> !SteppedOver(container, x)))
  {
    if forall x :: x in calls <==> x in container && x != 0 {
      forall x | x in container ensures x >= 0 && (x > 0 ==> !SteppedOver(container, x)) {
        if x != 0 { assert x in calls; }
      }
    }
  }

  lemma {:induction false} OnceInStrict(s: seq<int>, x: int)
    requires StrictlyAscending(s)
    ensures multiset(s)[x] <= 1
  {
    if s != [] {
      SplitHead(s);
      OnceInStrict(s[1..], x);
      assert s[0] !in s[1..];
      assert multiset(s[1..])[s[0]] == 0;
    }
  }

  /** After `SortUnique` every id is in the list once, so a list of positive ids always loses its
      smallest id. */
  lemma UniqueLosesSmallest(container: seq<int>, x: int)
    requires StrictlyAscending(container) && x in container && x > 0 && forall y :: y in container && y > 0 ==> x <= y
    ensures SteppedOver(container, x)
  {
    OnceInStrict(container, x);
    assert x in multiset(container);
  }
}
