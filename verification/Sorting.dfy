/** What std::sort promises: a permutation in ascending order of a key; nothing about equal keys. */
module Sorting {

  ghost predicate SortedBy<T>(s: seq<T>, key: T -> int) {
    forall i, j :: 0 <= i < j < |s| ==> key(s[i]) <= key(s[j])
  }

  ghost predicate StrictlyBy<T>(s: seq<T>, key: T -> int) {
    forall i, j :: 0 <= i < j < |s| ==> key(s[i]) < key(s[j])
  }

  ghost predicate IsSortOf<T>(r: seq<T>, s: seq<T>, key: T -> int) {
    SortedBy(r, key) && multiset(r) == multiset(s)
  }

  function Insert<T>(x: T, s: seq<T>, key: T -> int): seq<T> {
    if s == [] || key(x) <= key(s[0]) then [x] + s else [s[0]] + Insert(x, s[1..], key)
  }

  lemma SplitHead<T>(s: seq<T>)
    requires s != []
    ensures multiset(s) == multiset{s[0]} + multiset(s[1..])
  {
    assert s == [s[0]] + s[1..];
  }

  lemma {:induction false} InsertCounts<T>(x: T, s: seq<T>, key: T -> int)
    ensures multiset(Insert(x, s, key)) == multiset{x} + multiset(s)
  {
    if s != [] {
      SplitHead(s);
      InsertCounts(x, s[1..], key);
    }
  }

  lemma InsertMembers<T>(x: T, s: seq<T>, key: T -> int, i: nat)
    requires i < |Insert(x, s, key)|
    ensures Insert(x, s, key)[i] == x || Insert(x, s, key)[i] in s
  {
    InsertCounts(x, s, key);
    assert Insert(x, s, key)[i] in multiset(Insert(x, s, key));
  }

  lemma {:induction false} InsertSorts<T>(x: T, s: seq<T>, key: T -> int)
    requires SortedBy(s, key)
    ensures SortedBy(Insert(x, s, key), key)
  {
    if s == [] || key(x) <= key(s[0]) {
    } else {
      var rest := Insert(x, s[1..], key);
      InsertSorts(x, s[1..], key);
      forall i | 0 <= i < |rest| ensures key(s[0]) <= key(rest[i]) { InsertMembers(x, s[1..], key, i); }
    }
  }

  /** One arrangement among those that std::sort may choose. */
  function Sort<T>(s: seq<T>, key: T -> int): seq<T> {
    if s == [] then [] else Insert(s[|s| - 1], Sort(s[..|s| - 1], key), key)
  }

  lemma {:induction false} SortSorts<T>(s: seq<T>, key: T -> int)
    ensures IsSortOf(Sort(s, key), s, key)
  {
    if s != [] {
      var front, last := s[..|s| - 1], s[|s| - 1];
      SortSorts(front, key);
      InsertCounts(last, Sort(front, key), key);
      InsertSorts(last, Sort(front, key), key);
      assert s == front + [last];
    }
  }

  method SortBy<T>(s: seq<T>, key: T -> int) returns (r: seq<T>)
    ensures IsSortOf(r, s, key) && r == Sort(s, key)
  {
    hide Insert;
    SortSorts(s, key);
    r := [];
    for i := 0 to |s|
      invariant r == Sort(s[..i], key)
    {
      assert s[..i + 1][..i] == s[..i];
      r := Insert(s[i], r, key);
    }
    assert s[..|s|] == s;
  }

  lemma SameHead<T>(r: seq<T>, e: seq<T>, key: T -> int)
    requires StrictlyBy(e, key) && SortedBy(r, key) && r != [] && e != []
    requires e[0] in r && r[0] in e
    ensures r[0] == e[0]
  {
    var i :| 0 <= i < |r| && r[i] == e[0];
    var j :| 0 <= j < |e| && e[j] == r[0];
    assert key(r[0]) <= key(r[i]);
    assert j == 0;
  }

  lemma Cancel<T>(m: multiset<T>, a: multiset<T>, b: multiset<T>)
    requires m + a == m + b
    ensures a == b
  {
    forall x ensures a[x] == b[x] { assert (m + a)[x] == (m + b)[x]; }
  }

  lemma Rotated<T>(s: seq<T>, k: nat)
    requires k <= |s|
    ensures multiset(s[k..] + s[..k]) == multiset(s)
  {
    assert s == s[..k] + s[k..];
  }

  /** If the keys of one arrangement are all different, there is no other sorted arrangement. */
  lemma {:induction false} OneSortedArrangement<T>(r: seq<T>, e: seq<T>, key: T -> int)
    requires StrictlyBy(e, key) && SortedBy(r, key) && multiset(r) == multiset(e)
    ensures r == e
    decreases |r|
  {
    assert |r| == |multiset(r)| == |multiset(e)| == |e|;
    if r != [] {
      assert e[0] in multiset(e) && r[0] in multiset(r);
      SameHead(r, e, key);
      SplitHead(r);
      SplitHead(e);
      Cancel(multiset{r[0]}, multiset(r[1..]), multiset(e[1..]));
      TailsSorted(r, e, key);
      OneSortedArrangement(r[1..], e[1..], key);
      assert r == [r[0]] + r[1..] && e == [e[0]] + e[1..];
    }
  }

  lemma TailsSorted<T>(r: seq<T>, e: seq<T>, key: T -> int)
    requires StrictlyBy(e, key) && SortedBy(r, key) && r != [] && e != []
    ensures StrictlyBy(e[1..], key) && SortedBy(r[1..], key)
  {
  }
}
