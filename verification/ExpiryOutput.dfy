/** The list of expired tiles (`output_and_destroy` in src/expire_tiles_quadtree.cpp): for each
    dirty code in ascending order and each zoom level from the finest to the coarsest, one line
    z/x/y unless the same code number has been printed before. */
module ExpiryOutput {
  import opened Ints
  import opened QuadtreeCode

  datatype Line = Line(zoom: int, x: int, y: int)

  /** A code about to be printed at a zoom level. */
  datatype Candidate = Candidate(zoom: int, code: int)

  ghost predicate IsLeast(m: int, s: set<int>) {
    m in s && forall k :: k in s ==> m <= k
  }

  lemma {:induction false} MinExists(s: set<int>) returns (m: int)
    requires exists a :: a in s
    ensures IsLeast(m, s)
    decreases |s|
  {
    var a :| a in s;
    m := a;
    var rest := s - {a};
    if exists b :: b in rest {
      var r := MinExists(rest);
      m := if a <= r then a else r;
    }
    forall k | k in s ensures m <= k { assert k == a || k in rest; }
  }

  lemma LeastExists(s: set<int>)
    requires s != {}
    ensures exists m :: IsLeast(m, s)
  {
    assert (forall a :: a !in s) ==> s == {};
    var m := MinExists(s);
  }

  function Least(s: set<int>): (m: int)
    requires s != {}
    ensures m in s && forall k :: k in s ==> m <= k
  {
    LeastExists(s);
    var m :| m in s && forall k :: k in s ==> m <= k;
    m
  }

  /** A key k zoom levels up: the code shifted by k bit pairs. */
  function StepOf(key: int, k: nat, maxZoom: int): Candidate { Candidate(maxZoom - k, Shr(key, 2 * k)) }

  /** The candidates of one key, from step dz on. */
  function Steps(key: int, dz: nat, maxZoom: int, minZoom: int): seq<Candidate>
    decreases maxZoom - minZoom + 1 - dz
  {
    if dz > maxZoom - minZoom then []
    else [StepOf(key, dz, maxZoom)] + Steps(key, dz + 1, maxZoom, minZoom)
  }

  /** All candidates in the order of the program. */
  function Candidates(keys: set<int>, maxZoom: int, minZoom: int): seq<Candidate>
    decreases |keys|
  {
    if keys == {} then []
    else Steps(Least(keys), 0, maxZoom, minZoom) + Candidates(keys - {Least(keys)}, maxZoom, minZoom)
  }

  /** The `std::set::insert` filter: a candidate passes if its code has not passed before. */
  function FirstPerCode(cs: seq<Candidate>, seen: set<int>): seq<Candidate> {
    if cs == [] then []
    else if cs[0].code in seen then FirstPerCode(cs[1..], seen)
    else [cs[0]] + FirstPerCode(cs[1..], seen + {cs[0].code})
  }

  function LineOf(c: Candidate): Line
    requires 0 <= c.zoom <= 16
  {
    var t := Decode(c.code, c.zoom);
    Line(c.zoom, t.x, t.y)
  }

  predicate ZoomsIn(cs: seq<Candidate>) {
    forall i :: 0 <= i < |cs| ==> 0 <= cs[i].zoom <= 16
  }

  function Lines(cs: seq<Candidate>): (ls: seq<Line>)
    requires ZoomsIn(cs)
    ensures |ls| == |cs| && forall i :: 0 <= i < |cs| ==> ls[i] == LineOf(cs[i])
  {
    if cs == [] then [] else [LineOf(cs[0])] + Lines(cs[1..])
  }

  function Printed(keys: set<int>, maxZoom: int, minZoom: int): seq<Candidate> {
    FirstPerCode(Candidates(keys, maxZoom, minZoom), {})
  }

  // ----- what passes the filter

  lemma {:induction false} FilterKeepsUnseen(cs: seq<Candidate>, seen: set<int>, c: Candidate)
    requires c in FirstPerCode(cs, seen)
    ensures c in cs && c.code !in seen
  {
    if cs[0].code in seen {
      FilterKeepsUnseen(cs[1..], seen, c);
    } else if c != cs[0] {
      FilterKeepsUnseen(cs[1..], seen + {cs[0].code}, c);
    }
  }

  lemma {:induction false} FilterCoversUnseen(cs: seq<Candidate>, seen: set<int>, c: Candidate) returns (o: Candidate)
    requires c in cs && c.code !in seen
    ensures o in FirstPerCode(cs, seen) && o.code == c.code
  {
    if cs[0].code in seen {
      o := FilterCoversUnseen(cs[1..], seen, c);
    } else if c.code == cs[0].code {
      o := cs[0];
      assert FirstPerCode(cs, seen)[0] == o;
    } else {
      o := FilterCoversUnseen(cs[1..], seen + {cs[0].code}, c);
      assert o in [cs[0]] + FirstPerCode(cs[1..], seen + {cs[0].code});
    }
  }

  lemma {:induction false} FilterDistinct(cs: seq<Candidate>, seen: set<int>, i: nat, j: nat)
    requires i < j < |FirstPerCode(cs, seen)|
    ensures FirstPerCode(cs, seen)[i].code != FirstPerCode(cs, seen)[j].code
  {
    if cs[0].code in seen {
      FilterDistinct(cs[1..], seen, i, j);
    } else {
      var later := FirstPerCode(cs[1..], seen + {cs[0].code});
      if i == 0 {
        FilterKeepsUnseen(cs[1..], seen + {cs[0].code}, later[j - 1]);
      } else {
        FilterDistinct(cs[1..], seen + {cs[0].code}, i - 1, j - 1);
      }
    }
  }

  lemma {:induction false} StepsContents(key: int, dz: nat, maxZoom: int, minZoom: int, c: Candidate)
    ensures c in Steps(key, dz, maxZoom, minZoom) <==>
            exists k: nat :: dz <= k <= maxZoom - minZoom && c == StepOf(key, k, maxZoom)
    decreases maxZoom - minZoom + 1 - dz
  {
    hide StepOf;
    if dz <= maxZoom - minZoom {
      var tail := Steps(key, dz + 1, maxZoom, minZoom);
      assert Steps(key, dz, maxZoom, minZoom) == [StepOf(key, dz, maxZoom)] + tail;
      StepsContents(key, dz + 1, maxZoom, minZoom, c);
      if k: nat :| dz <= k <= maxZoom - minZoom && c == StepOf(key, k, maxZoom) {
        assert k == dz || dz + 1 <= k;
      }
    }
  }

  /** A candidate is a dirty code shifted by an allowed step. */
  ghost predicate Requested(keys: set<int>, maxZoom: int, minZoom: int, c: Candidate) {
    exists key, k: nat :: key in keys && k <= maxZoom - minZoom && c == StepOf(key, k, maxZoom)
  }

  lemma {:induction false} CandidatesContents(keys: set<int>, maxZoom: int, minZoom: int, c: Candidate)
    ensures c in Candidates(keys, maxZoom, minZoom) <==> Requested(keys, maxZoom, minZoom, c)
    decreases |keys|
  {
    if keys != {} {
      var m := Least(keys);
      StepsContents(m, 0, maxZoom, minZoom, c);
      CandidatesContents(keys - {m}, maxZoom, minZoom, c);
      if Requested(keys, maxZoom, minZoom, c) {
        var key, k: nat :| key in keys && k <= maxZoom - minZoom && c == StepOf(key, k, maxZoom);
        assert key == m || key in keys - {m};
        if key != m { assert Requested(keys - {m}, maxZoom, minZoom, c); }
      }
    }
  }

  /** Codes printed = dirty codes shifted by every allowed step ... */
  lemma PrintedIsRequested(keys: set<int>, maxZoom: int, minZoom: int, c: Candidate)
    requires c in Printed(keys, maxZoom, minZoom)
    ensures Requested(keys, maxZoom, minZoom, c)
  {
    FilterKeepsUnseen(Candidates(keys, maxZoom, minZoom), {}, c);
    CandidatesContents(keys, maxZoom, minZoom, c);
  }

  lemma RequestedCodeIsPrinted(keys: set<int>, maxZoom: int, minZoom: int, c: Candidate) returns (o: Candidate)
    requires Requested(keys, maxZoom, minZoom, c)
    ensures o in Printed(keys, maxZoom, minZoom) && o.code == c.code
  {
    CandidatesContents(keys, maxZoom, minZoom, c);
    o := FilterCoversUnseen(Candidates(keys, maxZoom, minZoom), {}, c);
  }

  /** ... and each code once. */
  lemma PrintedOnce(keys: set<int>, maxZoom: int, minZoom: int, c: Candidate, d: Candidate)
    requires c in Printed(keys, maxZoom, minZoom) && d in Printed(keys, maxZoom, minZoom) && c.code == d.code
    ensures c == d
  {
    var out := Printed(keys, maxZoom, minZoom);
    var i :| 0 <= i < |out| && out[i] == c;
    var j :| 0 <= j < |out| && out[j] == d;
    if i < j {
      FilterDistinct(Candidates(keys, maxZoom, minZoom), {}, i, j);
    } else if j < i {
      FilterDistinct(Candidates(keys, maxZoom, minZoom), {}, j, i);
    }
  }

  // ----- which zoom level wins

  lemma {:induction false} FilterPasses(cs: seq<Candidate>, seen: set<int>, i: nat)
    requires i < |cs| && cs[i].code !in seen && forall j :: 0 <= j < i ==> cs[j].code != cs[i].code
    ensures cs[i] in FirstPerCode(cs, seen)
  {
    if i == 0 {
      assert FirstPerCode(cs, seen)[0] == cs[0];
    } else if cs[0].code in seen {
      FilterPasses(cs[1..], seen, i - 1);
    } else {
      FilterPasses(cs[1..], seen + {cs[0].code}, i - 1);
    }
  }

  lemma {:induction false} StepsAt(key: int, dz: nat, maxZoom: int, minZoom: int, j: nat)
    requires dz + j <= maxZoom - minZoom
    ensures |Steps(key, dz, maxZoom, minZoom)| == maxZoom - minZoom + 1 - dz
    ensures Steps(key, dz, maxZoom, minZoom)[j] == StepOf(key, dz + j, maxZoom)
    decreases maxZoom - minZoom - dz
  {
    if dz < maxZoom - minZoom { StepsAt(key, dz + 1, maxZoom, minZoom, if j == 0 then 0 else j - 1); }
  }

  /** The program comes to smaller codes first, and for one code to finer zoom levels first. */
  predicate Earlier(key': int, k': nat, key: int, k: nat) { key' < key || (key' == key && k' < k) }

  ghost predicate FromEarlier(keys: set<int>, maxZoom: int, minZoom: int, key: int, k: nat, c: Candidate) {
    exists key', k': nat :: key' in keys && k' <= maxZoom - minZoom && Earlier(key', k', key, k)
                            && c == StepOf(key', k', maxZoom)
  }

  lemma {:induction false} CandidateAt(keys: set<int>, maxZoom: int, minZoom: int, key: int, k: nat) returns (i: nat)
    requires key in keys && k <= maxZoom - minZoom
    ensures var cs := Candidates(keys, maxZoom, minZoom);
            && i < |cs| && cs[i] == StepOf(key, k, maxZoom)
            && forall j :: 0 <= j < i ==> FromEarlier(keys, maxZoom, minZoom, key, k, cs[j])
    decreases |keys|
  {
    hide Steps, StepOf;
    var m := Least(keys);
    var cs := Candidates(keys, maxZoom, minZoom);
    var steps, later := Steps(m, 0, maxZoom, minZoom), Candidates(keys - {m}, maxZoom, minZoom);
    StepsAt(m, 0, maxZoom, minZoom, 0);
    var n := 0;
    if key == m {
      i := k;
      n := k;
      StepsAt(m, 0, maxZoom, minZoom, k);
    } else {
      var at := CandidateAt(keys - {m}, maxZoom, minZoom, key, k);
      n := |steps|;
      i := n + at;
      forall j | n <= j < i ensures FromEarlier(keys, maxZoom, minZoom, key, k, cs[j]) {
        assert FromEarlier(keys - {m}, maxZoom, minZoom, key, k, later[j - n]);
      }
    }
    forall j | 0 <= j < n ensures FromEarlier(keys, maxZoom, minZoom, key, k, cs[j]) {
      StepsAt(m, 0, maxZoom, minZoom, j);
      assert Earlier(m, j, key, k);
    }
  }

  /** Of all tiles with one code number, exactly that line is printed to which the program comes first: for the
      smallest dirty code, at the finest zoom level. */
  lemma PrintedZoom(keys: set<int>, maxZoom: int, minZoom: int, key: int, k: nat, zoom: int)
    requires key in keys && k <= maxZoom - minZoom
    requires forall key', k': nat :: key' in keys && k' <= maxZoom - minZoom && Earlier(key', k', key, k) ==>
               Shr(key', 2 * k') != Shr(key, 2 * k)
    ensures Candidate(zoom, Shr(key, 2 * k)) in Printed(keys, maxZoom, minZoom) <==> zoom == maxZoom - k
  {
    var cs, c := Candidates(keys, maxZoom, minZoom), StepOf(key, k, maxZoom);
    var i := CandidateAt(keys, maxZoom, minZoom, key, k);
    forall j | 0 <= j < i ensures cs[j].code != c.code {
      assert FromEarlier(keys, maxZoom, minZoom, key, k, cs[j]);
    }
    FilterPasses(cs, {}, i);
    var d := Candidate(zoom, c.code);
    if d in Printed(keys, maxZoom, minZoom) { PrintedOnce(keys, maxZoom, minZoom, c, d); }
  }

  predicate DirtyCodes(keys: set<int>, maxZoom: nat) {
    forall key :: key in keys ==> ValidCode(key, maxZoom)
  }

  lemma PrintedZooms(keys: set<int>, maxZoom: nat, minZoom: nat)
    requires maxZoom <= 16
    ensures ZoomsIn(Printed(keys, maxZoom, minZoom))
  {
    var out := Printed(keys, maxZoom, minZoom);
    forall i | 0 <= i < |out|
      ensures 0 <= out[i].zoom <= 16
    {
      PrintedIsRequested(keys, maxZoom, minZoom, out[i]);
    }
  }

  lemma RequestedLine(keys: set<int>, maxZoom: nat, minZoom: nat, key: int, k: nat)
    requires maxZoom <= 15 && DirtyCodes(keys, maxZoom) && key in keys && k <= maxZoom - minZoom
    ensures ValidCode(Shr(key, 2 * k), maxZoom - k)
    ensures LineOf(StepOf(key, k, maxZoom)) ==
            var a := Ancestor(TileOf(key, maxZoom), k); Line(maxZoom - k, a.x, a.y)
  {
    ShiftedCodeValid(key, maxZoom - k, k);
    TileOfShift(key, maxZoom, k);
  }

  // ----- the file

  /** Every printed line is a dirty tile or one of its ancestors, inside the zoom range. */
  lemma OutputSound(keys: set<int>, maxZoom: nat, minZoom: nat, i: nat)
    requires maxZoom <= 15 && DirtyCodes(keys, maxZoom)
    requires i < |Printed(keys, maxZoom, minZoom)|
    ensures ZoomsIn(Printed(keys, maxZoom, minZoom))
    ensures exists key, k: nat :: key in keys && k <= maxZoom - minZoom &&
              Lines(Printed(keys, maxZoom, minZoom))[i] ==
              Line(maxZoom - k, Ancestor(TileOf(key, maxZoom), k).x, Ancestor(TileOf(key, maxZoom), k).y)
  {
    PrintedZooms(keys, maxZoom, minZoom);
    var c := Printed(keys, maxZoom, minZoom)[i];
    PrintedIsRequested(keys, maxZoom, minZoom, c);
    var key, k: nat :| key in keys && k <= maxZoom - minZoom && c == StepOf(key, k, maxZoom);
    RequestedLine(keys, maxZoom, minZoom, key, k);
  }

  /** No line is printed twice. */
  lemma OutputHasNoRepeats(keys: set<int>, maxZoom: nat, minZoom: nat, i: nat, j: nat)
    requires maxZoom <= 15 && DirtyCodes(keys, maxZoom)
    requires i < j < |Printed(keys, maxZoom, minZoom)|
    ensures ZoomsIn(Printed(keys, maxZoom, minZoom))
    ensures Lines(Printed(keys, maxZoom, minZoom))[i] != Lines(Printed(keys, maxZoom, minZoom))[j]
  {
    PrintedZooms(keys, maxZoom, minZoom);
    FilterDistinct(Candidates(keys, maxZoom, minZoom), {}, i, j);
    var out := Printed(keys, maxZoom, minZoom);
    PrintedIsRequested(keys, maxZoom, minZoom, out[i]);
    PrintedIsRequested(keys, maxZoom, minZoom, out[j]);
    if out[i].zoom == out[j].zoom {
      PrintedValid(keys, maxZoom, minZoom, out[i]);
      PrintedValid(keys, maxZoom, minZoom, out[j]);
      CodesDiffer(out[i].code, out[j].code, out[i].zoom);
    }
  }

  lemma PrintedValid(keys: set<int>, maxZoom: nat, minZoom: nat, c: Candidate)
    requires maxZoom <= 15 && DirtyCodes(keys, maxZoom) && Requested(keys, maxZoom, minZoom, c)
    ensures 0 <= c.zoom <= 15 && ValidCode(c.code, c.zoom)
  {
    var key, k: nat :| key in keys && k <= maxZoom - minZoom && c == StepOf(key, k, maxZoom);
    RequestedLine(keys, maxZoom, minZoom, key, k);
  }

  lemma CodesDiffer(q: int, r: int, z: nat)
    requires z <= 15 && ValidCode(q, z) && ValidCode(r, z) && q != r
    ensures TileOf(q, z) != TileOf(r, z)
  {
    InterleaveTileOf(q, z);
    InterleaveTileOf(r, z);
    LowBitsRange(q, 2 * z);
    LowBitsRange(r, 2 * z);
  }

  /** The documented purpose: every dirty tile and each of its ancestors in the zoom range is listed. */
  ghost predicate Complete(keys: set<int>, maxZoom: int, minZoom: int) {
    forall c :: Requested(keys, maxZoom, minZoom, c) ==> c in Printed(keys, maxZoom, minZoom)
  }

  /** Two different zoom levels ask for the same code number. */
  ghost predicate CodesCollide(keys: set<int>, maxZoom: int, minZoom: int) {
    exists c, d :: Requested(keys, maxZoom, minZoom, c) && Requested(keys, maxZoom, minZoom, d)
                   && c.zoom != d.zoom && c.code == d.code
  }

  /** The list is complete exactly when no code number is needed at two zoom levels: the set of
      printed tiles is keyed by the code alone. */
  lemma CompleteIffNoCollision(keys: set<int>, maxZoom: int, minZoom: int)
    ensures Complete(keys, maxZoom, minZoom) <==> !CodesCollide(keys, maxZoom, minZoom)
  {
    if CodesCollide(keys, maxZoom, minZoom) {
      var c, d :| Requested(keys, maxZoom, minZoom, c) && Requested(keys, maxZoom, minZoom, d)
                  && c.zoom != d.zoom && c.code == d.code;
      if Complete(keys, maxZoom, minZoom) {
        PrintedOnce(keys, maxZoom, minZoom, c, d);
      }
    } else {
      forall c | Requested(keys, maxZoom, minZoom, c)
        ensures c in Printed(keys, maxZoom, minZoom)
      {
        var o := RequestedCodeIsPrinted(keys, maxZoom, minZoom, c);
        PrintedIsRequested(keys, maxZoom, minZoom, o);
      }
    }
  }

  /** With one zoom level the list is exactly the dirty set. */
  lemma SingleZoomIsComplete(keys: set<int>, zoom: int)
    ensures Complete(keys, zoom, zoom)
    ensures forall c :: c in Printed(keys, zoom, zoom) <==> c.zoom == zoom && c.code in keys
  {
    forall c: Candidate
      ensures Requested(keys, zoom, zoom, c) <==> c.zoom == zoom && c.code in keys
    {
      if c.zoom == zoom && c.code in keys {
        assert c == StepOf(c.code, 0, zoom);
      }
    }
    CompleteIffNoCollision(keys, zoom, zoom);
    forall c | c in Printed(keys, zoom, zoom)
      ensures c.zoom == zoom && c.code in keys
    {
      PrintedIsRequested(keys, zoom, zoom, c);
    }
  }

  /** Whatever else is dirty: a dirty tile in the north-west corner loses a line as soon as there is more than one
      zoom level. */
  lemma CornerTileLosesAncestor(keys: set<int>, maxZoom: int, minZoom: nat)
    requires 0 in keys && minZoom < maxZoom
    ensures !Complete(keys, maxZoom, minZoom)
  {
    var c, d := StepOf(0, 0, maxZoom), StepOf(0, 1, maxZoom);
    assert Requested(keys, maxZoom, minZoom, c) && Requested(keys, maxZoom, minZoom, d);
    assert Shr(0, 2) == Shr(0, 1) == 0;
    CompleteIffNoCollision(keys, maxZoom, minZoom);
  }
}
