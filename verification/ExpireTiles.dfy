/** The class ExpireTilesQuadtree of src/expire_tiles_quadtree.cpp: a map of dirty quadtree
    codes, filled by points and line segments in tile coordinates and printed at the end. */
module ExpireTiles {
  import opened Sequences
  import opened Ints
  import opened QuadtreeCode
  import opened TileRaster
  import opened Antimeridian
  import opened ExpiryOutput

  /** `static_cast<int>` of a coordinate: truncation towards zero. */
  function Trunc(r: real): int { if r >= 0.0 then r.Floor else -(-r).Floor }

  lemma CodesUnion(a: set<Tile>, b: set<Tile>, z: nat)
    ensures Codes(a + b, z) == Codes(a, z) + Codes(b, z)
  {
  }

  lemma NoCodes(z: nat)
    ensures Codes({}, z) == {}
  {
  }

  lemma CodesSingleton(t: Tile, z: nat)
    ensures Codes({t}, z) == {CodeOf(t, z)}
  {
  }

  /** One more tile on top of a set of marks. */
  lemma CodesExtend(a: set<Tile>, b: set<Tile>, t: Tile, z: nat)
    requires b == a + {t}
    ensures Codes(b, z) == Codes(a, z) + {CodeOf(t, z)}
  {
    CodesUnion(a, {t}, z);
    CodesSingleton(t, z);
  }

  class ExpireTilesQuadtree {
    const minZoom: int
    const maxZoom: nat
    const mapWidth: int
    /** `m_dirty_tiles` */
    var dirty: map<int, bool>

    /** Shifts of a 32-bit int exist for zoom levels up to 16 in both conversions. */
    ghost predicate Valid() { maxZoom <= 16 && mapWidth == Pow2(maxZoom) }

    constructor (minZoom: int, maxZoom: nat)
      requires 0 <= minZoom && maxZoom <= 16
      ensures Valid() && this.minZoom == minZoom && this.maxZoom == maxZoom
      ensures dirty == map[]
    {
      this.minZoom, this.maxZoom, mapWidth := minZoom, maxZoom, Pow2(maxZoom);
      dirty := map[];
    }

    /** The encoding loop with every addition and shift of the 32-bit int wrapped. */
    static method XyToQuadtree(x: int, y: int, zoom: nat) returns (qt: int)
      requires zoom <= 31
      ensures qt == Encode(x, y, zoom)
    {
      hide Interleave, Wrap32, Shl32, AndBit;
      qt := 0;
      NothingEncoded(x, y);
      for z := 0 to zoom
        invariant qt == Wrap32(Interleave(x, y, z))
      {
        EncodeLoopStep(x, y, z, qt);
        qt := Wrap32(qt + Shl32(AndBit(x, z), z));
        qt := Wrap32(qt + Shl32(AndBit(y, z), z + 1));
      }
    }

    static lemma NothingEncoded(x: int, y: int)
      ensures Wrap32(Interleave(x, y, 0)) == 0
    {
    }

    static lemma EncodeLoopStep(x: int, y: int, z: nat, qt: int)
      requires z <= 30 && qt == Wrap32(Interleave(x, y, z))
      ensures Wrap32(Wrap32(qt + Shl32(AndBit(x, z), z)) + Shl32(AndBit(y, z), z + 1))
              == Wrap32(Interleave(x, y, z + 1))
    {
      hide Wrap32, Shl32, AndBit, BitAt, Interleave;
      ShiftedAndBit(x, z, z);
      ShiftedAndBit(y, z, z + 1);
      EncodeStep(x, y, z, Shl32(AndBit(x, z), z), Shl32(AndBit(y, z), z + 1));
    }

    static lemma EncodeStep(x: int, y: int, z: nat, s: int, t: int)
      requires s == Wrap32(BitAt(x, z, 2 * z)) && t == Wrap32(BitAt(y, z, 2 * z + 1))
      ensures Wrap32(Wrap32(Wrap32(Interleave(x, y, z)) + s) + t) == Wrap32(Interleave(x, y, z + 1))
    {
      InterleaveHigh(x, y, z);
      WrapChain(Interleave(x, y, z), BitAt(x, z, 2 * z), BitAt(y, z, 2 * z + 1));
    }

    static lemma ShiftedAndBit(v: int, z: nat, k: nat)
      requires z <= 30 && k <= 31
      ensures Shl32(AndBit(v, z), k) == Wrap32(BitAt(v, z, z + k))
    {
      Pow2Sum(z, k);
    }

    static lemma WrapChain(a: int, b: int, c: int)
      ensures Wrap32(Wrap32(Wrap32(a) + Wrap32(b)) + Wrap32(c)) == Wrap32(a + b + c)
    {
      Wrap32Sum(a, b);
      Wrap32Sum(a + b, c);
    }

    static method QuadtreeToXy(q: int, zoom: nat) returns (t: Tile)
      requires zoom <= 16
      ensures t == Decode(q, zoom)
    {
      hide EvenBits, OddBits, Shr, AndBit, Bit;
      var x, y := 0, 0;
      var z := zoom;
      NothingDecoded(q);
      ghost var sign := if zoom == 16 then Bit(q, 31) * 0x1_0000 else 0;
      while z > 0
        invariant 0 <= z <= zoom
        invariant x + EvenBits(q, z) == EvenBits(q, zoom)
        invariant y + OddBits(q, z) - (if z == 16 then sign else 0) == OddBits(q, zoom) - sign
      {
        var next := z - 1;
        DecodeStep(q, z);
        y := y + Shr(AndBit(q, z + next), z);
        x := x + Shr(AndBit(q, 2 * next), next);
        z := next;
      }
      t := Tile(x, y);
    }

    static lemma NothingDecoded(q: int)
      ensures EvenBits(q, 0) == 0 && OddBits(q, 0) == 0
    {
    }

    static lemma DecodeStep(q: int, z: nat)
      requires 1 <= z <= 16
      ensures EvenBits(q, z) == EvenBits(q, z - 1) + Shr(AndBit(q, 2 * z - 2), z - 1)
      ensures OddBits(q, z) == OddBits(q, z - 1) + Shr(AndBit(q, 2 * z - 1), z)
                               + if z == 16 then Bit(q, 31) * 0x1_0000 else 0
    {
      hide Shr, AndBit, EvenBits, OddBits;
      DecodeHigh(q, z - 1);
      ShiftedAndBitDown(q, z - 1, z - 1);
      ShiftedAndBitDown(q, z - 1, z);
      if z == 16 { TopWeight(z); }
    }

    static lemma TopWeight(z: nat)
      requires z == 16
      ensures 2 * Pow2(z - 1) == 0x1_0000
    {
      Pow2Values();
    }

    static lemma ShiftedAndBitDown(q: int, m: nat, n: nat)
      requires m + n <= 31
      ensures Shr(AndBit(q, m + n), n) == if m + n == 31 then -BitAt(q, 31, m) else BitAt(q, m + n, m)
    {
      ShiftedPower(m, n);
    }

    method ExpireTile(x: int, y: int)
      requires Valid()
      modifies this`dirty
      ensures dirty.Keys == old(dirty.Keys) + {CodeOf(Tile(x, y), maxZoom)}
      ensures forall k :: k in old(dirty) ==> dirty[k] == old(dirty)[k]
    {
      var code := XyToQuadtree(x, y, maxZoom);
      if code !in dirty {
        dirty := dirty[code := true];
      }
    }

    method ExpireVerticalLine(x: real, y1: real, y2: real)
      requires Valid() && 0.0 <= x && 0.0 <= y1 <= y2
      modifies this`dirty
      ensures dirty.Keys == old(dirty.Keys) + Codes(VerticalMarks(x, y1, y2), maxZoom)
    {
      hide Codes, CodeOf;
      ExpireTile(Trunc(x), Trunc(y1));
      ghost var lo := (y1 + 1.0).Floor;
      ghost var marks := {Tile(x.Floor, y1.Floor)};
      CodesSingleton(Tile(x.Floor, y1.Floor), maxZoom);
      var y := Trunc(y1 + 1.0);
      while y <= Trunc(y2)
        invariant lo <= y <= y2.Floor + 1
        invariant marks == {Tile(x.Floor, y1.Floor)} + set b | lo <= b < y :: ColumnTile(x, b)
        invariant dirty.Keys == old(dirty.Keys) + Codes(marks, maxZoom)
      {
        ExpireTile(Trunc(x), y);
        CodesExtend(marks, marks + {ColumnTile(x, y)}, ColumnTile(x, y), maxZoom);
        marks := marks + {ColumnTile(x, y)};
        y := y + 1;
      }
      assert marks == VerticalMarks(x, y1, y2);
    }

    /** Expire the tiles of a segment that does not cross the meridian. The first two requires
        clauses are the asserts of the program. */
    method ExpireLineSegment(x1: real, y1: real, x2: real, y2: real)
      requires x1 <= x2
      requires x2 - x1 <= (mapWidth / 2) as real
      requires Valid() && WellPlaced(Segment(x1, y1, x2, y2))
      modifies this`dirty
      ensures dirty.Keys == old(dirty.Keys) + Codes(SegmentMarks(Segment(x1, y1, x2, y2)), maxZoom)
    {
      hide Codes, SlopeMarks, VerticalMarks;
      var g := Segment(x1, y1, x2, y2);
      if x1 == x2 && y1 == y2 {
        NoCodes(maxZoom);
        return;
      }
      if x2 - x1 < 1.0 {
        if Trunc(x2) == Trunc(x1) || x2 - x1 < 0.00000001 {
          var lo, hi := y1, y2;
          if y2 < y1 {
            lo, hi := y2, y1;
          }
          ExpireVerticalLine(x1, lo, hi);
          return;
        }
      }
      ExpireSlope(g);
    }

    /** The branch for a segment that is not vertical. */
    method ExpireSlope(g: Segment)
      requires Valid() && WellPlaced(g) && g.x1 < g.x2
      modifies this`dirty
      ensures dirty.Keys == old(dirty.Keys) + Codes(SlopeMarks(g), maxZoom)
    {
      hide Codes, WestEntries, SouthEntries;
      var incline := (g.y2 - g.y1) / (g.x2 - g.x1);
      var yIntercept := g.y2 - incline * g.x2;
      assert incline == Incline(g) && yIntercept == Intercept(g);
      hide Incline, Intercept;
      ghost var start := Tile(g.x1.Floor, g.y1.Floor);
      CodesSingleton(start, maxZoom);
      CodesUnion({start}, WestEntries(g), maxZoom);
      CodesUnion({start} + WestEntries(g), SouthEntries(g), maxZoom);
      ExpireTile(Trunc(g.x1), Trunc(g.y1));
      ExpireWestEdges(g, incline, yIntercept);
      ExpireTile(Trunc(g.x1), Trunc(g.y1));
      ExpireSouthEdges(g, incline, yIntercept);
    }

    /** The tiles the line enters by crossing their western edge. */
    method ExpireWestEdges(g: Segment, incline: real, yIntercept: real)
      requires Valid() && WellPlaced(g) && g.x1 < g.x2
      requires incline == Incline(g) && yIntercept == Intercept(g)
      modifies this`dirty
      ensures dirty.Keys == old(dirty.Keys) + Codes(WestEntries(g), maxZoom)
    {
      ghost var marks: set<Tile> := {};
      var x := Trunc(g.x1 + 1.0);
      while x <= Trunc(g.x2)
        invariant (g.x1 + 1.0).Floor <= x <= g.x2.Floor + 1
        invariant marks == set a | (g.x1 + 1.0).Floor <= a < x :: WestEntry(g, a)
        invariant dirty.Keys == old(dirty.Keys) + Codes(marks, maxZoom)
      {
        HeightNotNegative(g, x as real);
        var y := incline * x as real + yIntercept;
        assert y == LineY(g, x as real);
        ExpireTile(x, Trunc(y));
        CodesExtend(marks, marks + {WestEntry(g, x)}, WestEntry(g, x), maxZoom);
        marks := marks + {WestEntry(g, x)};
        x := x + 1;
      }
      assert marks == WestEntries(g);
    }

    /** The tiles the line enters by crossing their edge towards smaller y, upwards only. */
    method ExpireSouthEdges(g: Segment, incline: real, yIntercept: real)
      requires Valid() && WellPlaced(g) && g.x1 < g.x2
      requires incline == Incline(g) && yIntercept == Intercept(g)
      modifies this`dirty
      ensures dirty.Keys == old(dirty.Keys) + Codes(SouthEntries(g), maxZoom)
    {
      ghost var marks: set<Tile> := {};
      var y := Trunc(g.y1 + 1.0);
      while y <= Trunc(g.y2)
        invariant (g.y1 + 1.0).Floor <= y
        invariant y <= g.y2.Floor + 1 || y == (g.y1 + 1.0).Floor
        invariant g.y1 == g.y2 ==> y == (g.y1 + 1.0).Floor && marks == {}
        invariant g.y1 != g.y2 ==> marks == set b | (g.y1 + 1.0).Floor <= b < y :: SouthEntry(g, b)
        invariant dirty.Keys == old(dirty.Keys) + Codes(marks, maxZoom)
      {
        CrossInside(g, y as real);
        ExpireTile(Trunc((y as real - yIntercept) / incline), y);
        CodesExtend(marks, marks + {SouthEntry(g, y)}, SouthEntry(g, y), maxZoom);
        marks := marks + {SouthEntry(g, y)};
        y := y + 1;
      }
      assert marks == SouthEntries(g);
    }

    static lemma HeightNotNegative(g: Segment, x: real)
      requires WellPlaced(g) && g.x1 < g.x2 && g.x1 <= x <= g.x2
      ensures LineY(g, x) >= 0.0
    {
      LineAtEnds(g);
      LineMonotone(g, g.x1, x);
      LineMonotone(g, x, g.x2);
    }

    /** Expire the tiles of a segment that may cross the 180th meridian, given projected ends. */
    method ExpireLineSegment180Secure(p: Point, q: Point)
      requires Valid() && maxZoom >= 1 && OnMap(p, mapWidth) && OnMap(q, mapWidth)
      modifies this`dirty
      ensures forall g :: g in Pieces(p, q, mapWidth) ==> WellPlaced(g)
      ensures dirty.Keys == old(dirty.Keys) + CodesOfAll(Pieces(p, q, mapWidth), maxZoom)
    {
      assert mapWidth == 2 * Pow2(maxZoom - 1);
      PiecesWellPlaced(p, q, mapWidth);
      var tc1, tc2 := p, q;
      if tc1.x > tc2.x {
        tc1, tc2 := tc2, tc1;
      }
      ghost var ps := Pieces(p, q, mapWidth);
      if tc2.x - tc1.x > (mapWidth / 2) as real {
        if tc2.x == mapWidth as real && tc1.x == 0.0 {
          assert ps == [Segment(0.0, tc1.y, 0.0, tc2.y)];
          ExpireLineSegment(0.0, tc1.y, 0.0, tc2.y);
          CodesOfOne(ps, maxZoom);
          return;
        }
        var xDistance := mapWidth as real + tc1.x - tc2.x;
        var ySplit := tc1.y + (tc2.y - tc1.y) * (tc1.x / xDistance);
        SplitComputed(tc1, tc2, mapWidth, xDistance);
        ExpireTwo(p, q, Segment(0.0, ySplit, tc1.x, tc1.y), Segment(tc2.x, tc2.y, mapWidth as real, ySplit));
      } else {
        PiecesMeetAsserts(p, q, mapWidth, 0);
        ExpireLineSegment(tc1.x, tc1.y, tc2.x, tc2.y);
        CodesOfOne(ps, maxZoom);
      }
    }

    static lemma SplitComputed(l: Point, r: Point, width: int, xDistance: real)
      requires xDistance == width as real + l.x - r.x != 0.0
      ensures l.y + (r.y - l.y) * (l.x / xDistance) == SplitY(l, r, width)
    {
    }

    /** The two calls on either side of the meridian. */
    method ExpireTwo(ghost p: Point, ghost q: Point, g: Segment, h: Segment)
      requires Valid() && maxZoom >= 1 && OnMap(p, mapWidth) && OnMap(q, mapWidth)
      requires Pieces(p, q, mapWidth) == [g, h]
      modifies this`dirty
      ensures WellPlaced(g) && WellPlaced(h)
      ensures dirty.Keys == old(dirty.Keys) + CodesOfAll([g, h], maxZoom)
    {
      assert mapWidth == 2 * Pow2(maxZoom - 1);
      PiecesMeetAsserts(p, q, mapWidth, 0);
      PiecesMeetAsserts(p, q, mapWidth, 1);
      ExpireLineSegment(g.x1, g.y1, g.x2, g.y2);
      ExpireLineSegment(h.x1, h.y1, h.x2, h.y2);
      CodesOfTwo([g, h], maxZoom);
    }

    static lemma CodesOfOne(gs: seq<Segment>, z: nat)
      requires |gs| == 1 && WellPlaced(gs[0])
      ensures CodesOfAll(gs, z) == Codes(SegmentMarks(gs[0]), z)
    {
    }

    static lemma CodesOfTwo(gs: seq<Segment>, z: nat)
      requires |gs| == 2 && WellPlaced(gs[0]) && WellPlaced(gs[1])
      ensures CodesOfAll(gs, z) == Codes(SegmentMarks(gs[0]), z) + Codes(SegmentMarks(gs[1]), z)
    {
      assert gs[1..] == [gs[1]];
      CodesOfOne([gs[1]], z);
    }

    /** Print the list of expired tiles and return it. */
    method OutputAndDestroy() returns (lines: seq<Line>)
      requires Valid() && 0 <= minZoom
      ensures ZoomsIn(Printed(dirty.Keys, maxZoom, minZoom))
      ensures lines == Lines(Printed(dirty.Keys, maxZoom, minZoom))
    {
      hide Printed, Candidates, FirstPerCode, Steps, ZoomsIn, Lines, Least;
      PrintedZooms(dirty.Keys, maxZoom, minZoom);
      NothingPrinted(dirty.Keys);
      ghost var target := Printed(dirty.Keys, maxZoom, minZoom);
      lines := [];
      var expired: set<int> := {};
      var rest := dirty.Keys;
      ghost var done: seq<Candidate> := [];
      while rest != {}
        invariant ZoomsIn(done) && lines == Lines(done)
        invariant done + FirstPerCode(Candidates(rest, maxZoom, minZoom), expired) == target
        decreases |rest|
      {
        var key := Least(rest);
        CandidatesHead(rest);
        lines, expired, done := PrintKey(key, lines, expired, done, Candidates(rest - {key}, maxZoom, minZoom));
        rest := rest - {key};
      }
      NoCandidates(expired);
      assert done + [] == target;
    }

    lemma NothingPrinted(keys: set<int>)
      ensures ZoomsIn([]) && Lines([]) == []
      ensures [] + FirstPerCode(Candidates(keys, maxZoom, minZoom), {}) == Printed(keys, maxZoom, minZoom)
    {
    }

    lemma CandidatesHead(keys: set<int>)
      requires keys != {}
      ensures var key := Least(keys);
              key in keys && Candidates(keys, maxZoom, minZoom) ==
                Steps(key, 0, maxZoom, minZoom) + Candidates(keys - {key}, maxZoom, minZoom)
    {
    }

    lemma NoCandidates(seen: set<int>)
      ensures FirstPerCode(Candidates({}, maxZoom, minZoom), seen) == []
    {
    }

    /** The inner loop: one key, from the finest to the coarsest zoom level. */
    method PrintKey(key: int, lines0: seq<Line>, expired0: set<int>, ghost done0: seq<Candidate>,
                    ghost later: seq<Candidate>)
        returns (lines: seq<Line>, expired: set<int>, ghost done: seq<Candidate>)
      requires Valid() && 0 <= minZoom && ZoomsIn(done0) && lines0 == Lines(done0)
      ensures ZoomsIn(done) && lines == Lines(done)
      ensures done + FirstPerCode(later, expired) ==
              done0 + FirstPerCode(Steps(key, 0, maxZoom, minZoom) + later, expired0)
    {
      hide FirstPerCode, Steps, ZoomsIn, Lines;
      lines, expired, done := lines0, expired0, done0;
      var dz := 0;
      ghost var todo := Steps(key, 0, maxZoom, minZoom) + later;
      ghost var all := done0 + FirstPerCode(todo, expired0);
      while dz <= maxZoom - minZoom
        invariant 0 <= dz && (dz <= maxZoom - minZoom + 1 || dz == 0)
        invariant ZoomsIn(done) && lines == Lines(done)
        invariant todo == Steps(key, dz, maxZoom, minZoom) + later
        invariant done + FirstPerCode(todo, expired) == all
      {
        var code := Shr(key, 2 * dz);
        ghost var c := StepOf(key, dz, maxZoom);
        ghost var after := Steps(key, dz + 1, maxZoom, minZoom) + later;
        StepsHead(key, dz, later);
        FilterStep(done, c, after, todo, expired, all);
        if code !in expired {
          expired := expired + {code};
          var t := QuadtreeToXy(code, maxZoom - dz);
          lines := lines + [Line(maxZoom - dz, t.x, t.y)];
          done := done + [c];
        }
        todo := after;
        dz := dz + 1;
      }
      NoSteps(key, dz, later);
    }

    lemma StepsHead(key: int, dz: nat, later: seq<Candidate>)
      requires dz <= maxZoom - minZoom
      ensures Steps(key, dz, maxZoom, minZoom) + later ==
              [StepOf(key, dz, maxZoom)] + (Steps(key, dz + 1, maxZoom, minZoom) + later)
    {
      Assoc([StepOf(key, dz, maxZoom)], Steps(key, dz + 1, maxZoom, minZoom), later);
    }

    lemma NoSteps(key: int, dz: nat, later: seq<Candidate>)
      requires dz > maxZoom - minZoom
      ensures Steps(key, dz, maxZoom, minZoom) + later == later
    {
    }

    static lemma FilterStep(done: seq<Candidate>, c: Candidate, after: seq<Candidate>, todo: seq<Candidate>,
                            seen: set<int>, all: seq<Candidate>)
      requires todo == [c] + after && all == done + FirstPerCode(todo, seen)
      requires ZoomsIn(done) && 0 <= c.zoom <= 16
      ensures c.code in seen ==> done + FirstPerCode(after, seen) == all
      ensures c.code !in seen ==>
                ZoomsIn(done + [c]) && Lines(done + [c]) == Lines(done) + [LineOf(c)]
                && (done + [c]) + FirstPerCode(after, seen + {c.code}) == all
    {
      assert todo[1..] == after;
    }

  }
}
