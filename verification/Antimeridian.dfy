/** The treatment of segments that cross the 180th meridian
    (`expire_line_segment_180secure` in src/expire_tiles_quadtree.cpp), after projection:
    x-coordinates lie in [0, width], and 0 and width are the same meridian. */
module Antimeridian {
  import opened Ints
  import opened QuadtreeCode
  import opened TileRaster

  predicate OnMap(p: Point, width: int) {
    0.0 <= p.x <= width as real && 0.0 <= p.y
  }

  function West(p: Point, q: Point): Point { if p.x > q.x then q else p }

  function East(p: Point, q: Point): Point { if p.x > q.x then p else q }

  /** `map_width/2` is an integer division. */
  predicate Crosses(p: Point, q: Point, width: int) {
    East(p, q).x - West(p, q).x > (width / 2) as real
  }

  predicate OnMeridian(p: Point, q: Point, width: int) {
    East(p, q).x == width as real && West(p, q).x == 0.0
  }

  function SplitY(l: Point, r: Point, width: int): real
    requires width as real + l.x - r.x != 0.0
  {
    l.y + (r.y - l.y) * (l.x / (width as real + l.x - r.x))
  }

  /** The segments handed to the rasteriser, in order. */
  function Pieces(p: Point, q: Point, width: int): seq<Segment>
    requires OnMap(p, width) && OnMap(q, width)
  {
    var l, r := West(p, q), East(p, q);
    if !Crosses(p, q, width) then [Segment(l.x, l.y, r.x, r.y)]
    else if OnMeridian(p, q, width) then [Segment(0.0, l.y, 0.0, r.y)]
    else
      var y := SplitY(l, r, width);
      [Segment(0.0, y, l.x, l.y), Segment(r.x, r.y, width as real, y)]
  }

  /** The one straight segment meant: the map unrolled westwards over the meridian. */
  function Unrolled(p: Point, q: Point, width: int): Segment {
    var l, r := West(p, q), East(p, q);
    if !Crosses(p, q, width) then Segment(l.x, l.y, r.x, r.y)
    else if OnMeridian(p, q, width) then Segment(0.0, l.y, 0.0, r.y)
    else Segment(r.x - width as real, r.y, l.x, l.y)
  }

  // ----- geometry helpers

  lemma OnLineIff(g: Segment, p: Point)
    requires g.x1 < g.x2
    ensures OnSegment(g, p) <==> g.x1 <= p.x <= g.x2 && p.y == LineY(g, p.x)
  {
    if OnSegment(g, p) {
      var s :| 0.0 <= s <= 1.0 && At(g, s) == p;
      PointIsOnLine(g, s);
    }
    if g.x1 <= p.x <= g.x2 && p.y == LineY(g, p.x) {
      LinePointIsOnSegment(g, p.x);
    }
  }

  /** A segment whose two ends lie on the line of g runs along that line. */
  lemma SubLine(g: Segment, h: Segment, x: real)
    requires g.x1 < g.x2 && h.x1 < h.x2
    requires h.y1 == LineY(g, h.x1) && h.y2 == LineY(g, h.x2)
    ensures LineY(h, x) == LineY(g, x)
  {
    LineAtEnds(h);
    EqualSlopes(Incline(g), Incline(h), h.x2 - h.x1);
  }

  lemma EqualSlopes(m: real, n: real, d: real)
    requires d > 0.0 && m * d == n * d
    ensures m == n
  {
    SignOfProduct(m - n, d);
    assert (m - n) * d == m * d - n * d;
  }

  lemma ShiftedSegment(g: Segment, w: real, p: Point)
    ensures OnSegment(Segment(g.x1 + w, g.y1, g.x2 + w, g.y2), Point(p.x + w, p.y)) <==> OnSegment(g, p)
  {
    var h := Segment(g.x1 + w, g.y1, g.x2 + w, g.y2);
    forall s
      ensures At(h, s) == Point(At(g, s).x + w, At(g, s).y)
    {
      assert (g.x2 + w) - (g.x1 + w) == g.x2 - g.x1;
    }
  }

  lemma ReachesIffPoint(g: Segment, t: Tile)
    ensures Reaches(g, t) <==> exists p :: OnSegment(g, p) && TileAt(p) == t
  {
    if Reaches(g, t) {
      var s :| 0.0 <= s <= 1.0 && TileAt(At(g, s)) == t;
      assert OnSegment(g, At(g, s));
    }
  }

  lemma OnSegmentReaches(g: Segment, p: Point)
    requires OnSegment(g, p)
    ensures Reaches(g, TileAt(p))
  {
  }

  // ----- the split

  /** The intercept theorem: the split height is the height of the unrolled line at the meridian. */
  lemma SplitHeight(p: Point, q: Point, width: int)
    requires OnMap(p, width) && OnMap(q, width) && Crosses(p, q, width) && !OnMeridian(p, q, width)
    ensures var g := Unrolled(p, q, width);
            g.x1 < g.x2 && g.x1 <= 0.0 <= g.x2 &&
            SplitY(West(p, q), East(p, q), width) == LineY(g, 0.0)
  {
    hide Incline, LineY;
    var l, r := West(p, q), East(p, q);
    var g := Unrolled(p, q, width);
    var d := width as real + l.x - r.x;
    LineThroughEnds(g, 0.0);
    assert g.x2 - g.x1 == d && g.x2 == l.x && g.y2 == l.y && g.y1 == r.y;
    InterceptHeight(Incline(g), d, l.x, l.y, r.y);
  }

  lemma InterceptHeight(m: real, d: real, x: real, y: real, y': real)
    requires d != 0.0 && m * d == y - y'
    ensures y + (y' - y) * (x / d) == y + m * (0.0 - x)
  {
    var f := x / d;
    assert f * d == x;
    calc {
      m * x;
      m * (f * d);
      (m * d) * f;
      (y - y') * f;
    }
    assert (y' - y) * f == -((y - y') * f);
  }

  /** Over the whole map: no call of the rasteriser breaks one of its two asserts, no division
      by zero happens, and every coordinate handed over is a tile coordinate. */
  lemma PiecesMeetAsserts(p: Point, q: Point, width: int, i: nat)
    requires width % 2 == 0 && OnMap(p, width) && OnMap(q, width)
    requires i < |Pieces(p, q, width)|
    ensures WellPlaced(Pieces(p, q, width)[i])
    ensures var g := Pieces(p, q, width)[i]; g.x2 - g.x1 <= (width / 2) as real && g.x2 <= width as real
  {
    if Crosses(p, q, width) && !OnMeridian(p, q, width) {
      var g := Unrolled(p, q, width);
      SplitHeight(p, q, width);
      LineAtEnds(g);
      LineMonotone(g, g.x1, 0.0);
      LineMonotone(g, 0.0, g.x2);
      assert (width / 2) as real + (width / 2) as real == width as real;
    }
  }

  ghost predicate AssertsHold(width: int) {
    forall p, q :: OnMap(p, width) && OnMap(q, width) ==>
      forall g :: g in Pieces(p, q, width) ==> WellPlaced(g) && g.x2 - g.x1 <= (width / 2) as real
  }

  /** The asserts hold for all segments from zoom 1 on; at zoom 0 the whole map is wider than
      `map_width/2 == 0` and they fail. */
  lemma AssertsHoldFromZoom1(z: nat)
    ensures AssertsHold(Pow2(z)) <==> z >= 1
  {
    hide AssertsHold, OnMap, Pieces, WellPlaced;
    if z >= 1 {
      assert Pow2(z) == 2 * Pow2(z - 1);
      EvenWidthHolds(Pow2(z), Pow2(z - 1));
    } else {
      WidthOneFails();
    }
  }

  lemma EvenWidthHolds(width: int, half: int)
    requires width == 2 * half && half >= 1
    ensures AssertsHold(width)
  {
    hide OnMap, Pieces, WellPlaced;
    forall p, q, g | OnMap(p, width) && OnMap(q, width) && g in Pieces(p, q, width)
      ensures WellPlaced(g) && g.x2 - g.x1 <= (width / 2) as real
    {
      var i :| 0 <= i < |Pieces(p, q, width)| && Pieces(p, q, width)[i] == g;
      PiecesMeetAsserts(p, q, width, i);
    }
  }

  lemma WidthOneFails()
    ensures !AssertsHold(1)
  {
    var p, q := Point(0.25, 0.0), Point(0.75, 0.0);
    assert OnMap(p, 1) && OnMap(q, 1);
    var g := Pieces(p, q, 1)[0];
    assert g in Pieces(p, q, 1) && g.x2 - g.x1 > 0.0;
  }

  /** The two pieces, the eastern one unrolled by the map width, are together exactly the
      straight segment between the end points. */
  lemma PiecesFormTheSegment(p: Point, q: Point, width: int, c: Point)
    requires OnMap(p, width) && OnMap(q, width) && Crosses(p, q, width) && !OnMeridian(p, q, width)
    ensures OnSegment(Unrolled(p, q, width), c) <==>
            (|| OnSegment(Pieces(p, q, width)[0], c)
             || OnSegment(Pieces(p, q, width)[1], Point(c.x + width as real, c.y)))
  {
    var g, w := Unrolled(p, q, width), width as real;
    SplitHeight(p, q, width);
    LineAtEnds(g);
    OnLineIff(g, c);
    var east := Segment(g.x1, g.y1, 0.0, LineY(g, 0.0));
    var west := Segment(0.0, LineY(g, 0.0), g.x2, g.y2);
    assert Pieces(p, q, width) == [west, Segment(east.x1 + w, east.y1, east.x2 + w, east.y2)];
    ShiftedSegment(east, w, c);
    PartOfLine(g, east, c);
    PartOfLine(g, west, c);
  }

  lemma PartOfLine(g: Segment, h: Segment, c: Point)
    requires g.x1 < g.x2 && h.x1 <= h.x2
    requires h.y1 == LineY(g, h.x1) && h.y2 == LineY(g, h.x2)
    ensures OnSegment(h, c) <==> h.x1 <= c.x <= h.x2 && c.y == LineY(g, c.x)
  {
    if h.x1 < h.x2 {
      OnLineIff(h, c);
      SubLine(g, h, c.x);
    } else {
      assert At(h, 0.0) == Point(h.x1, h.y1);
      forall s | 0.0 <= s <= 1.0 ensures At(h, s) == Point(h.x1, h.y1) {
        MixBetween(h.x1, h.x2, s);
        MixBetween(h.y1, h.y2, s);
      }
    }
  }

  // ----- the tiles that end up dirty

  function CodeOf(t: Tile, z: nat): int { Encode(t.x, t.y, z) }

  lemma CodeOneMapWidthEast(t: Tile, z: nat)
    ensures CodeOf(Tile(t.x + Pow2(z), t.y), z) == CodeOf(t, z)
  {
    assert 1 * Pow2(z) == Pow2(z) && 0 * Pow2(z) == 0;
    CodeModuloMapWidth(t.x, t.y, 1, 0, z);
  }

  function Codes(ts: set<Tile>, z: nat): set<int> { set t | t in ts :: CodeOf(t, z) }

  /** The codes marked by a list of segments. */
  function CodesOfAll(gs: seq<Segment>, z: nat): set<int>
    requires forall g :: g in gs ==> WellPlaced(g)
  {
    if gs == [] then {} else Codes(SegmentMarks(gs[0]), z) + CodesOfAll(gs[1..], z)
  }

  /** A segment marks a tile with the code. */
  ghost predicate MarksCode(g: Segment, z: nat, c: int) {
    WellPlaced(g) && exists t :: t in SegmentMarks(g) && CodeOf(t, z) == c
  }

  lemma {:induction false} CodesOfAllContents(gs: seq<Segment>, z: nat, c: int)
    requires forall g :: g in gs ==> WellPlaced(g)
    ensures c in CodesOfAll(gs, z) <==> exists g :: g in gs && MarksCode(g, z, c)
  {
    if gs != [] {
      hide SegmentMarks, CodeOf, WellPlaced;
      CodesOfAllContents(gs[1..], z, c);
      assert gs[0] in gs && forall g :: g in gs <==> g == gs[0] || g in gs[1..];
      assert c in Codes(SegmentMarks(gs[0]), z) <==> MarksCode(gs[0], z, c);
    }
  }

  lemma PiecesWellPlaced(p: Point, q: Point, width: int)
    requires width % 2 == 0 && OnMap(p, width) && OnMap(q, width)
    ensures forall g :: g in Pieces(p, q, width) ==> WellPlaced(g)
  {
    forall g | g in Pieces(p, q, width)
      ensures WellPlaced(g)
    {
      var i :| 0 <= i < |Pieces(p, q, width)| && Pieces(p, q, width)[i] == g;
      PiecesMeetAsserts(p, q, width, i);
    }
  }

  ghost predicate MarkedCode(p: Point, q: Point, z: nat, c: int)
    requires z >= 1 && OnMap(p, Pow2(z)) && OnMap(q, Pow2(z))
  {
    exists g :: g in Pieces(p, q, Pow2(z)) && MarksCode(g, z, c)
  }

  ghost predicate TouchedCode(p: Point, q: Point, z: nat, c: int) {
    exists t :: Reaches(Unrolled(p, q, Pow2(z)), t) && CodeOf(t, z) == c
  }

  /** Each piece gets exactly its tiles, or is a mere end point of the other one. */
  predicate FaithfulPieces(p: Point, q: Point, z: nat)
    requires OnMap(p, Pow2(z)) && OnMap(q, Pow2(z))
  {
    && !Degenerate(Unrolled(p, q, Pow2(z)))
    && forall g :: g in Pieces(p, q, Pow2(z)) ==> Faithful(g) || Degenerate(g)
  }

  /** End to end over the meridian: the codes marked are exactly the codes of the tiles touched
      by the one straight segment, counted modulo the map width. */
  lemma MarkedCodesAreTouchedCodes(p: Point, q: Point, z: nat, c: int)
    requires z >= 1 && OnMap(p, Pow2(z)) && OnMap(q, Pow2(z)) && FaithfulPieces(p, q, z)
    ensures MarkedCode(p, q, z, c) <==> TouchedCode(p, q, z, c)
  {
    hide SegmentMarks, CodeOf, Reaches, Pieces, Unrolled, FaithfulPieces, WellPlaced;
    var width := Pow2(z);
    assert width == 2 * Pow2(z - 1);
    var ps, u := Pieces(p, q, width), Unrolled(p, q, width);
    if MarkedCode(p, q, z, c) {
      var g :| g in ps && MarksCode(g, z, c);
      var i :| 0 <= i < |ps| && ps[i] == g;
      var t :| t in SegmentMarks(g) && CodeOf(t, z) == c;
      MarkedIsTouched(p, q, z, i, t);
    }
    if TouchedCode(p, q, z, c) {
      var t :| Reaches(u, t) && CodeOf(t, z) == c;
      TouchedIsMarked(p, q, z, t);
    }
  }

  /** The same for the code set that `expire_line_segment_180secure` adds. */
  lemma AddedCodesAreTouchedCodes(p: Point, q: Point, z: nat, c: int)
    requires z >= 1 && OnMap(p, Pow2(z)) && OnMap(q, Pow2(z)) && FaithfulPieces(p, q, z)
    ensures forall g :: g in Pieces(p, q, Pow2(z)) ==> WellPlaced(g)
    ensures c in CodesOfAll(Pieces(p, q, Pow2(z)), z) <==> TouchedCode(p, q, z, c)
  {
    hide Pow2, Pieces, MarksCode, CodesOfAll, WellPlaced, OnMap, FaithfulPieces, TouchedCode;
    EvenWidth(z);
    PiecesWellPlaced(p, q, Pow2(z));
    CodesOfAllContents(Pieces(p, q, Pow2(z)), z, c);
    MarkedCodesAreTouchedCodes(p, q, z, c);
  }

  lemma MarkedIsTouched(p: Point, q: Point, z: nat, i: nat, t: Tile)
    requires z >= 1 && OnMap(p, Pow2(z)) && OnMap(q, Pow2(z)) && FaithfulPieces(p, q, z)
    requires i < |Pieces(p, q, Pow2(z))| && WellPlaced(Pieces(p, q, Pow2(z))[i])
    requires t in SegmentMarks(Pieces(p, q, Pow2(z))[i])
    ensures TouchedCode(p, q, z, CodeOf(t, z))
  {
    var width := Pow2(z);
    var ps, u := Pieces(p, q, width), Unrolled(p, q, width);
    assert Faithful(ps[i]) by { assert ps[i] in ps; }
    MarksExactlyIffFaithful(ps[i]);
    if Crosses(p, q, width) && !OnMeridian(p, q, width) {
      ReachesIffPoint(ps[i], t);
      var a :| OnSegment(ps[i], a) && TileAt(a) == t;
      var b := if i == 0 then a else Point(a.x - width as real, a.y);
      assert b == a || Point(b.x + width as real, b.y) == a;
      PiecesFormTheSegment(p, q, width, b);
      OnSegmentReaches(u, b);
      if i == 1 {
        TileOneMapWidthEast(b, width);
        CodeOneMapWidthEast(TileAt(b), z);
      }
    }
  }

  lemma TouchedIsMarked(p: Point, q: Point, z: nat, t: Tile)
    requires z >= 1 && OnMap(p, Pow2(z)) && OnMap(q, Pow2(z)) && FaithfulPieces(p, q, z)
    requires Reaches(Unrolled(p, q, Pow2(z)), t)
    ensures MarkedCode(p, q, z, CodeOf(t, z))
  {
    hide Pow2, MarkedCode, OnMap, Faithful, OnSegment, CodeOf, TileAt, Reaches;
    var u := Unrolled(p, q, Pow2(z));
    ReachesIffPoint(u, t);
    var b :| OnSegment(u, b) && TileAt(b) == t;
    if !Crosses(p, q, Pow2(z)) || OnMeridian(p, q, Pow2(z)) {
      var ps := Pieces(p, q, Pow2(z));
      assert ps[0] in ps;
      PointOfPieceIsMarked(p, q, z, 0, b);
    } else {
      TouchedPointIsMarked(p, q, z, b);
    }
  }

  lemma TouchedPointIsMarked(p: Point, q: Point, z: nat, b: Point)
    requires z >= 1 && OnMap(p, Pow2(z)) && OnMap(q, Pow2(z)) && FaithfulPieces(p, q, z)
    requires Crosses(p, q, Pow2(z)) && !OnMeridian(p, q, Pow2(z))
    requires OnSegment(Unrolled(p, q, Pow2(z)), b)
    ensures MarkedCode(p, q, z, CodeOf(TileAt(b), z))
  {
    var width := Pow2(z);
    var ps := Pieces(p, q, width);
    assert ps[0] in ps && ps[1] in ps;
    TileOneMapWidthEast(b, width);
    CodeOneMapWidthEast(TileAt(b), z);
    PiecesFormTheSegment(p, q, width, b);
    SharedPoint(p, q, width, b);
    if Faithful(ps[0]) && OnSegment(ps[0], b) {
      PointOfPieceIsMarked(p, q, z, 0, b);
    } else {
      PointOfPieceIsMarked(p, q, z, 1, Point(b.x + width as real, b.y));
    }
  }

  lemma TileOneMapWidthEast(b: Point, width: int)
    ensures TileAt(Point(b.x + width as real, b.y)) == Tile(TileAt(b).x + width, TileAt(b).y)
  {
  }

  lemma PointOfPieceIsMarked(p: Point, q: Point, z: nat, i: nat, b: Point)
    requires z >= 1 && OnMap(p, Pow2(z)) && OnMap(q, Pow2(z)) && i < |Pieces(p, q, Pow2(z))|
    requires Faithful(Pieces(p, q, Pow2(z))[i]) && OnSegment(Pieces(p, q, Pow2(z))[i], b)
    ensures MarkedCode(p, q, z, CodeOf(TileAt(b), z))
  {
    hide Pow2, Pieces, MarksCode, WellPlaced, OnMap, Faithful, OnSegment, CodeOf, TileAt;
    EvenWidth(z);
    PiecesMeetAsserts(p, q, Pow2(z), i);
    var g := Pieces(p, q, Pow2(z))[i];
    PointIsMarked(g, z, b);
    assert g in Pieces(p, q, Pow2(z));
  }

  lemma PointIsMarked(g: Segment, z: nat, b: Point)
    requires WellPlaced(g) && Faithful(g) && OnSegment(g, b)
    ensures MarksCode(g, z, CodeOf(TileAt(b), z))
  {
    hide SegmentMarks, CodeOf, Faithful, OnSegment, WellPlaced, Reaches;
    OnSegmentReaches(g, b);
    MarksExactlyIffFaithful(g);
    assert TileAt(b) in SegmentMarks(g);
  }

  lemma EvenWidth(z: nat)
    requires z >= 1
    ensures Pow2(z) % 2 == 0
  {
    assert Pow2(z) == 2 * Pow2(z - 1);
  }

  /** A piece that is a single point lies on the other piece, and not both are single points. */
  lemma SharedPoint(p: Point, q: Point, width: int, b: Point)
    requires OnMap(p, width) && OnMap(q, width) && Crosses(p, q, width) && !OnMeridian(p, q, width)
    requires OnSegment(Unrolled(p, q, width), b)
    ensures var ps := Pieces(p, q, width);
            && !(Degenerate(ps[0]) && Degenerate(ps[1]))
            && (Degenerate(ps[0]) ==> OnSegment(ps[1], Point(b.x + width as real, b.y)))
            && (Degenerate(ps[1]) ==> OnSegment(ps[0], b))
  {
    var g, w := Unrolled(p, q, width), width as real;
    SplitHeight(p, q, width);
    LineAtEnds(g);
    OnLineIff(g, b);
    var east := Segment(g.x1, g.y1, 0.0, LineY(g, 0.0));
    var west := Segment(0.0, LineY(g, 0.0), g.x2, g.y2);
    assert Pieces(p, q, width) == [west, Segment(east.x1 + w, east.y1, east.x2 + w, east.y2)];
    ShiftedSegment(east, w, b);
    PartOfLine(g, east, b);
    PartOfLine(g, west, b);
  }
}
