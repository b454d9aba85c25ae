/** Which tiles a straight line segment touches, and which ones the rasteriser of
    src/expire_tiles_quadtree.cpp marks. Coordinates are tile coordinates over the reals:
    (15.5, 56.5) is the middle of tile (15, 56). */
module TileRaster {
  import opened QuadtreeCode

  datatype Point = Point(x: real, y: real)
  datatype Segment = Segment(x1: real, y1: real, x2: real, y2: real)

  /** The point at parameter s, running from (x1, y1) at 0 to (x2, y2) at 1. */
  function At(g: Segment, s: real): Point {
    Point(Mix(g.x1, g.x2, s), Mix(g.y1, g.y2, s))
  }

  function Mix(a: real, b: real, s: real): real { a + s * (b - a) }

  function TileAt(p: Point): Tile { Tile(p.x.Floor, p.y.Floor) }

  ghost predicate OnSegment(g: Segment, p: Point) {
    exists s :: 0.0 <= s <= 1.0 && At(g, s) == p
  }

  /** The reference meaning of "touches": some point of the segment lies in the tile. */
  ghost predicate Reaches(g: Segment, t: Tile) {
    exists s :: 0.0 <= s <= 1.0 && TileAt(At(g, s)) == t
  }

  /** Tile coordinates, ordered from west to east. */
  predicate WellPlaced(g: Segment) {
    0.0 <= g.x1 <= g.x2 && 0.0 <= g.y1 && 0.0 <= g.y2
  }

  predicate Degenerate(g: Segment) { g.x1 == g.x2 && g.y1 == g.y2 }

  /** The segments treated like a vertical line: within one column, or almost vertical. */
  predicate TakenAsVertical(g: Segment) {
    g.x2 - g.x1 < 1.0 && (g.x1.Floor == g.x2.Floor || g.x2 - g.x1 < 0.00000001)
  }

  function Incline(g: Segment): real
    requires g.x1 < g.x2
  {
    (g.y2 - g.y1) / (g.x2 - g.x1)
  }

  function Intercept(g: Segment): real
    requires g.x1 < g.x2
  {
    g.y2 - Incline(g) * g.x2
  }

  function LineY(g: Segment, x: real): real
    requires g.x1 < g.x2
  {
    Incline(g) * x + Intercept(g)
  }

  function CrossX(g: Segment, y: real): real
    requires g.x1 < g.x2 && g.y1 != g.y2
  {
    (y - Intercept(g)) / Incline(g)
  }

  lemma SignOfProduct(m: real, d: real)
    requires d > 0.0
    ensures m * d > 0.0 <==> m > 0.0
    ensures m * d == 0.0 <==> m == 0.0
  {
    if m > 0.0 {
      assert m * d > 0.0;
    } else if m < 0.0 {
      assert (-m) * d > 0.0;
      assert (-m) * d == -(m * d);
    }
  }

  // ----- what the program marks

  function ColumnTile(x: real, b: int): Tile { Tile(x.Floor, b) }

  /** The tile entered through its western edge x = a. */
  function WestEntry(g: Segment, a: int): Tile
    requires g.x1 < g.x2
  {
    Tile(a, LineY(g, a as real).Floor)
  }

  /** The tile entered through its edge y = b. */
  function SouthEntry(g: Segment, b: int): Tile
    requires g.x1 < g.x2 && g.y1 != g.y2
  {
    Tile(CrossX(g, b as real).Floor, b)
  }

  function VerticalMarks(x: real, y1: real, y2: real): set<Tile> {
    {Tile(x.Floor, y1.Floor)} + set b | (y1 + 1.0).Floor <= b <= y2.Floor :: ColumnTile(x, b)
  }

  function SlopeMarks(g: Segment): set<Tile>
    requires WellPlaced(g) && g.x1 < g.x2
  {
    {Tile(g.x1.Floor, g.y1.Floor)} + WestEntries(g) + SouthEntries(g)
  }

  function WestEntries(g: Segment): set<Tile>
    requires g.x1 < g.x2
  {
    set a | (g.x1 + 1.0).Floor <= a <= g.x2.Floor :: WestEntry(g, a)
  }

  function SouthEntries(g: Segment): set<Tile>
    requires g.x1 < g.x2
  {
    if g.y1 == g.y2 then {} else set b | (g.y1 + 1.0).Floor <= b <= g.y2.Floor :: SouthEntry(g, b)
  }

  function SegmentMarks(g: Segment): set<Tile>
    requires WellPlaced(g)
  {
    if Degenerate(g) then {}
    else if TakenAsVertical(g) then
      VerticalMarks(g.x1, Low(g), High(g))
    else SlopeMarks(g)
  }

  // ----- the line as a function of x

  lemma LineThroughEnds(g: Segment, x: real)
    requires g.x1 < g.x2
    ensures LineY(g, x) == g.y2 + Incline(g) * (x - g.x2)
    ensures LineY(g, x) == g.y1 + Incline(g) * (x - g.x1)
  {
    var m := Incline(g);
    assert m * x - m * g.x2 == m * (x - g.x2);
    assert m * (x - g.x2) == m * (x - g.x1) - m * (g.x2 - g.x1);
  }

  /** The line runs one way: up, down or level. */
  lemma LineMonotone(g: Segment, x: real, x': real)
    requires g.x1 < g.x2 && x <= x'
    ensures g.y1 <= g.y2 ==> LineY(g, x) <= LineY(g, x')
    ensures g.y2 <= g.y1 ==> LineY(g, x) >= LineY(g, x')
    ensures g.y2 < g.y1 && x < x' ==> LineY(g, x) > LineY(g, x')
    ensures g.y1 < g.y2 && x < x' ==> LineY(g, x) < LineY(g, x')
  {
    var m, d := Incline(g), x' - x;
    if d > 0.0 { SignOfProduct(m, d); }
  }

  lemma LineAtEnds(g: Segment)
    requires g.x1 < g.x2
    ensures LineY(g, g.x1) == g.y1 && LineY(g, g.x2) == g.y2
  {
    LineThroughEnds(g, g.x1);
    LineThroughEnds(g, g.x2);
  }

  lemma CrossIsOnLine(g: Segment, y: real)
    requires g.x1 < g.x2 && g.y1 != g.y2
    ensures LineY(g, CrossX(g, y)) == y
  {
    var m := Incline(g);
    assert m * ((y - Intercept(g)) / m) == y - Intercept(g);
  }

  /** A height between the ends is crossed between the ends. */
  lemma CrossInside(g: Segment, y: real)
    requires g.x1 < g.x2 && g.y1 != g.y2
    requires g.y1 <= y <= g.y2 || g.y2 <= y <= g.y1
    ensures g.x1 <= CrossX(g, y) <= g.x2
    ensures y != g.y2 ==> CrossX(g, y) < g.x2
  {
    CrossIsOnLine(g, y);
    LineAtEnds(g);
    var x := CrossX(g, y);
    if x < g.x1 { LineMonotone(g, x, g.x1); }
    if x > g.x2 { LineMonotone(g, g.x2, x); }
  }

  lemma MixBetween(a: real, b: real, s: real)
    requires 0.0 <= s <= 1.0
    ensures a <= b ==> a <= Mix(a, b, s) <= b
    ensures b <= a ==> b <= Mix(a, b, s) <= a
  {
    var d := if a <= b then b - a else a - b;
    ProductNonNegative(s, d);
    ProductNonNegative(1.0 - s, d);
    assert (1.0 - s) * d == d - s * d;
    assert s * (b - a) == (if a <= b then s * d else -(s * d));
  }

  lemma ProductNonNegative(p: real, q: real)
    requires p >= 0.0 && q >= 0.0
    ensures p * q >= 0.0
  {
  }

  /** The parameter at which a value between two different ends is taken. */
  function Param(a: real, b: real, v: real): real
    requires a != b
  {
    (v - a) / (b - a)
  }

  lemma MixAtParam(a: real, b: real, v: real)
    requires (a < b && a <= v <= b) || (b < a && b <= v <= a)
    ensures 0.0 <= Param(a, b, v) <= 1.0 && Mix(a, b, Param(a, b, v)) == v
  {
    var s := Param(a, b, v);
    assert s * (b - a) == v - a;
    assert (s - 1.0) * (b - a) == v - b;
    if a < b {
      SignOfProduct(s, b - a);
      SignOfProduct(s - 1.0, b - a);
    } else {
      assert s * (a - b) == a - v;
      assert (s - 1.0) * (a - b) == b - v;
      SignOfProduct(s, a - b);
      SignOfProduct(s - 1.0, a - b);
    }
  }

  lemma PointIsOnLine(g: Segment, s: real)
    requires g.x1 < g.x2 && 0.0 <= s <= 1.0
    ensures g.x1 <= At(g, s).x <= g.x2
    ensures At(g, s).y == LineY(g, At(g, s).x)
  {
    MixBetween(g.x1, g.x2, s);
    var x := At(g, s).x;
    LineThroughEnds(g, x);
  }

  lemma LinePointIsOnSegment(g: Segment, x: real)
    requires g.x1 < g.x2 && g.x1 <= x <= g.x2
    ensures exists s :: 0.0 <= s <= 1.0 && At(g, s) == Point(x, LineY(g, x))
  {
    MixAtParam(g.x1, g.x2, x);
    var s := Param(g.x1, g.x2, x);
    PointIsOnLine(g, s);
    assert At(g, s) == Point(x, LineY(g, x));
  }

  lemma ReachedViaLine(g: Segment, x: real, t: Tile)
    requires g.x1 < g.x2 && g.x1 <= x <= g.x2
    requires x.Floor == t.x && LineY(g, x).Floor == t.y
    ensures Reaches(g, t)
  {
    LinePointIsOnSegment(g, x);
    var s :| 0.0 <= s <= 1.0 && At(g, s) == Point(x, LineY(g, x));
    assert TileAt(At(g, s)) == t;
  }

  lemma ReachedHasLinePoint(g: Segment, t: Tile) returns (x: real)
    requires g.x1 < g.x2 && Reaches(g, t)
    ensures g.x1 <= x <= g.x2 && x.Floor == t.x && LineY(g, x).Floor == t.y
    ensures g.y1 <= LineY(g, x) <= g.y2 || g.y2 <= LineY(g, x) <= g.y1
  {
    var s :| 0.0 <= s <= 1.0 && TileAt(At(g, s)) == t;
    PointIsOnLine(g, s);
    x := At(g, s).x;
    LineAtEnds(g);
    LineMonotone(g, g.x1, x);
    LineMonotone(g, x, g.x2);
  }

  // ----- the sloped branch

  /** Every tile the sloped branch marks is touched, whichever way the segment runs. */
  lemma SlopeSound(g: Segment, t: Tile)
    requires WellPlaced(g) && g.x1 < g.x2 && t in SlopeMarks(g)
    ensures Reaches(g, t)
  {
    LineAtEnds(g);
    if t == Tile(g.x1.Floor, g.y1.Floor) {
      ReachedViaLine(g, g.x1, t);
    } else if a :| (g.x1 + 1.0).Floor <= a <= g.x2.Floor && t == WestEntry(g, a) {
      ReachedViaLine(g, a as real, t);
    } else {
      var b :| (g.y1 + 1.0).Floor <= b <= g.y2.Floor && t == SouthEntry(g, b);
      CrossInside(g, b as real);
      CrossIsOnLine(g, b as real);
      ReachedViaLine(g, CrossX(g, b as real), t);
    }
  }

  /** Going up, every touched tile is entered through its western or southern edge or is the start. */
  lemma SlopeCompleteUpwards(g: Segment, t: Tile)
    requires WellPlaced(g) && g.x1 < g.x2 && g.y1 <= g.y2 && Reaches(g, t)
    ensures t in SlopeMarks(g)
  {
    var x := ReachedHasLinePoint(g, t);
    LineAtEnds(g);
    var a, b := t.x as real, t.y as real;
    if a > g.x1 && LineY(g, a) >= b {
      LineMonotone(g, a, x);
      assert t == WestEntry(g, t.x);
      assert (g.x1 + 1.0).Floor <= t.x <= g.x2.Floor;
    } else if b > g.y1 {
      CrossInside(g, b);
      CrossIsOnLine(g, b);
      var c := CrossX(g, b);
      if c > x { LineMonotone(g, x, c); }
      if a > g.x1 && c < a { LineMonotone(g, c, a); }
      assert t == SouthEntry(g, t.y);
      assert (g.y1 + 1.0).Floor <= t.y <= g.y2.Floor;
    } else {
      if a > g.x1 { LineMonotone(g, g.x1, a); }
      LineMonotone(g, g.x1, x);
      assert t == Tile(g.x1.Floor, g.y1.Floor);
    }
  }

  /** Within one row of tiles the direction does not matter. */
  lemma SlopeCompleteInOneRow(g: Segment, t: Tile)
    requires WellPlaced(g) && g.x1 < g.x2 && g.y1.Floor == g.y2.Floor && Reaches(g, t)
    ensures t in SlopeMarks(g)
  {
    var x := ReachedHasLinePoint(g, t);
    LineAtEnds(g);
    var a := t.x as real;
    if a > g.x1 {
      LineMonotone(g, g.x1, a);
      LineMonotone(g, a, x);
      SameRow(g.y1, g.y2, LineY(g, a), LineY(g, x));
      assert (g.x1 + 1.0).Floor <= t.x <= g.x2.Floor;
      assert t == WestEntry(g, t.x);
    } else {
      SameRow(g.y1, g.y2, g.y1, LineY(g, x));
      assert t == Tile(g.x1.Floor, g.y1.Floor);
    }
  }

  lemma SameRow(y1: real, y2: real, p: real, q: real)
    requires y1.Floor == y2.Floor
    requires y1 <= p <= y2 || y2 <= p <= y1
    requires y1 <= q <= y2 || y2 <= q <= y1
    ensures p.Floor == q.Floor
  {
  }

  /** Going down across a row boundary, the tile below the first boundary is touched but missed. */
  lemma SlopeMissesDownwards(g: Segment) returns (t: Tile)
    requires WellPlaced(g) && g.x1 < g.x2 && g.y2.Floor < g.y1.Floor
    ensures Reaches(g, t) && t !in SlopeMarks(g)
  {
    var b := g.y1.Floor as real;
    CrossInside(g, b);
    CrossIsOnLine(g, b);
    var c := CrossX(g, b);
    t := Tile(c.Floor, g.y1.Floor - 1);
    var x := StepRight(g, c);
    LineMonotone(g, c, x);
    ReachedViaLine(g, x, t);
    if t in SlopeMarks(g) {
      assert t.x as real <= c && t == WestEntry(g, t.x);
      LineMonotone(g, t.x as real, c);
    }
  }

  /** A point a little further along a falling line, in the same column and less than a row below. */
  lemma StepRight(g: Segment, c: real) returns (x: real)
    requires g.x1 < g.x2 && g.y2 < g.y1 && c < g.x2
    ensures c < x <= g.x2 && x.Floor == c.Floor && LineY(g, x) >= LineY(g, c) - 1.0
  {
    var k := -Incline(g);
    var room := (c.Floor as real) + 1.0 - c;
    var d := SmallStep(k, if room / 2.0 <= g.x2 - c then room / 2.0 else g.x2 - c);
    x := c + d;
    assert Incline(g) * d == -(k * d);
  }

  lemma SmallStep(k: real, bound: real) returns (d: real)
    requires k > 0.0 && bound > 0.0
    ensures 0.0 < d <= bound && k * d <= 1.0
  {
    if k * bound <= 1.0 {
      d := bound;
    } else {
      d := 1.0 / k;
      assert k * d == 1.0;
      SignOfProduct(d, k);
      SignOfProduct(bound - d, k);
      assert (bound - d) * k == k * bound - 1.0;
    }
  }

  // ----- the sloped branch, exactly

  predicate Whole(v: real) { v.Floor as real == v }

  /** A tile in which the segment starts, or which it enters at a whole x, or at a whole y on its way up. */
  ghost predicate Entered(g: Segment, t: Tile) {
    exists s :: 0.0 <= s <= 1.0 && TileAt(At(g, s)) == t
      && (s == 0.0 || (Whole(At(g, s).x) && At(g, s).x > g.x1) || (Whole(At(g, s).y) && At(g, s).y > g.y1))
  }

  lemma MarkedIsEntered(g: Segment, t: Tile)
    requires WellPlaced(g) && g.x1 < g.x2 && t in SlopeMarks(g)
    ensures Entered(g, t)
  {
    hide LineY, CrossX, Mix;
    if t == Tile(g.x1.Floor, g.y1.Floor) {
      MixAtStart(g.x1, g.x2);
      MixAtStart(g.y1, g.y2);
      assert TileAt(At(g, 0.0)) == t;
    } else if a :| (g.x1 + 1.0).Floor <= a <= g.x2.Floor && t == WestEntry(g, a) {
      LinePointIsOnSegment(g, a as real);
      var s :| 0.0 <= s <= 1.0 && At(g, s) == Point(a as real, LineY(g, a as real));
      assert TileAt(At(g, s)) == t;
    } else {
      var b :| (g.y1 + 1.0).Floor <= b <= g.y2.Floor && t == SouthEntry(g, b);
      var x := CrossX(g, b as real);
      CrossInside(g, b as real);
      CrossIsOnLine(g, b as real);
      LinePointIsOnSegment(g, x);
      var s :| 0.0 <= s <= 1.0 && At(g, s) == Point(x, LineY(g, x));
      assert TileAt(At(g, s)) == t;
    }
  }

  lemma MixAtStart(a: real, b: real)
    ensures Mix(a, b, 0.0) == a
  {
  }

  lemma EnteredIsMarked(g: Segment, t: Tile)
    requires WellPlaced(g) && g.x1 < g.x2 && Entered(g, t)
    ensures t in SlopeMarks(g)
  {
    hide LineY, CrossX, Mix;
    var s :| 0.0 <= s <= 1.0 && TileAt(At(g, s)) == t
      && (s == 0.0 || (Whole(At(g, s).x) && At(g, s).x > g.x1) || (Whole(At(g, s).y) && At(g, s).y > g.y1));
    PointIsOnLine(g, s);
    var x, y := At(g, s).x, At(g, s).y;
    if s == 0.0 {
      MixAtStart(g.x1, g.x2);
      MixAtStart(g.y1, g.y2);
    } else if Whole(x) && x > g.x1 {
      assert t == WestEntry(g, x.Floor) && (g.x1 + 1.0).Floor <= x.Floor <= g.x2.Floor;
    } else {
      MixBetween(g.y1, g.y2, s);
      CrossOnce(g, x, y);
      assert t == SouthEntry(g, y.Floor) && (g.y1 + 1.0).Floor <= y.Floor <= g.y2.Floor;
    }
  }

  /** A height is crossed in one place. */
  lemma CrossOnce(g: Segment, x: real, y: real)
    requires g.x1 < g.x2 && g.y1 < g.y2 && LineY(g, x) == y
    ensures CrossX(g, y) == x
  {
    hide LineY, CrossX;
    CrossIsOnLine(g, y);
    var c := CrossX(g, y);
    if c < x { LineMonotone(g, c, x); }
    if x < c { LineMonotone(g, x, c); }
  }

  // ----- the vertical branch

  function Low(g: Segment): real { if g.y2 < g.y1 then g.y2 else g.y1 }

  function High(g: Segment): real { if g.y2 < g.y1 then g.y1 else g.y2 }

  lemma VerticalSound(g: Segment, t: Tile)
    requires WellPlaced(g) && g.x1.Floor == g.x2.Floor
    requires t in VerticalMarks(g.x1, Low(g), High(g))
    ensures Reaches(g, t)
  {
    var y := HeightInRow(Low(g), High(g), t.y);
    var s := 0.0;
    if g.y1 != g.y2 {
      MixAtParam(g.y1, g.y2, y);
      s := Param(g.y1, g.y2, y);
    }
    MixBetween(g.x1, g.x2, s);
    assert TileAt(At(g, s)) == t;
  }

  lemma HeightInRow(lo: real, hi: real, row: int) returns (y: real)
    requires lo <= hi && lo.Floor <= row <= hi.Floor
    ensures lo <= y <= hi && y.Floor == row
  {
    y := if row as real < lo then lo else row as real;
  }

  lemma VerticalComplete(g: Segment, t: Tile)
    requires WellPlaced(g) && g.x1.Floor == g.x2.Floor && Reaches(g, t)
    ensures t in VerticalMarks(g.x1, Low(g), High(g))
  {
    var s :| 0.0 <= s <= 1.0 && TileAt(At(g, s)) == t;
    MixBetween(g.x1, g.x2, s);
    MixBetween(g.y1, g.y2, s);
    assert t == ColumnTile(g.x1, t.y);
  }

  /** A column of tiles between two heights. */
  lemma ColumnExactly(g: Segment, t: Tile)
    requires WellPlaced(g)
    ensures t in VerticalMarks(g.x1, Low(g), High(g)) <==>
            t.x == g.x1.Floor && Low(g).Floor <= t.y <= High(g).Floor
  {
    if t.x == g.x1.Floor && Low(g).Floor < t.y <= High(g).Floor { assert t == ColumnTile(g.x1, t.y); }
  }

  // ----- the whole rasteriser

  /** The marked tiles of every segment, from its end points and its points alone: none for a point; the tiles of the
      first column between the heights of the ends for a segment within one column or narrower than 10^-8; otherwise
      the tiles that are entered. Going down, that is only the first tile and those entered at a whole x. */
  lemma MarkedExactly(g: Segment, t: Tile)
    requires WellPlaced(g)
    ensures t in SegmentMarks(g) <==>
            if g.x1 == g.x2 && g.y1 == g.y2 then false
            else if g.x2 - g.x1 < 1.0 && (g.x1.Floor == g.x2.Floor || g.x2 - g.x1 < 0.00000001) then
              t.x == g.x1.Floor && (g.y1.Floor <= t.y <= g.y2.Floor || g.y2.Floor <= t.y <= g.y1.Floor)
            else Entered(g, t)
    ensures g.y2 <= g.y1 && Entered(g, t) ==>
              exists s :: 0.0 <= s <= 1.0 && TileAt(At(g, s)) == t
                && (s == 0.0 || (Whole(At(g, s).x) && At(g, s).x > g.x1))
  {
    hide Entered, SlopeMarks, VerticalMarks;
    if TakenAsVertical(g) {
      ColumnExactly(g, t);
    } else {
      if t in SlopeMarks(g) { MarkedIsEntered(g, t); }
      if Entered(g, t) { EnteredIsMarked(g, t); }
    }
    if g.y2 <= g.y1 && Entered(g, t) { EnteredDownwards(g, t); }
  }

  lemma EnteredDownwards(g: Segment, t: Tile)
    requires g.y2 <= g.y1 && Entered(g, t)
    ensures exists s :: 0.0 <= s <= 1.0 && TileAt(At(g, s)) == t
              && (s == 0.0 || (Whole(At(g, s).x) && At(g, s).x > g.x1))
  {
    hide Mix;
    var s :| 0.0 <= s <= 1.0 && TileAt(At(g, s)) == t
      && (s == 0.0 || (Whole(At(g, s).x) && At(g, s).x > g.x1) || (Whole(At(g, s).y) && At(g, s).y > g.y1));
    MixBetween(g.y1, g.y2, s);
  }

  ghost predicate MarksExactly(g: Segment)
    requires WellPlaced(g)
  {
    forall t :: t in SegmentMarks(g) <==> Reaches(g, t)
  }

  /** When a segment gets exactly the tiles it touches, decided from its end points. */
  predicate Faithful(g: Segment) {
    && !Degenerate(g)
    && (g.x1.Floor == g.x2.Floor
        || (g.x2 - g.x1 >= 0.00000001 && (g.y1 <= g.y2 || g.y1.Floor == g.y2.Floor)))
  }

  /** The main result about the rasteriser, for every segment in tile coordinates. */
  lemma MarksExactlyIffFaithful(g: Segment)
    requires WellPlaced(g)
    ensures MarksExactly(g) <==> Faithful(g)
  {
    if Faithful(g) {
      forall t
        ensures t in SegmentMarks(g) <==> Reaches(g, t)
      {
        FaithfulMarks(g, t);
      }
    } else {
      var t := UnfaithfulMisses(g);
    }
  }

  lemma FaithfulMarks(g: Segment, t: Tile)
    requires WellPlaced(g) && Faithful(g)
    ensures t in SegmentMarks(g) <==> Reaches(g, t)
  {
    if g.x1.Floor == g.x2.Floor {
      if t in SegmentMarks(g) { VerticalSound(g, t); }
      if Reaches(g, t) { VerticalComplete(g, t); }
    } else {
      if t in SegmentMarks(g) { SlopeSound(g, t); }
      if Reaches(g, t) {
        if g.y1 <= g.y2 { SlopeCompleteUpwards(g, t); } else { SlopeCompleteInOneRow(g, t); }
      }
    }
  }

  lemma UnfaithfulMisses(g: Segment) returns (t: Tile)
    requires WellPlaced(g) && !Faithful(g)
    ensures Reaches(g, t) && t !in SegmentMarks(g)
  {
    if Degenerate(g) || TakenAsVertical(g) {
      t := TileAt(Point(g.x2, g.y2));
      assert At(g, 1.0) == Point(g.x2, g.y2);
    } else {
      t := SlopeMissesDownwards(g);
    }
  }
}
