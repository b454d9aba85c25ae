/** Address interpolation, src/addr_interpolation_handler.cpp: house numbers, the walk along the way, and the
    points between two house numbers. Lengths and projected coordinates are real numbers. */
module Interpolation {
  import opened Decimal
  import opened Ints
  import opened Sequences
  import opened Wrappers

  // ----- the walk along a line

  /** Length of the first `k` segments. */
  function Prefix(segments: seq<real>, k: nat): real
    requires k <= |segments|
  {
    if k == 0 then 0.0 else Prefix(segments, k - 1) + segments[k - 1]
  }

  function Total(segments: seq<real>): real { Prefix(segments, |segments|) }

  /** Lengths of the segments of a line, at least one. */
  predicate Lengths(segments: seq<real>) { segments != [] && forall i :: 0 <= i < |segments| ==> segments[i] >= 0.0 }

  /** A line that is longer than a point. */
  predicate Line(segments: seq<real>) { Lengths(segments) && Total(segments) > 0.0 }

  lemma {:induction false} PrefixRises(segments: seq<real>, j: nat, k: nat)
    requires (forall i :: 0 <= i < |segments| ==> segments[i] >= 0.0) && j <= k <= |segments|
    ensures Prefix(segments, j) <= Prefix(segments, k)
    decreases k
  {
    if j < k { PrefixRises(segments, j, k - 1); }
  }

  /** A product, kept whole so that proofs need not look into it. */
  function Times(a: real, b: real): real { a * b }

  lemma TimesRises(a: real, f: real, g: real)
    requires a > 0.0 && f < g
    ensures Times(a, f) < Times(a, g)
  {
    assert a * (g - f) == a * g - a * f;
  }

  lemma TimesEnds(a: real)
    ensures Times(a, 0.0) == 0.0 && Times(a, 1.0) == a
  {
  }

  lemma Inside(total: real, fraction: real)
    requires total > 0.0 && 0.0 < fraction < 1.0
    ensures 0.0 < Times(total, fraction) < total
  {
    hide Times;
    TimesEnds(total);
    TimesRises(total, 0.0, fraction);
    TimesRises(total, fraction, 1.0);
  }

  /** Where a length from the start ends: behind the first `segment` segments, `remaining` into the next one. */
  datatype Position = Position(segment: nat, remaining: real)

  /** The length to go for a fraction of the line. */
  function Along(segments: seq<real>, fraction: real): real { Times(Total(segments), fraction) }

  lemma AlongInside(segments: seq<real>, fraction: real)
    requires Total(segments) > 0.0 && 0.0 < fraction < 1.0
    ensures 0.0 < Along(segments, fraction) < Total(segments)
  {
    hide Times;
    Inside(Total(segments), fraction);
  }

  predicate Reached(segments: seq<real>, length: real, p: Position) {
    && p.segment < |segments|
    && 0.0 < p.remaining <= segments[p.segment]
    && Prefix(segments, p.segment) + p.remaining == length
  }

  /** The search stops inside a segment that is not empty, before the end of the line. On a line of length zero it
      stops at the first vertex, where the program divides zero by zero. */
  predicate Ends(segments: seq<real>, length: real, p: Position) {
    if Total(segments) > 0.0 then Reached(segments, length, p) else p == Position(0, 0.0)
  }

  /** The search of `get_remote_point`. */
  method GetRemotePoint(segments: seq<real>, fraction: real) returns (p: Position)
    requires Lengths(segments) && 0.0 < fraction < 1.0
    ensures Ends(segments, Along(segments, fraction), p)
  {
    var totalLength := 0.0;
    for i := 0 to |segments|
      invariant totalLength == Prefix(segments, i)
    {
      totalLength := totalLength + segments[i];
    }
    assert totalLength == Total(segments);
    var length := Times(totalLength, fraction);
    hide Times;
    PrefixRises(segments, 0, |segments|);
    if Total(segments) > 0.0 { AlongInside(segments, fraction); }
    p := Walk(segments, length);
  }

  /** The part behind the computation of the length: go along the line until the length is reached. */
  method Walk(segments: seq<real>, length: real) returns (p: Position)
    requires Lengths(segments) && (0.0 < length < Total(segments) || length == Total(segments) == 0.0)
    ensures Ends(segments, length, p)
  {
    var traversed, last, current, lastVertex := 0.0, 0.0, 0, 0;
    var again := true;
    while again
      invariant current <= |segments|
      invariant traversed == Prefix(segments, current)
      invariant if current == 0 then again else again <==> traversed < length
      invariant !again ==> current == lastVertex + 1 && last == Prefix(segments, lastVertex)
      invariant !again ==> lastVertex == 0 || last < length
      decreases |segments| - current, again
    {
      assert current < |segments|;
      last := traversed;
      traversed := traversed + segments[current];
      lastVertex := current;
      current := lastVertex + 1;
      again := traversed < length;
    }
    PrefixRises(segments, 0, lastVertex);
    p := Position(lastVertex, length - last);
  }

  /** There is only one such position. */
  lemma OnePosition(segments: seq<real>, length: real, p: Position, q: Position)
    requires Line(segments) && Reached(segments, length, p) && Reached(segments, length, q)
    ensures p == q
  {
    NeverBackwards(segments, length, length, p, q);
    NeverBackwards(segments, length, length, q, p);
  }

  /** For larger lengths the walk never chooses an earlier segment, and goes further within the same one. */
  lemma NeverBackwards(segments: seq<real>, a: real, b: real, p: Position, q: Position)
    requires Line(segments) && a <= b && Reached(segments, a, p) && Reached(segments, b, q)
    ensures p.segment <= q.segment
    ensures p.segment == q.segment ==> p.remaining <= q.remaining
    ensures a < b && p.segment == q.segment ==> p.remaining < q.remaining
  {
    if q.segment < p.segment {
      PrefixRises(segments, q.segment + 1, p.segment);
    }
  }

  datatype Coordinates = Coordinates(x: real, y: real)

  /** The result of `get_remote_point` between the projected ends of the segment. */
  function PointOn(c1: Coordinates, c2: Coordinates, remaining: real, whole: real): Coordinates
    requires whole > 0.0
  {
    Coordinates(c1.x + remaining / whole * (c2.x - c1.x), c1.y + remaining / whole * (c2.y - c1.y))
  }

  /** The point lies on the segment, at the fraction that the remaining length is of the segment; it is the end
      point exactly if the segment is used up or has equal ends. */
  lemma PointIsOnSegment(c1: Coordinates, c2: Coordinates, remaining: real, whole: real)
    requires 0.0 < remaining <= whole
    ensures var t := remaining / whole;
            && 0.0 < t <= 1.0 && t * whole == remaining
            && PointOn(c1, c2, remaining, whole)
               == Coordinates((1.0 - t) * c1.x + t * c2.x, (1.0 - t) * c1.y + t * c2.y)
    ensures PointOn(c1, c2, remaining, whole) == c2 <==> remaining == whole || c1 == c2
  {
    var t := remaining / whole;
    Blend(c1.x, c2.x, t);
    Blend(c1.y, c2.y, t);
  }

  lemma Blend(a: real, b: real, t: real)
    ensures a + t * (b - a) == (1.0 - t) * a + t * b
    ensures a + t * (b - a) == b <==> t == 1.0 || a == b
  {
    assert t * (b - a) == t * b - t * a;
    assert (1.0 - t) * a == a - t * a;
    assert a + t * (b - a) - b == (t - 1.0) * (b - a);
    NoZeroDivisor(t - 1.0, b - a);
  }

  lemma NoZeroDivisor(a: real, b: real)
    ensures a * b == 0.0 <==> a == 0.0 || b == 0.0
  {
    if a > 0.0 && b < 0.0 { assert a * -b == -(a * b); }
    if a < 0.0 && b > 0.0 { assert -a * b == -(a * b); }
    if a < 0.0 && b < 0.0 { assert -a * -b == a * b; }
  }

  // ----- house numbers

  const NUL := 0 as char

  datatype HouseNumber = HouseNumber(number: int, suffix: char) {
    predicate Valid() { number > 0 }
  }

  datatype InterpolationType = ODD | EVEN | ALL | ALPHABETIC

  function ToLower(c: char): char { if 'A' <= c <= 'Z' then (c as int + 32) as char else c }

  predicate IsAlpha(c: char) { 'A' <= c <= 'Z' || 'a' <= c <= 'z' }

  /** `interpolation_difference` */
  function Difference(kind: InterpolationType, a: HouseNumber, b: HouseNumber): int {
    if kind == ALPHABETIC then ToLower(a.suffix) as int - ToLower(b.suffix) as int else a.number - b.number
  }

  function Abs(x: int): int { if x < 0 then -x else x }

  function Increment(kind: InterpolationType): int { if kind == ODD || kind == EVEN then 2 else 1 }

  /** `increment_alphabetic` and `increment_numeric` */
  function Incremented(kind: InterpolationType, hn: HouseNumber, i: int): Result<HouseNumber>
    requires i >= 0
  {
    if kind == ALPHABETIC then
      var s := hn.suffix as int + i;
      if s < 0x41 || 0x5a < s < 0x61 || s > 0x7a then Err("Alphabetic increment beyond range [A-Za-z]")
      else Ok(hn.(suffix := s as char))
    else Ok(hn.(number := hn.number + i))
  }

  /** One row: its house number and its place. */
  datatype AddressPoint = AddressPoint(number: HouseNumber, place: Position)

  function Fraction(i: int, diff: int): real
    requires diff != 0
  {
    i as real / diff as real
  }

  lemma FractionInside(i: int, diff: int)
    requires 0 < i < diff
    ensures 0.0 < Fraction(i, diff) < 1.0
  {
  }

  lemma FractionRises(i: int, j: int, diff: int)
    requires 0 < i < j < diff
    ensures Fraction(i, diff) < Fraction(j, diff)
  {
    var a, b, d := Fraction(i, diff), Fraction(j, diff), diff as real;
    assert (b - a) * d == j as real - i as real;
  }

  /** What `add_points_to_str` has written before increment `i`. */
  ghost predicate Written(segments: seq<real>, hn1: HouseNumber, kind: InterpolationType, diff: int, n: nat,
                          points: seq<AddressPoint>)
  {
    && |points| == n && (n > 0 ==> n * Increment(kind) < diff)
    && forall k :: 0 <= k < n ==> PointAt(segments, hn1, kind, diff, (k + 1) * Increment(kind), points[k])
  }

  ghost predicate PointAt(segments: seq<real>, hn1: HouseNumber, kind: InterpolationType, diff: int, i: int,
                          p: AddressPoint)
  {
    && 0 < i < diff
    && Incremented(kind, hn1, i) == Ok(p.number)
    && Ends(segments, Along(segments, Fraction(i, diff)), p.place)
  }

  /** Some increment below the difference leaves the letters. */
  ghost predicate Overflows(hn1: HouseNumber, kind: InterpolationType, diff: int) {
    exists i :: 0 < i < diff && Incremented(kind, hn1, i).Err?
  }

  /** All points of a call have been written. */
  ghost predicate Complete(segments: seq<real>, hn1: HouseNumber, kind: InterpolationType, diff: int,
                           points: seq<AddressPoint>)
  {
    Written(segments, hn1, kind, diff, |points|, points) && (|points| + 1) * Increment(kind) >= diff
  }

  /** Nothing is written for an invalid house number; an odd difference and an increment beyond the letters
      throw; otherwise every increment below the difference gets its point. */
  ghost predicate Outcome(segments: seq<real>, hn1: HouseNumber, hn2: HouseNumber, kind: InterpolationType,
                          r: Result<seq<AddressPoint>>)
  {
    var diff := Abs(Difference(kind, hn2, hn1));
    if !hn1.Valid() || !hn2.Valid() then r == Ok([])
    else
      && (r.Err? <==> ((kind == ODD || kind == EVEN) && diff % 2 != 0) || Overflows(hn1, kind, diff))
      && (r.Ok? ==> Complete(segments, hn1, kind, diff, r.value))
  }

  /** The step from one number to the next, and the distance of the ends: of the numbers, or of the letters whatever
      their case. */
  function Step(kind: InterpolationType): int { if kind == ODD || kind == EVEN then 2 else 1 }

  function Apart(kind: InterpolationType, hn1: HouseNumber, hn2: HouseNumber): int {
    if kind == ALPHABETIC then Abs(ToLower(hn1.suffix) as int - ToLower(hn2.suffix) as int)
    else Abs(hn1.number - hn2.number)
  }

  /** The whole list, written out: how many points there are, and for every point its house number and its place. The
      first end is copied but for the number, or for the letter; the place divides the line like the step divides the
      distance of the ends. */
  ghost predicate RightPoints(segments: seq<real>, hn1: HouseNumber, hn2: HouseNumber, kind: InterpolationType,
                              points: seq<AddressPoint>)
  {
    var d, step := Apart(kind, hn1, hn2), Step(kind);
    && |points| == (if d == 0 then 0 else (d - 1) / step)
    && forall k :: 0 <= k < |points| ==> RightPoint(segments, hn1, kind, d, (k + 1) * step, points[k])
  }

  ghost predicate RightPoint(segments: seq<real>, hn1: HouseNumber, kind: InterpolationType, d: int, i: int,
                             p: AddressPoint)
  {
    && (kind == ALPHABETIC ==>
          && p.number.number == hn1.number && p.number.suffix as int == hn1.suffix as int + i
          && IsAlpha(p.number.suffix))
    && (kind != ALPHABETIC ==> p.number == HouseNumber(hn1.number + i, hn1.suffix))
    && (Total(segments) > 0.0 ==>
          && p.place.segment < |segments| && 0.0 < p.place.remaining <= segments[p.place.segment]
          && (Prefix(segments, p.place.segment) + p.place.remaining) * d as real == Total(segments) * i as real)
  }

  lemma PointIsRight(segments: seq<real>, hn1: HouseNumber, kind: InterpolationType, d: int, i: int, p: AddressPoint)
    requires PointAt(segments, hn1, kind, d, i, p)
    ensures RightPoint(segments, hn1, kind, d, i, p)
  {
    hide Total, Prefix;
    PartOf(Total(segments), i, d);
  }

  lemma PartOf(a: real, i: int, d: int)
    requires 0 < i < d
    ensures Times(a, Fraction(i, d)) * d as real == a * i as real
  {
    var f := Fraction(i, d);
    assert f * d as real == i as real;
    assert a * f * d as real == a * (f * d as real);
  }

  lemma PointsAreRight(segments: seq<real>, hn1: HouseNumber, hn2: HouseNumber, kind: InterpolationType,
                       points: seq<AddressPoint>)
    requires Complete(segments, hn1, kind, Abs(Difference(kind, hn2, hn1)), points)
    ensures RightPoints(segments, hn1, hn2, kind, points)
  {
    hide PointAt, RightPoint;
    var d := Apart(kind, hn1, hn2);
    forall k | 0 <= k < |points| ensures RightPoint(segments, hn1, kind, d, (k + 1) * Step(kind), points[k]) {
      PointIsRight(segments, hn1, kind, d, (k + 1) * Step(kind), points[k]);
    }
  }

  /** `add_points_to_str` for two parsed house numbers. */
  method AddPoints(segments: seq<real>, hn1: HouseNumber, hn2: HouseNumber, kind: InterpolationType)
    returns (r: Result<seq<AddressPoint>>)
    requires Lengths(segments)
    ensures Outcome(segments, hn1, hn2, kind, r)
    ensures r.Ok? && hn1.Valid() && hn2.Valid() ==> RightPoints(segments, hn1, hn2, kind, r.value)
  {
    hide RightPoints, Ends, Reached, Fraction, Along;
    if !hn1.Valid() || !hn2.Valid() {
      return Ok([]);
    }
    var diff := Abs(Difference(kind, hn2, hn1));
    if (kind == ODD || kind == EVEN) && diff % 2 != 0 {
      return Err("Odd or even interpolation with odd difference");
    }
    var inc := 1;
    if kind == ODD || kind == EVEN {
      inc := 2;
    }
    var points: seq<AddressPoint> := [];
    var i := inc;
    ghost var n := 0;
    while i < diff
      invariant i == (n + 1) * inc && Written(segments, hn1, kind, diff, n, points)
      invariant kind == ALPHABETIC ==> inc == 1 && forall j :: 0 < j < i ==> Incremented(kind, hn1, j).Ok?
      decreases diff - i
    {
      FractionInside(i, diff);
      var place := GetRemotePoint(segments, Fraction(i, diff));
      var number := Incremented(kind, hn1, i);
      if number.Err? {
        return Err(number.message);
      }
      assert PointAt(segments, hn1, kind, diff, i, AddressPoint(number.value, place));
      assert i == (n + 1) * Increment(kind);
      ghost var before := points;
      points := points + [AddressPoint(number.value, place)];
      n := n + 1;
      i := i + inc;
    }
    assert kind != ALPHABETIC ==> !Overflows(hn1, kind, diff);
    PointsAreRight(segments, hn1, hn2, kind, points);
    return Ok(points);
  }

  /** `add_points_to_str` with the values of addr:housenumber at both ends. */
  method AddPointsToStr(segments: seq<real>, number1: Option<string>, number2: Option<string>, kind: InterpolationType)
    returns (r: Result<seq<AddressPoint>>)
    requires Lengths(segments)
    ensures ParseNumber(number1).Err? || ParseNumber(number2).Err? ==> r.Err?
    ensures ParseNumber(number1).Ok? && ParseNumber(number2).Ok? ==>
              Outcome(segments, ParseNumber(number1).value, ParseNumber(number2).value, kind, r)
    ensures r.Ok? && ParseNumber(number1).value.Valid() && ParseNumber(number2).value.Valid() ==>
              RightPoints(segments, ParseNumber(number1).value, ParseNumber(number2).value, kind, r.value)
  {
    hide ParseNumber, Outcome, RightPoints;
    var hn1 := ParseNumber(number1);
    if hn1.Err? {
      return Err(hn1.message);
    }
    var hn2 := ParseNumber(number2);
    if hn2.Err? {
      return Err(hn2.message);
    }
    r := AddPoints(segments, hn1.value, hn2.value, kind);
  }

  // ----- which house numbers are written

  predicate Between(a: int, b: int, m: int) { (a < m < b) || (b < m < a) }

  /** The number of every point, by its position in the list. */
  lemma NumberAt(segments: seq<real>, hn1: HouseNumber, kind: InterpolationType, diff: int,
                 points: seq<AddressPoint>, k: nat)
    requires Complete(segments, hn1, kind, diff, points) && k < |points|
    ensures 0 < (k + 1) * Increment(kind) < diff
    ensures Incremented(kind, hn1, (k + 1) * Increment(kind)) == Ok(points[k].number)
    ensures Ends(segments, Along(segments, Fraction((k + 1) * Increment(kind), diff)), points[k].place)
  {
    hide Increment, Incremented, Reached, Along;
    var i := (k + 1) * Increment(kind);
    assert PointAt(segments, hn1, kind, diff, i, points[k]);
  }

  ghost predicate Emitted(points: seq<AddressPoint>, m: int) {
    exists k :: 0 <= k < |points| && points[k].number.number == m
  }

  /** For an ascending range exactly the numbers strictly between the ends at the right step are written. */
  lemma NumbersBetween(segments: seq<real>, hn1: HouseNumber, hn2: HouseNumber, kind: InterpolationType,
                       points: seq<AddressPoint>, m: int)
    requires kind != ALPHABETIC && hn1.number <= hn2.number
    requires Complete(segments, hn1, kind, hn2.number - hn1.number, points)
    ensures Emitted(points, m) <==> hn1.number < m < hn2.number && (m - hn1.number) % Increment(kind) == 0
  {
    hide Complete, Ends, Along;
    var diff, inc := hn2.number - hn1.number, Increment(kind);
    if Emitted(points, m) {
      var k :| 0 <= k < |points| && points[k].number.number == m;
      NumberAt(segments, hn1, kind, diff, points, k);
      assert m == hn1.number + (k + 1) * inc;
    }
    if hn1.number < m < hn2.number && (m - hn1.number) % inc == 0 {
      var k := (m - hn1.number) / inc - 1;
      assert (k + 1) * inc == m - hn1.number;
      CompleteBound(segments, hn1, kind, diff, points, k);
      NumberAt(segments, hn1, kind, diff, points, k);
    }
  }

  lemma CompleteBound(segments: seq<real>, hn1: HouseNumber, kind: InterpolationType, diff: int,
                      points: seq<AddressPoint>, k: int)
    requires Complete(segments, hn1, kind, diff, points) && 0 <= k && (k + 1) * Increment(kind) < diff
    ensures k < |points|
  {
    assert (k + 1) * Increment(kind) < (|points| + 1) * Increment(kind);
  }

  /** The increments are always added, so for a descending range with something to write the numbers lie beyond
      the first end: the numbers are between the ends exactly if the range ascends or nothing is written. */
  lemma BetweenIffAscending(segments: seq<real>, hn1: HouseNumber, hn2: HouseNumber, kind: InterpolationType,
                            points: seq<AddressPoint>)
    requires kind != ALPHABETIC && Complete(segments, hn1, kind, Abs(Difference(kind, hn2, hn1)), points)
    ensures (forall k :: 0 <= k < |points| ==> Between(hn1.number, hn2.number, points[k].number.number)) <==>
            hn1.number <= hn2.number || points == []
    ensures points == [] <==> Abs(hn2.number - hn1.number) <= Increment(kind)
  {
    hide Complete, Ends, Along;
    var diff := Abs(hn2.number - hn1.number);
    forall k | 0 <= k < |points|
      ensures hn1.number < points[k].number.number < hn1.number + diff
    {
      NumberAt(segments, hn1, kind, diff, points, k);
    }
    if points == [] {
      CompleteNothing(segments, hn1, kind, diff, points);
    } else {
      NumberAt(segments, hn1, kind, diff, points, 0);
    }
  }

  lemma CompleteNothing(segments: seq<real>, hn1: HouseNumber, kind: InterpolationType, diff: int,
                        points: seq<AddressPoint>)
    requires Complete(segments, hn1, kind, diff, points) && points == []
    ensures diff <= Increment(kind)
  {
  }

  /** Along the list the walk never goes back. */
  lemma PointsInOrder(segments: seq<real>, hn1: HouseNumber, kind: InterpolationType, diff: int,
                      points: seq<AddressPoint>, j: nat, k: nat)
    requires Line(segments) && Complete(segments, hn1, kind, diff, points) && j < k < |points|
    ensures points[j].place.segment <= points[k].place.segment < |segments|
    ensures points[j].place.segment == points[k].place.segment ==> points[j].place.remaining < points[k].place.remaining
  {
    hide Complete, Fraction;
    NumberAt(segments, hn1, kind, diff, points, j);
    NumberAt(segments, hn1, kind, diff, points, k);
    var a, b := (j + 1) * Increment(kind), (k + 1) * Increment(kind);
    assert a < b;
    FractionRises(a, b, diff);
    NeverBackwards(segments, Along(segments, Fraction(a, diff)), Along(segments, Fraction(b, diff)), points[j].place,
                   points[k].place);
  }

  // ----- letters

  /** How many letters of the same case follow a letter. */
  function Room(c: char): int
    requires IsAlpha(c)
  {
    if c <= 'Z' then 0x5a - c as int else 0x7a - c as int
  }

  /** An alphabetic interpolation throws exactly if there is something to write but the first house number has no
      letter, or the increments run past the last letter of its case. */
  lemma OverflowsExactly(hn1: HouseNumber, diff: int)
    requires hn1.suffix == NUL || IsAlpha(hn1.suffix)
    ensures Overflows(hn1, ALPHABETIC, diff) <==> diff > 1 && (hn1.suffix == NUL || diff - 1 > Room(hn1.suffix))
  {
    if diff > 1 && hn1.suffix == NUL {
      assert Incremented(ALPHABETIC, hn1, 1).Err?;
    }
    if IsAlpha(hn1.suffix) && diff - 1 > Room(hn1.suffix) {
      assert Incremented(ALPHABETIC, hn1, Room(hn1.suffix) + 1).Err?;
    }
  }

  /** For ascending letters nothing is thrown, and exactly the letters between the ends are written, in the case
      of the first one. */
  lemma LettersBetween(segments: seq<real>, hn1: HouseNumber, hn2: HouseNumber, points: seq<AddressPoint>, c: char)
    requires IsAlpha(hn1.suffix) && IsAlpha(hn2.suffix) && IsAlpha(c) && ToLower(hn1.suffix) <= ToLower(hn2.suffix)
    requires Complete(segments, hn1, ALPHABETIC, Abs(Difference(ALPHABETIC, hn2, hn1)), points)
    ensures !Overflows(hn1, ALPHABETIC, Abs(Difference(ALPHABETIC, hn2, hn1)))
    ensures (exists k :: 0 <= k < |points| && points[k].number.suffix == c) <==>
            ToLower(hn1.suffix) < ToLower(c) < ToLower(hn2.suffix) && (c <= 'Z' <==> hn1.suffix <= 'Z')
  {
    hide Complete, Ends, Along;
    var diff := Abs(Difference(ALPHABETIC, hn2, hn1));
    OverflowsExactly(hn1, diff);
    if k :| 0 <= k < |points| && points[k].number.suffix == c {
      NumberAt(segments, hn1, ALPHABETIC, diff, points, k);
    }
    if ToLower(hn1.suffix) < ToLower(c) < ToLower(hn2.suffix) && (c <= 'Z' <==> hn1.suffix <= 'Z') {
      var k := c as int - hn1.suffix as int - 1;
      CompleteBound(segments, hn1, ALPHABETIC, diff, points, k);
      NumberAt(segments, hn1, ALPHABETIC, diff, points, k);
    }
  }

  // ----- reading and writing house numbers

  predicate IsSpace(c: char) { c == ' ' || 9 as char <= c <= 13 as char }

  function SkipSpaces(s: string): string { if s != "" && IsSpace(s[0]) then SkipSpaces(s[1..]) else s }

  const INVALID := HouseNumber(0, NUL)

  /** `parse_number` */
  function ParseNumber(start: Option<string>): Result<HouseNumber> {
    if start.None? then Ok(INVALID) else ParseSigned(SkipSpaces(start.value))
  }

  /** strtol behind the spaces, and the rest of the text. */
  function ParseSigned(s: string): Result<HouseNumber> {
    var signed := s != "" && (s[0] == '-' || s[0] == '+');
    var d := if signed then s[1..] else s;
    var run := DigitRun(d);
    if run == 0 then Ok(INVALID)
    else
      RunOfDigits(d);
      var value := Value(d[..run]);
      ParseRest(Wrap32(Clamp(if signed && s[0] == '-' then -value else value)), d[run..])
  }

  function ParseRest(number: int, behind: string): Result<HouseNumber> {
    if number <= 0 then Err("Failed to parse house number. Numeric part is invalid or negative.")
    else ParseSuffix(number, behind)
  }

  function ParseSuffix(number: int, behind: string): Result<HouseNumber> {
    var rest := if behind != "" && IsSpace(behind[0]) then behind[1..] else behind;
    if rest == "" then Ok(HouseNumber(number, NUL))
    else if !IsAlpha(rest[0]) then Err("Failed to parse house number. Non-alphabetic character after number.")
    else if |rest| > 1 then Err("Failed to parse house number. More than one character after number.")
    else Ok(HouseNumber(number, rest[0]))
  }

  /** The text that is written for a house number. */
  function Printed(hn: HouseNumber): string { Print(hn.number) + if hn.suffix != NUL then [hn.suffix] else "" }

  lemma {:induction false} RunBefore(s: string, t: string)
    requires AllDigits(s) && (t == "" || !IsDigit(t[0]))
    ensures DigitRun(s + t) == |s|
  {
    if s == "" {
      assert s + t == t;
    } else {
      assert (s + t)[1..] == s[1..] + t;
      RunBefore(s[1..], t);
    }
  }

  /** What is written can be read again, for all numbers of the type int and all letters. */
  lemma ParsePrinted(hn: HouseNumber)
    requires 0 < hn.number < 0x8000_0000 && (hn.suffix == NUL || IsAlpha(hn.suffix))
    ensures ParseNumber(Some(Printed(hn))) == Ok(hn)
  {
    hide Value, Digits;
    var digits := Digits(hn.number);
    DigitsRoundTrip(hn.number);
    var t := if hn.suffix != NUL then [hn.suffix] else "";
    RunBefore(digits, t);
    var s := digits + t;
    assert s[0] == digits[0] && IsDigit(digits[0]);
    Split(digits, t);
    assert SkipSpaces(s) == s;
    if t != "" { assert t[1..] == ""; }
  }

  // ----- which texts are house numbers

  predicate AllSpaces(s: string) { forall i :: 0 <= i < |s| ==> IsSpace(s[i]) }

  lemma {:induction false} SpacesSkipped(spaces: string, rest: string)
    requires AllSpaces(spaces) && (rest == "" || !IsSpace(rest[0]))
    ensures SkipSpaces(spaces + rest) == rest
  {
    if spaces == "" {
      assert spaces + rest == rest;
    } else {
      assert (spaces + rest)[1..] == spaces[1..] + rest;
      SpacesSkipped(spaces[1..], rest);
    }
  }

  /** What may stand behind the digits: nothing or a letter, with or without one space before it. */
  predicate Suffix(behind: string, letter: char) {
    || (letter == NUL && (behind == "" || (|behind| == 1 && IsSpace(behind[0]))))
    || (IsAlpha(letter) && (behind == [letter] || (|behind| == 2 && IsSpace(behind[0]) && behind[1] == letter)))
  }

  /** For every text that starts with a number: which texts are read, as what, and which throw. The number is read as
      64 bits and kept as 32 bits, which the digits of an int survive. */
  lemma ParseExactly(spaces: string, sign: string, digits: string, behind: string, hn: HouseNumber)
    requires AllSpaces(spaces) && (sign == "" || sign == "+" || sign == "-")
    requires digits != "" && AllDigits(digits) && (behind == "" || !IsDigit(behind[0]))
    ensures var v := if sign == "-" then -Value(digits) else Value(digits);
            ParseNumber(Some(spaces + (sign + (digits + behind)))) == Ok(hn) <==>
            Wrap32(Clamp(v)) > 0 && hn.number == Wrap32(Clamp(v)) && Suffix(behind, hn.suffix)
    ensures 0 < Value(digits) < 0x8000_0000 && sign != "-" ==> Wrap32(Clamp(Value(digits))) == Value(digits)
  {
    hide Value, Wrap32, Clamp, ParseSigned, ParseRest, Suffix, SkipSpaces, IsDigit, IsSpace, AllDigits, AllSpaces;
    StartsNumber(sign, digits, behind);
    SpacesSkipped(spaces, sign + (digits + behind));
    SignedParses(sign, digits, behind);
    RestIff(Wrap32(Clamp(if sign == "-" then -Value(digits) else Value(digits))), behind, hn);
    Unwrapped(Value(digits));
  }

  lemma StartsNumber(sign: string, digits: string, behind: string)
    requires sign == "" || sign == "+" || sign == "-"
    requires digits != "" && AllDigits(digits)
    ensures var s := sign + (digits + behind); s != "" && !IsSpace(s[0])
  {
    var s := sign + (digits + behind);
    assert s[0] == if sign == "" then digits[0] else sign[0];
    assert IsDigit(digits[0]);
  }

  lemma RestIff(number: int, behind: string, hn: HouseNumber)
    ensures ParseRest(number, behind) == Ok(hn) <==> number > 0 && hn.number == number && Suffix(behind, hn.suffix)
  {
    SuffixIff(number, behind, hn);
  }

  lemma SignedParses(sign: string, digits: string, behind: string)
    requires sign == "" || sign == "+" || sign == "-"
    requires digits != "" && AllDigits(digits) && (behind == "" || !IsDigit(behind[0]))
    ensures ParseSigned(sign + (digits + behind)) ==
            ParseRest(Wrap32(Clamp(if sign == "-" then -Value(digits) else Value(digits))), behind)
  {
    hide Value, Wrap32, Clamp, ParseRest;
    var s, d := sign + (digits + behind), digits + behind;
    RunBefore(digits, behind);
    Split(digits, behind);
    Split(sign, d);
    assert d[0] == digits[0] && IsDigit(d[0]);
    assert s[0] == if sign == "" then d[0] else sign[0];
    if sign == "" { assert s == d; }
  }

  lemma Unwrapped(v: int)
    ensures 0 < v < 0x8000_0000 ==> Wrap32(Clamp(v)) == v
  {
  }

  lemma SuffixIff(number: int, behind: string, hn: HouseNumber)
    ensures ParseSuffix(number, behind) == Ok(hn) <==> hn.number == number && Suffix(behind, hn.suffix)
  {
  }

  /** A range such as 15-19 throws. */
  lemma RangeThrows()
    ensures ParseNumber(Some("15-19")).Err?
  {
    assert "15-19" == "" + ("" + ("15" + "-19"));
    var r := ParseNumber(Some("15-19"));
    if r.Ok? { ParseExactly("", "", "15", "-19", r.value); }
  }

  /** Without digits behind spaces and a sign there is no number. */
  lemma NoNumber(spaces: string, sign: string, behind: string)
    requires AllSpaces(spaces) && (sign == "" || sign == "+" || sign == "-")
    requires sign != "" ==> behind == "" || !IsDigit(behind[0])
    requires sign == "" ==> behind == "" || !(IsDigit(behind[0]) || IsSpace(behind[0]) || behind[0] in {'+', '-'})
    ensures ParseNumber(Some(spaces + (sign + behind))) == Ok(INVALID) && !INVALID.Valid()
  {
    SpacesSkipped(spaces, sign + behind);
    Split(sign, behind);
    if sign == "" { assert sign + behind == behind; }
  }
}
