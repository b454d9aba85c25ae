/** Well-known binary (OGC 99-049, section 3.3) and its extension EWKB in little endian: the bytes
    that belong to a geometry, and a decoder that knows nothing about the writer. A double is an
    opaque block of eight bytes. */
module Wkb {
  import opened Sequences

  /** A char of a std::string: one byte. */
  type byte = char

  /** Eight bytes that nobody looks into. */
  datatype Double = Double(b0: byte, b1: byte, b2: byte, b3: byte, b4: byte, b5: byte, b6: byte, b7: byte)

  function Bytes(d: Double): (s: seq<byte>)
    ensures |s| == 8
  {
    [d.b0, d.b1, d.b2, d.b3, d.b4, d.b5, d.b6, d.b7]
  }

  function DoubleOf(s: seq<byte>): Double
    requires |s| >= 8
  {
    Double(s[0], s[1], s[2], s[3], s[4], s[5], s[6], s[7])
  }

  datatype Coord = Coord(x: Double, y: Double)

  type Ring = seq<Coord>
  type Polygon = seq<Ring>

  datatype Geometry =
    | PointG(c: Coord)
    | LineStringG(points: seq<Coord>)
    | PolygonG(rings: Polygon)
    | MultiPolygonG(polygons: seq<Polygon>)

  const U32_LIMIT := 0x1_0000_0000
  /** Byte order marker of little endian. */
  const NDR: byte := 1 as char
  const WKB_POINT := 1
  const WKB_LINESTRING := 2
  const WKB_POLYGON := 3
  const WKB_MULTIPOLYGON := 6
  const WKB_SRID := 0x2000_0000

  type Word = n: int | 0 <= n < U32_LIMIT

  /** Format of a writer: EWKB carries the 32 bits of the SRID. */
  datatype Format = Format(ewkb: bool, srid: Word)

  /** The k low bytes of a number, least significant first. */
  function LittleEndian(n: int, k: nat): (s: seq<byte>)
    ensures |s| == k
    decreases k
  {
    if k == 0 then [] else [(n % 256) as char] + LittleEndian(n / 256, k - 1)
  }

  function FromLittleEndian(s: seq<byte>, k: nat): (n: nat)
    requires |s| >= k
  {
    if k == 0 then 0
    else
      s[0] as int % 256 + 256 * FromLittleEndian(s[1..], k - 1)
  }

  function Power256(k: nat): (p: nat)
    ensures p > 0
  {
    if k == 0 then 1 else 256 * Power256(k - 1)
  }

  lemma {:induction false} LittleEndianRoundTrip(n: int, k: nat, rest: seq<byte>)
    requires 0 <= n < Power256(k)
    ensures FromLittleEndian(LittleEndian(n, k) + rest, k) == n
    decreases k
  {
    if k > 0 {
      LittleEndianRoundTrip(n / 256, k - 1, rest);
      assert (LittleEndian(n, k) + rest)[1..] == LittleEndian(n / 256, k - 1) + rest;
    }
  }

  lemma {:induction false} FromLittleEndianBound(s: seq<byte>, k: nat)
    requires |s| >= k
    ensures FromLittleEndian(s, k) < Power256(k)
  {
    if k > 0 { FromLittleEndianBound(s[1..], k - 1); }
  }

  /** Length of a 32-bit word in bytes. */
  const WORD: nat := 4

  lemma WordLimit()
    ensures Power256(WORD) == U32_LIMIT
  {
    assert Power256(3) == 0x100_0000;
  }

  /** A 32-bit int as four bytes. */
  function U32(n: int): (s: seq<byte>)
    ensures |s| == 4
  {
    LittleEndian(n, WORD)
  }

  function FromU32(s: seq<byte>): nat
    requires |s| >= 4
  {
    FromLittleEndian(s, WORD)
  }

  lemma FromU32U32(n: int, rest: seq<byte>)
    requires 0 <= n < U32_LIMIT
    ensures FromU32(U32(n) + rest) == n
  {
    WordLimit();
    LittleEndianRoundTrip(n, WORD, rest);
  }

  // ----- encoding

  function PlainHeader(kind: int): seq<byte> { [NDR] + U32(kind) }

  function EwkbHeader(kind: int, srid: int): seq<byte> { [NDR] + (U32(kind + WKB_SRID) + U32(srid)) }

  function Header(kind: int, f: Format): seq<byte> {
    [NDR] + (if f.ewkb then U32(kind + WKB_SRID) + U32(f.srid) else U32(kind))
  }

  function EncodeCoord(c: Coord): seq<byte> { Bytes(c.x) + Bytes(c.y) }

  function EncodePoints(ps: seq<Coord>): seq<byte> {
    if ps == [] then [] else EncodePoints(ps[..|ps| - 1]) + EncodeCoord(ps[|ps| - 1])
  }

  /** A ring carries the low 32 bits of its number of points. */
  function EncodeRing(r: Ring): seq<byte> { U32(|r| % U32_LIMIT) + EncodePoints(r) }

  function EncodeRings(rs: Polygon): seq<byte> {
    if rs == [] then [] else EncodeRings(rs[..|rs| - 1]) + EncodeRing(rs[|rs| - 1])
  }

  function EncodePolygon(rs: Polygon, f: Format): seq<byte> {
    Header(WKB_POLYGON, f) + U32(|rs|) + EncodeRings(rs)
  }

  function EncodePolygons(ps: seq<Polygon>, f: Format): seq<byte> {
    if ps == [] then [] else EncodePolygons(ps[..|ps| - 1], f) + EncodePolygon(ps[|ps| - 1], f)
  }

  function Encode(g: Geometry, f: Format): seq<byte> {
    match g
    case PointG(c) => Header(WKB_POINT, f) + EncodeCoord(c)
    case LineStringG(ps) => Header(WKB_LINESTRING, f) + U32(|ps|) + EncodePoints(ps)
    case PolygonG(rs) => EncodePolygon(rs, f)
    case MultiPolygonG(ps) => Header(WKB_MULTIPOLYGON, f) + U32(|ps|) + EncodePolygons(ps, f)
  }

  // ----- decoding

  datatype Parsed<T> = Bad | Good(value: T, rest: seq<byte>)

  /** Read a header: geometry type and, if flagged, the SRID bits. */
  datatype Head = Head(kind: int, srid: int)

  const NO_SRID := -1

  function DecodeHeader(s: seq<byte>): Parsed<Head> {
    if |s| < 5 || s[0] != NDR then Bad
    else
      var k := FromU32(s[1..]);
      if k / WKB_SRID % 2 == 0 then Good(Head(k, NO_SRID), s[5..])
      else if |s| < 9 then Bad
      else Good(Head(k - WKB_SRID, FromU32(s[5..])), s[9..])
  }

  function DecodePoints(n: nat, s: seq<byte>): Parsed<seq<Coord>> {
    if n == 0 then Good([], s)
    else if |s| < 16 then Bad
    else match DecodePoints(n - 1, s[16..])
      case Bad => Bad
      case Good(ps, rest) => Good([Coord(DoubleOf(s), DoubleOf(s[8..]))] + ps, rest)
  }

  function DecodeRing(s: seq<byte>): Parsed<Ring> {
    if |s| < 4 then Bad else DecodePoints(FromU32(s), s[4..])
  }

  function DecodeRings(n: nat, s: seq<byte>): Parsed<Polygon> {
    if n == 0 then Good([], s)
    else match DecodeRing(s)
      case Bad => Bad
      case Good(r, more) =>
        match DecodeRings(n - 1, more)
        case Bad => Bad
        case Good(rs, rest) => Good([r] + rs, rest)
  }

  function DecodePolygonBody(s: seq<byte>): Parsed<Polygon> {
    if |s| < 4 then Bad else DecodeRings(FromU32(s), s[4..])
  }

  function DecodePolygons(n: nat, s: seq<byte>): Parsed<seq<Polygon>> {
    if n == 0 then Good([], s)
    else match DecodeHeader(s)
      case Bad => Bad
      case Good(h, body) =>
        if h.kind != WKB_POLYGON then Bad
        else match DecodePolygonBody(body)
          case Bad => Bad
          case Good(p, more) =>
            match DecodePolygons(n - 1, more)
            case Bad => Bad
            case Good(ps, rest) => Good([p] + ps, rest)
  }

  function DecodeBody(kind: int, s: seq<byte>): Parsed<Geometry> {
    if kind == WKB_POINT then
      if |s| < 16 then Bad else Good(PointG(Coord(DoubleOf(s), DoubleOf(s[8..]))), s[16..])
    else if |s| < 4 then Bad
    else if kind == WKB_LINESTRING then
      match DecodePoints(FromU32(s), s[4..]) case Bad => Bad case Good(ps, rest) => Good(LineStringG(ps), rest)
    else if kind == WKB_POLYGON then
      match DecodePolygonBody(s) case Bad => Bad case Good(rs, rest) => Good(PolygonG(rs), rest)
    else if kind == WKB_MULTIPOLYGON then
      match DecodePolygons(FromU32(s), s[4..]) case Bad => Bad case Good(ps, rest) => Good(MultiPolygonG(ps), rest)
    else Bad
  }

  datatype Decoded = Malformed | Decoded(srid: int, geometry: Geometry)

  /** Decode a whole text: nothing may be left over. */
  function Decode(s: seq<byte>): Decoded {
    match DecodeHeader(s)
    case Bad => Malformed
    case Good(h, body) =>
      match DecodeBody(h.kind, body)
      case Bad => Malformed
      case Good(g, rest) => if rest == [] then Decoded(h.srid, g) else Malformed
  }

  // ----- the round trip

  function SridOf(f: Format): int { if f.ewkb then f.srid else NO_SRID }

  function Kind(g: Geometry): int {
    match g
    case PointG(_) => WKB_POINT
    case LineStringG(_) => WKB_LINESTRING
    case PolygonG(_) => WKB_POLYGON
    case MultiPolygonG(_) => WKB_MULTIPOLYGON
  }

  lemma HeaderRoundTrip(kind: int, f: Format, rest: seq<byte>)
    requires 0 <= kind < 8
    ensures DecodeHeader(Header(kind, f) + rest) == Good(Head(kind, SridOf(f)), rest)
  {
    if f.ewkb {
      EwkbHeaderRoundTrip(kind, f.srid, rest);
    } else {
      PlainHeaderRoundTrip(kind, rest);
    }
  }

  lemma PlainHeaderRoundTrip(kind: int, rest: seq<byte>)
    requires 0 <= kind < 8
    ensures DecodeHeader(PlainHeader(kind) + rest) == Good(Head(kind, NO_SRID), rest)
  {
    Assoc([NDR], U32(kind), rest);
    HeaderBytes([NDR] + U32(kind) + rest, kind, rest);
    SridFlag(kind);
  }

  lemma EwkbHeaderRoundTrip(kind: int, srid: int, rest: seq<byte>)
    requires 0 <= kind < 8 && 0 <= srid < U32_LIMIT
    ensures DecodeHeader(EwkbHeader(kind, srid) + rest) == Good(Head(kind, srid), rest)
  {
    var s := [NDR] + (U32(kind + WKB_SRID) + U32(srid)) + rest;
    var more := U32(srid) + rest;
    assert s == [NDR] + (U32(kind + WKB_SRID) + more) by {
      Assoc([NDR], U32(kind + WKB_SRID) + U32(srid), rest);
      Assoc(U32(kind + WKB_SRID), U32(srid), rest);
    }
    HeaderBytes(s, kind + WKB_SRID, more);
    SizeWord(srid, rest);
    DropDrop(s, 5, 4);
    SridFlag(kind);
  }

  lemma SridFlag(kind: int)
    requires 0 <= kind < 8
    ensures kind / WKB_SRID % 2 == 0 && (kind + WKB_SRID) / WKB_SRID % 2 == 1
  {
  }

  lemma HeaderBytes(s: seq<byte>, k: int, more: seq<byte>)
    requires 0 <= k < U32_LIMIT
    ensures s == [NDR] + (U32(k) + more) ==> |s| >= 5 && s[0] == NDR && FromU32(s[1..]) == k && s[5..] == more
  {
    Split([NDR], U32(k) + more);
    SizeWord(k, more);
    if s == [NDR] + (U32(k) + more) {
      DropDrop(s, 1, 4);
    }
  }

  lemma {:induction false} PointsFromFront(c: Coord, ps: seq<Coord>)
    ensures EncodePoints([c] + ps) == EncodeCoord(c) + EncodePoints(ps)
  {
    if ps == [] {
      assert [c] + ps == [c] && [c][..0] == [];
    } else {
      FrontOfCons(c, ps);
      PointsFromFront(c, ps[..|ps| - 1]);
      Assoc(EncodeCoord(c), EncodePoints(ps[..|ps| - 1]), EncodeCoord(ps[|ps| - 1]));
    }
  }

  lemma {:induction false} PointsRoundTrip(ps: seq<Coord>, rest: seq<byte>)
    ensures DecodePoints(|ps|, EncodePoints(ps) + rest) == Good(ps, rest)
    decreases |ps|
  {
    if ps == [] {
      assert EncodePoints(ps) + rest == rest;
    } else {
      PointsFromFront(ps[0], ps[1..]);
      HeadTail(ps);
      var s, more := EncodePoints(ps) + rest, EncodePoints(ps[1..]) + rest;
      CoordParts(ps[0], more);
      Assoc(EncodeCoord(ps[0]), EncodePoints(ps[1..]), rest);
      PointsRoundTrip(ps[1..], rest);
    }
  }

  lemma CoordParts(c: Coord, more: seq<byte>)
    ensures var s := EncodeCoord(c) + more;
            && |s| >= 16 && DoubleOf(s) == c.x && DoubleOf(s[8..]) == c.y && s[16..] == more
  {
    Assoc(Bytes(c.x), Bytes(c.y), more);
    Split(Bytes(c.x), Bytes(c.y) + more);
    Split(Bytes(c.y), more);
    DropDrop(EncodeCoord(c) + more, 8, 8);
  }

  /** A size word in front of the data it counts. */
  lemma SizeWord(n: int, data: seq<byte>)
    requires 0 <= n < U32_LIMIT
    ensures var s := U32(n) + data; |s| >= 4 && FromU32(s) == n && s[4..] == data
  {
    FromU32U32(n, data);
    Split(U32(n), data);
  }

  lemma RingRoundTrip(r: Ring, rest: seq<byte>)
    requires |r| < U32_LIMIT
    ensures DecodeRing(EncodeRing(r) + rest) == Good(r, rest)
  {
    assert |r| % U32_LIMIT == |r|;
    Assoc(U32(|r|), EncodePoints(r), rest);
    SizeWord(|r|, EncodePoints(r) + rest);
    PointsRoundTrip(r, rest);
  }

  predicate RingsFit(rs: Polygon) { forall i :: 0 <= i < |rs| ==> |rs[i]| < U32_LIMIT }

  lemma {:induction false} RingsFromFront(r: Ring, rs: Polygon)
    ensures EncodeRings([r] + rs) == EncodeRing(r) + EncodeRings(rs)
  {
    if rs == [] {
      assert [r] + rs == [r] && [r][..0] == [];
    } else {
      FrontOfCons(r, rs);
      RingsFromFront(r, rs[..|rs| - 1]);
      Assoc(EncodeRing(r), EncodeRings(rs[..|rs| - 1]), EncodeRing(rs[|rs| - 1]));
    }
  }

  lemma {:induction false} RingsRoundTrip(rs: Polygon, rest: seq<byte>)
    requires RingsFit(rs)
    ensures DecodeRings(|rs|, EncodeRings(rs) + rest) == Good(rs, rest)
    decreases |rs|
  {
    if rs == [] {
      assert EncodeRings(rs) + rest == rest;
    } else {
      RingsFromFront(rs[0], rs[1..]);
      HeadTail(rs);
      Assoc(EncodeRing(rs[0]), EncodeRings(rs[1..]), rest);
      RingRoundTrip(rs[0], EncodeRings(rs[1..]) + rest);
      RingsRoundTrip(rs[1..], rest);
    }
  }

  lemma PolygonBodyRoundTrip(rs: Polygon, rest: seq<byte>)
    requires |rs| < U32_LIMIT && RingsFit(rs)
    ensures DecodePolygonBody(U32(|rs|) + (EncodeRings(rs) + rest)) == Good(rs, rest)
  {
    SizeWord(|rs|, EncodeRings(rs) + rest);
    RingsRoundTrip(rs, rest);
  }

  predicate PolygonsFit(ps: seq<Polygon>) {
    forall i :: 0 <= i < |ps| ==> |ps[i]| < U32_LIMIT && RingsFit(ps[i])
  }

  lemma {:induction false} PolygonsFromFront(p: Polygon, ps: seq<Polygon>, f: Format)
    ensures EncodePolygons([p] + ps, f) == EncodePolygon(p, f) + EncodePolygons(ps, f)
    decreases |ps|
  {
    if ps == [] {
      assert [p] + ps == [p] && [p][..0] == [];
    } else {
      FrontOfCons(p, ps);
      PolygonsFromFront(p, ps[..|ps| - 1], f);
      Assoc(EncodePolygon(p, f), EncodePolygons(ps[..|ps| - 1], f), EncodePolygon(ps[|ps| - 1], f));
    }
  }

  lemma {:induction false} PolygonsRoundTrip(ps: seq<Polygon>, f: Format, rest: seq<byte>)
    requires PolygonsFit(ps)
    ensures DecodePolygons(|ps|, EncodePolygons(ps, f) + rest) == Good(ps, rest)
    decreases |ps|
  {
    if ps == [] {
      assert EncodePolygons(ps, f) + rest == rest;
    } else {
      PolygonsFromFront(ps[0], ps[1..], f);
      HeadTail(ps);
      PolygonsRoundTrip(ps[1..], f, rest);
      var more := EncodePolygons(ps[1..], f) + rest;
      Assoc(EncodePolygon(ps[0], f), EncodePolygons(ps[1..], f), rest);
      PolygonParts(ps[0], f, more);
      HeaderRoundTrip(WKB_POLYGON, f, U32(|ps[0]|) + (EncodeRings(ps[0]) + more));
      PolygonBodyRoundTrip(ps[0], more);
    }
  }

  lemma PolygonParts(rs: Polygon, f: Format, more: seq<byte>)
    ensures EncodePolygon(rs, f) + more == Header(WKB_POLYGON, f) + (U32(|rs|) + (EncodeRings(rs) + more))
  {
    Assoc(Header(WKB_POLYGON, f) + U32(|rs|), EncodeRings(rs), more);
    Assoc(Header(WKB_POLYGON, f), U32(|rs|), EncodeRings(rs) + more);
  }

  /** The sizes the writer checks: it refuses more polygons or rings than fit into 32 bits. */
  predicate CountsFit(g: Geometry) {
    match g
    case PointG(_) => true
    case LineStringG(ps) => |ps| < U32_LIMIT
    case PolygonG(rs) => |rs| < U32_LIMIT
    case MultiPolygonG(ps) => |ps| < U32_LIMIT && forall i :: 0 <= i < |ps| ==> |ps[i]| < U32_LIMIT
  }

  /** The size it does not check: the counter of the points of a ring wraps. */
  predicate AllRingsFit(g: Geometry) {
    match g
    case PointG(_) => true
    case LineStringG(_) => true
    case PolygonG(rs) => RingsFit(rs)
    case MultiPolygonG(ps) => forall i :: 0 <= i < |ps| ==> RingsFit(ps[i])
  }

  lemma RoundTrip(g: Geometry, f: Format)
    requires CountsFit(g) && AllRingsFit(g)
    ensures Decode(Encode(g, f)) == Decoded(SridOf(f), g)
  {
    match g
    case PointG(c) => PointTextRoundTrip(c, f);
    case LineStringG(ps) => LineStringRoundTrip(ps, f);
    case PolygonG(rs) => PolygonRoundTrip(rs, f);
    case MultiPolygonG(ps) => MultiPolygonRoundTrip(ps, f);
  }

  lemma PointTextRoundTrip(c: Coord, f: Format)
    ensures Decode(Encode(PointG(c), f)) == Decoded(SridOf(f), PointG(c))
  {
    HeaderRoundTrip(WKB_POINT, f, EncodeCoord(c));
    CoordParts(c, []);
    assert EncodeCoord(c) + [] == EncodeCoord(c);
  }

  lemma LineStringRoundTrip(ps: seq<Coord>, f: Format)
    requires |ps| < U32_LIMIT
    ensures Decode(Encode(LineStringG(ps), f)) == Decoded(SridOf(f), LineStringG(ps))
  {
    SizedRoundTrip(LineStringG(ps), f, |ps|, EncodePoints(ps));
    PointsRoundTrip(ps, []);
  }

  lemma PolygonRoundTrip(rs: Polygon, f: Format)
    requires |rs| < U32_LIMIT && RingsFit(rs)
    ensures Decode(Encode(PolygonG(rs), f)) == Decoded(SridOf(f), PolygonG(rs))
  {
    hide DecodePolygons, EncodeRing, DecodePoints, DecodePolygonBody, DecodeHeader, RingsFit, FromU32, U32;
    SizedRoundTrip(PolygonG(rs), f, |rs|, EncodeRings(rs));
    PolygonBodyRoundTrip(rs, []);
  }

  lemma MultiPolygonRoundTrip(ps: seq<Polygon>, f: Format)
    requires |ps| < U32_LIMIT && PolygonsFit(ps)
    ensures Decode(Encode(MultiPolygonG(ps), f)) == Decoded(SridOf(f), MultiPolygonG(ps))
  {
    hide DecodePolygons, EncodePolygon, DecodePoints, DecodePolygonBody, DecodeHeader, Header, PolygonsFit, FromU32,
         U32;
    var body := U32(|ps|) + (EncodePolygons(ps, f) + []);
    SizedRoundTrip(MultiPolygonG(ps), f, |ps|, EncodePolygons(ps, f));
    assert DecodeBody(WKB_MULTIPOLYGON, body) == Good(MultiPolygonG(ps), []) by {
      PolygonsRoundTrip(ps, f, []);
    }
  }

  lemma SizedRoundTrip(g: Geometry, f: Format, n: int, data: seq<byte>)
    requires 0 <= n < U32_LIMIT && Encode(g, f) == Header(Kind(g), f) + U32(n) + data
    ensures DecodeHeader(Encode(g, f)) == Good(Head(Kind(g), SridOf(f)), U32(n) + (data + []))
    ensures var s := U32(n) + (data + []); FromU32(s) == n && s[4..] == data + []
  {
    Assoc(Header(Kind(g), f), U32(n), data);
    assert data + [] == data;
    HeaderRoundTrip(Kind(g), f, U32(n) + data);
    SizeWord(n, data);
  }

  // ----- nothing that was decoded has an oversized ring

  lemma {:induction false} DecodedPoints(n: nat, s: seq<byte>)
    ensures DecodePoints(n, s).Good? ==> |DecodePoints(n, s).value| == n
    decreases n
  {
    if n > 0 && |s| >= 16 { DecodedPoints(n - 1, s[16..]); }
  }

  lemma {:induction false} DecodedRings(n: nat, s: seq<byte>)
    ensures DecodeRings(n, s).Good? ==> RingsFit(DecodeRings(n, s).value)
    decreases n
  {
    if n > 0 && DecodeRing(s).Good? {
      DecodedPoints(FromU32(s), s[4..]);
      WordLimit();
      FromLittleEndianBound(s, WORD);
      DecodedRings(n - 1, DecodeRing(s).rest);
    }
  }

  lemma {:induction false} DecodedPolygons(n: nat, s: seq<byte>)
    ensures DecodePolygons(n, s).Good? ==>
              forall i :: 0 <= i < |DecodePolygons(n, s).value| ==> RingsFit(DecodePolygons(n, s).value[i])
    decreases n
  {
    if n > 0 && DecodePolygons(n, s).Good? {
      var body := DecodeHeader(s).rest;
      DecodedRings(FromU32(body), body[4..]);
      DecodedPolygons(n - 1, DecodePolygonBody(body).rest);
    }
  }

  /** What the writer produces for a geometry whose counts it accepts decodes to that geometry exactly
      when every ring has fewer than 2^32 points; in WKB and in EWKB. */
  lemma RoundTripIffRingsFit(g: Geometry, f: Format)
    requires CountsFit(g)
    ensures Decode(Encode(g, f)) == Decoded(SridOf(f), g) <==> AllRingsFit(g)
  {
    hide Encode, SridOf, DecodeHeader, DecodePolygons, DecodeRings, RingsFit, FromU32;
    if AllRingsFit(g) {
      RoundTrip(g, f);
    } else if Decode(Encode(g, f)) == Decoded(SridOf(f), g) {
      var body := DecodeHeader(Encode(g, f)).rest;
      if g.PolygonG? {
        DecodedRings(FromU32(body), body[4..]);
      } else {
        DecodedPolygons(FromU32(body), body[4..]);
      }
    }
  }

  // ----- the layout that other programs rely on

  /** The four bytes of a word, written out. */
  predicate WordAt(s: seq<byte>, i: nat, n: nat) {
    && |s| >= i + 4 && s[i] == (n % 256) as char && s[i + 1] == (n / 256 % 256) as char
    && s[i + 2] == (n / 65536 % 256) as char && s[i + 3] == (n / 16777216 % 256) as char
  }

  lemma WordBytes(n: nat)
    ensures WordAt(U32(n), 0, n)
  {
    assert U32(n) == LittleEndian(n, 4);
    var s := LittleEndian(n, 4);
    var s1 := LittleEndian(n / 256, 3);
    var s2 := LittleEndian(n / 256 / 256, 2);
    var s3 := LittleEndian(n / 256 / 256 / 256, 1);
    assert s == [(n % 256) as char] + s1 && s1 == [(n / 256 % 256) as char] + s2;
    assert s2 == [(n / 256 / 256 % 256) as char] + s3;
    assert s3 == [(n / 256 / 256 / 256 % 256) as char] + LittleEndian(n / 256 / 256 / 256 / 256, 0);
    assert n / 65536 == n / 256 / 256 && n / 16777216 == n / 256 / 256 / 256;
  }

  /** The codes of OGC 99-049 for the four types, with the flag 0x20000000 for an SRID. */
  function TypeWord(g: Geometry, f: Format): nat {
    (match g case PointG(_) => 1 case LineStringG(_) => 2 case PolygonG(_) => 3 case MultiPolygonG(_) => 6)
    + if f.ewkb then 0x2000_0000 else 0
  }

  /** The number of points, rings or polygons. */
  function Count(g: Geometry): nat {
    match g case PointG(_) => 1 case LineStringG(ps) => |ps| case PolygonG(rs) => |rs| case MultiPolygonG(ps) => |ps|
  }

  /** Every encoding starts with the byte 1, then the type, the SRID if there is one, and the size. */
  lemma Layout(g: Geometry, f: Format)
    ensures var s, n := Encode(g, f), if f.ewkb then 9 else 5;
            && |s| >= n && s[0] == 1 as char && WordAt(s, 1, TypeWord(g, f)) && (f.ewkb ==> WordAt(s, 5, f.srid))
            && if g.PointG? then s[n..] == Bytes(g.c.x) + Bytes(g.c.y) else WordAt(s, n, Count(g))
  {
    hide U32, EncodePoints, EncodeRings, EncodePolygons;
    WordBytes(TypeWord(g, f));
    WordBytes(f.srid);
    WordBytes(Count(g));
    var h := Header(Kind(g), f);
    assert h == [NDR] + (U32(TypeWord(g, f)) + if f.ewkb then U32(f.srid) else []);
    var body := match g
                case PointG(c) => EncodeCoord(c)
                case LineStringG(ps) => U32(|ps|) + EncodePoints(ps)
                case PolygonG(rs) => U32(|rs|) + EncodeRings(rs)
                case MultiPolygonG(ps) => U32(|ps|) + EncodePolygons(ps, f);
    assert Encode(g, f) == h + body by {
      match g
      case PointG(_) =>
      case LineStringG(ps) => Assoc(h, U32(|ps|), EncodePoints(ps));
      case PolygonG(rs) => Assoc(h, U32(|rs|), EncodeRings(rs));
      case MultiPolygonG(ps) => Assoc(h, U32(|ps|), EncodePolygons(ps, f));
    }
    Split(h, body);
  }
}
