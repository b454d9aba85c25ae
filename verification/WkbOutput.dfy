/** The two output forms of the writer, binary and hexadecimal, and a reader of both. */
module WkbOutput {
  import opened Sequences
  import opened Wkb

  // ----- hexadecimal output

  function HexDigit(n: int): byte
    requires 0 <= n < 16
  {
    if n < 10 then (48 + n) as char else (55 + n) as char
  }

  /** The two halves of a byte: `(c >> 4) & 0xf` and `c & 0xf`. */
  function High(b: byte): (n: int)
    ensures 0 <= n < 16
  {
    b as int / 16 % 16
  }

  function Low(b: byte): (n: int)
    ensures 0 <= n < 16
  {
    b as int % 16
  }

  function Hex(s: seq<byte>): seq<byte> {
    if s == [] then [] else Hex(s[..|s| - 1]) + [HexDigit(High(s[|s| - 1])), HexDigit(Low(s[|s| - 1]))]
  }

  function HexValue(b: byte): int { if b as int < 58 then b as int - 48 else b as int - 55 }

  function FromHex(s: seq<byte>): Parsed<seq<byte>> {
    if |s| < 2 then Good([], s)
    else
      var n := HexValue(s[|s| - 2]) * 16 + HexValue(s[|s| - 1]);
      if n < 0 || n > 255 then Bad
      else match FromHex(s[..|s| - 2])
        case Bad => Bad
        case Good(bs, rest) => Good(bs + [n as char], rest)
  }

  lemma {:induction false} HexRoundTrip(s: seq<byte>)
    requires AllBytes(s)
    ensures FromHex(Hex(s)) == Good(s, [])
  {
    if s != [] {
      var front, b := s[..|s| - 1], s[|s| - 1];
      HexRoundTrip(front);
      Split(Hex(front), [HexDigit(High(b)), HexDigit(Low(b))]);
      assert s == front + [b];
    }
  }

  /** Two digits a byte, the high half first, in upper case. */
  lemma {:induction false} HexDigits(s: seq<byte>, i: nat)
    requires AllBytes(s) && i < |s|
    ensures |Hex(s)| == 2 * |s|
    ensures Hex(s)[2 * i] == "0123456789ABCDEF"[s[i] as int / 16]
    ensures Hex(s)[2 * i + 1] == "0123456789ABCDEF"[s[i] as int % 16]
  {
    var last := |s| - 1;
    if i < last { HexDigits(s[..last], i); } else if last > 0 { HexDigits(s[..last], 0); }
    DigitName(s[last] as int / 16);
    DigitName(s[last] as int % 16);
  }

  lemma DigitName(n: int)
    requires 0 <= n < 16
    ensures HexDigit(n) == "0123456789ABCDEF"[n]
  {
    assert forall k :: 0 <= k < 10 ==> "0123456789ABCDEF"[k] == (48 + k) as char;
    assert forall k :: 10 <= k < 16 ==> "0123456789ABCDEF"[k] == (55 + k) as char;
  }

  // ----- geometries in hexadecimal

  /** A char has eight bits. */
  predicate AllBytes(s: seq<byte>) { forall i :: 0 <= i < |s| ==> s[i] as int < 256 }

  predicate PointsAreBytes(ps: seq<Coord>) {
    forall i :: 0 <= i < |ps| ==> AllBytes(Bytes(ps[i].x)) && AllBytes(Bytes(ps[i].y))
  }

  predicate RingsAreBytes(rs: Polygon) { forall i :: 0 <= i < |rs| ==> PointsAreBytes(rs[i]) }

  /** The doubles of a geometry are made of bytes. */
  predicate IsOfBytes(g: Geometry) {
    match g
    case PointG(c) => PointsAreBytes([c])
    case LineStringG(ps) => PointsAreBytes(ps)
    case PolygonG(rs) => RingsAreBytes(rs)
    case MultiPolygonG(ps) => forall i :: 0 <= i < |ps| ==> RingsAreBytes(ps[i])
  }

  lemma {:induction false} WordIsBytes(n: int, k: nat)
    ensures AllBytes(LittleEndian(n, k))
    decreases k
  {
    if k > 0 { WordIsBytes(n / 256, k - 1); }
  }

  lemma HeaderIsBytes(kind: int, f: Format)
    ensures AllBytes(Header(kind, f))
  {
    WordIsBytes(kind, WORD);
    WordIsBytes(kind + WKB_SRID, WORD);
    WordIsBytes(f.srid, WORD);
  }

  lemma {:induction false} PointTextIsBytes(ps: seq<Coord>)
    requires PointsAreBytes(ps)
    ensures AllBytes(EncodePoints(ps))
  {
    if ps != [] {
      var last := |ps| - 1;
      PointTextIsBytes(ps[..last]);
      assert AllBytes(Bytes(ps[last].x)) && AllBytes(Bytes(ps[last].y));
    }
  }

  lemma {:induction false} RingTextIsBytes(rs: Polygon)
    requires RingsAreBytes(rs)
    ensures AllBytes(EncodeRings(rs))
  {
    if rs != [] {
      var last := rs[|rs| - 1];
      RingTextIsBytes(rs[..|rs| - 1]);
      WordIsBytes(|last| % U32_LIMIT, WORD);
      PointTextIsBytes(last);
    }
  }

  lemma PolygonTextIsBytes(rs: Polygon, f: Format)
    requires RingsAreBytes(rs)
    ensures AllBytes(EncodePolygon(rs, f))
  {
    HeaderIsBytes(WKB_POLYGON, f);
    WordIsBytes(|rs|, WORD);
    RingTextIsBytes(rs);
  }

  lemma {:induction false} PolygonsTextIsBytes(ps: seq<Polygon>, f: Format)
    requires forall i :: 0 <= i < |ps| ==> RingsAreBytes(ps[i])
    ensures AllBytes(EncodePolygons(ps, f))
  {
    if ps != [] {
      PolygonsTextIsBytes(ps[..|ps| - 1], f);
      PolygonTextIsBytes(ps[|ps| - 1], f);
    }
  }

  lemma EncodeIsBytes(g: Geometry, f: Format)
    requires IsOfBytes(g)
    ensures AllBytes(Encode(g, f))
  {
    HeaderIsBytes(Kind(g), f);
    match g
    case PointG(c) => assert [c][0] == c;
    case LineStringG(ps) => WordIsBytes(|ps|, WORD); PointTextIsBytes(ps);
    case PolygonG(rs) => PolygonTextIsBytes(rs, f);
    case MultiPolygonG(ps) => WordIsBytes(|ps|, WORD); PolygonsTextIsBytes(ps, f);
  }

  /** The two forms of the output of a writer. */
  function Out(s: seq<byte>, hex: bool): seq<byte> { if hex then Hex(s) else s }

  /** A reader of both forms. */
  function Read(s: seq<byte>, hex: bool): Decoded {
    if !hex then Decode(s)
    else match FromHex(s)
      case Bad => Malformed
      case Good(bytes, rest) => if rest == [] then Decode(bytes) else Malformed
  }

  /** Main result: a geometry in either form, WKB or EWKB, reads back exactly when every ring has fewer than 2^32
      points. */
  lemma OutputReadsBack(g: Geometry, f: Format, hex: bool)
    requires CountsFit(g) && IsOfBytes(g)
    ensures Read(Out(Encode(g, f), hex), hex) == Decoded(SridOf(f), g) <==> AllRingsFit(g)
  {
    hide Encode, Decode, FromHex, Hex;
    RoundTripIffRingsFit(g, f);
    EncodeIsBytes(g, f);
    HexRoundTrip(Encode(g, f));
  }
}
