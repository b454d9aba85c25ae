/** The class WKBWriter of contrib/wkbhpp/include/wkbhpp/wkbwriter.hpp: an append-only buffer in
    which every count is a placeholder that is overwritten once it is known. Little endian. */
module WkbWriter {
  import opened Sequences
  import opened Wkb
  import opened WkbOutput
  import opened Wrappers

  /** What the calls so far have opened and not closed; `multi` tells the two users of rings apart. */
  datatype Stage = Idle | InLine | InMulti | InPolygon(multi: bool) | InRing(multi: bool)

  function Zero(): seq<byte> { U32(0) }

  /** A geometry whose count is still zero. */
  function LineOpen(ps: seq<Coord>, f: Format): seq<byte> {
    if ps == [] then Header(WKB_LINESTRING, f) + Zero()
    else LineOpen(ps[..|ps| - 1], f) + EncodeCoord(ps[|ps| - 1])
  }

  function PolygonOpen(rs: Polygon, f: Format): seq<byte> {
    if rs == [] then Header(WKB_POLYGON, f) + Zero()
    else PolygonOpen(rs[..|rs| - 1], f) + EncodeRing(rs[|rs| - 1])
  }

  function MultiOpen(ps: seq<Polygon>, f: Format): seq<byte> {
    if ps == [] then Header(WKB_MULTIPOLYGON, f) + Zero()
    else MultiOpen(ps[..|ps| - 1], f) + EncodePolygon(ps[|ps| - 1], f)
  }

  lemma {:induction false} LineOpenIs(ps: seq<Coord>, f: Format)
    ensures LineOpen(ps, f) == Header(WKB_LINESTRING, f) + Zero() + EncodePoints(ps)
  {
    if ps != [] {
      LineOpenIs(ps[..|ps| - 1], f);
      Assoc(Header(WKB_LINESTRING, f) + Zero(), EncodePoints(ps[..|ps| - 1]), EncodeCoord(ps[|ps| - 1]));
    }
  }

  lemma {:induction false} PolygonOpenIs(rs: Polygon, f: Format)
    ensures PolygonOpen(rs, f) == Header(WKB_POLYGON, f) + Zero() + EncodeRings(rs)
  {
    if rs != [] {
      PolygonOpenIs(rs[..|rs| - 1], f);
      Assoc(Header(WKB_POLYGON, f) + Zero(), EncodeRings(rs[..|rs| - 1]), EncodeRing(rs[|rs| - 1]));
    }
  }

  lemma {:induction false} MultiOpenIs(ps: seq<Polygon>, f: Format)
    ensures MultiOpen(ps, f) == Header(WKB_MULTIPOLYGON, f) + Zero() + EncodePolygons(ps, f)
  {
    if ps != [] {
      MultiOpenIs(ps[..|ps| - 1], f);
      Assoc(Header(WKB_MULTIPOLYGON, f) + Zero(), EncodePolygons(ps[..|ps| - 1], f), EncodePolygon(ps[|ps| - 1], f));
    }
  }

  /** What has been handed to the writer since the last start. */
  datatype Content = Content(line: seq<Coord>, polygons: seq<Polygon>, rings: Polygon, ring: Ring)

  function Rank(s: Stage): nat {
    match s
    case Idle => 0
    case InLine => 0
    case InMulti => 1
    case InPolygon(_) => 2
    case InRing(_) => 3
  }

  /** The buffer at a stage: the encoding of what was opened, with zeros where counts are still open. */
  ghost function Buffer(s: Stage, c: Content, f: Format): seq<byte>
    decreases Rank(s)
  {
    match s
    case Idle => []
    case InLine => LineOpen(c.line, f)
    case InMulti => MultiOpen(c.polygons, f)
    case InPolygon(m) => (if m then Buffer(InMulti, c, f) else []) + PolygonOpen(c.rings, f)
    case InRing(m) => Buffer(InPolygon(m), c, f) + Zero() + EncodePoints(c.ring)
  }

  /** The buffer with the four bytes at an offset replaced by a size. */
  function Patched(data: seq<byte>, offset: nat, size: int): seq<byte>
    requires offset + 4 <= |data|
  {
    if offset == 0 then U32(size) + data[4..] else [data[0]] + Patched(data[1..], offset - 1, size)
  }

  lemma {:induction false} PatchedSlices(data: seq<byte>, offset: nat, size: int)
    requires offset + 4 <= |data|
    ensures Patched(data, offset, size) == data[..offset] + U32(size) + data[offset + 4..]
  {
    if offset > 0 {
      PatchedSlices(data[1..], offset - 1, size);
      DropDrop(data, 1, offset + 3);
      assert data[..offset] == [data[0]] + data[1..][..offset - 1];
    }
  }

  /** Overwriting the placeholder behind `pre` changes nothing else. */
  lemma PatchPlaceholder(pre: seq<byte>, post: seq<byte>, n: int)
    ensures |pre| + 4 <= |pre + Zero() + post|
    ensures Patched(pre + Zero() + post, |pre|, n) == pre + U32(n) + post
  {
    PatchedSlices(pre + Zero() + post, |pre|, n);
    Assoc(pre, Zero(), post);
    Split(pre, Zero() + post);
    Split(Zero(), post);
    DropDrop(pre + (Zero() + post), |pre|, 4);
  }

  lemma StartBuffers(c: Content, f: Format)
    ensures c.line == [] ==> Buffer(InLine, c, f) == [] + Header(WKB_LINESTRING, f) + Zero()
    ensures c.polygons == [] ==> Buffer(InMulti, c, f) == [] + Header(WKB_MULTIPOLYGON, f) + Zero()
    ensures c.rings == [] ==> Buffer(InPolygon(false), c, f) == [] + Header(WKB_POLYGON, f) + Zero()
  {
    Nothing(Header(WKB_LINESTRING, f), Zero());
    Nothing(Header(WKB_MULTIPOLYGON, f), Zero());
    Nothing(Header(WKB_POLYGON, f), Zero());
  }

  lemma Nothing(a: seq<byte>, b: seq<byte>)
    ensures [] + a + b == a + b == [] + (a + b)
  {
  }

  lemma StartPolygonBuffer(c: Content, f: Format)
    requires c.rings == []
    ensures Buffer(InPolygon(true), c, f) == Buffer(InMulti, c, f) + Header(WKB_POLYGON, f) + Zero()
  {
    Assoc(Buffer(InMulti, c, f), Header(WKB_POLYGON, f), Zero());
  }

  lemma StartRingBuffer(m: bool, c: Content, f: Format)
    requires c.ring == []
    ensures Buffer(InRing(m), c, f) == Buffer(InPolygon(m), c, f) + Zero()
  {
  }

  lemma MultiBuffer(c: Content, f: Format)
    ensures Buffer(InMulti, c, f) == MultiOpen(c.polygons, f)
  {
  }

  lemma RingIsAfterPolygon(m: bool, c: Content, r: Ring, f: Format)
    ensures Buffer(InPolygon(m), c.(ring := r), f) == Buffer(InPolygon(m), c, f)
  {
  }

  lemma AddLinePoint(c: Content, p: Coord, f: Format)
    ensures Buffer(InLine, c.(line := c.line + [p]), f) == Buffer(InLine, c, f) + Bytes(p.x) + Bytes(p.y)
  {
    Assoc(LineOpen(c.line, f), Bytes(p.x), Bytes(p.y));
  }

  lemma AddRingPoint(m: bool, c: Content, p: Coord, f: Format)
    ensures Buffer(InRing(m), c.(ring := c.ring + [p]), f) == Buffer(InRing(m), c, f) + Bytes(p.x) + Bytes(p.y)
  {
    var d := c.(ring := c.ring + [p]);
    assert Buffer(InPolygon(m), d, f) == Buffer(InPolygon(m), c, f);
    AppendPoint(Buffer(InPolygon(m), c, f) + Zero(), c.ring, p);
  }

  lemma AppendPoint(pre: seq<byte>, ps: seq<Coord>, c: Coord)
    ensures pre + EncodePoints(ps + [c]) == (pre + EncodePoints(ps)) + Bytes(c.x) + Bytes(c.y)
  {
    Assoc(pre + EncodePoints(ps), Bytes(c.x), Bytes(c.y));
    Assoc(pre, EncodePoints(ps), Bytes(c.x) + Bytes(c.y));
  }

  /** Closing a ring. */
  lemma FinishRing(m: bool, c: Content, f: Format)
    ensures var d, o := Buffer(InRing(m), c, f), |Buffer(InPolygon(m), c, f)|;
            && o + 4 <= |d|
            && Patched(d, o, |c.ring| % U32_LIMIT) == Buffer(InPolygon(m), c.(rings := c.rings + [c.ring]), f)
  {
    var pre, base := Buffer(InPolygon(m), c, f), if m then Buffer(InMulti, c, f) else [];
    PatchPlaceholder(pre, EncodePoints(c.ring), |c.ring| % U32_LIMIT);
    Assoc(pre, U32(|c.ring| % U32_LIMIT), EncodePoints(c.ring));
    RingClosed(m, c, f);
  }

  lemma RingClosed(m: bool, c: Content, f: Format)
    ensures Buffer(InPolygon(m), c.(rings := c.rings + [c.ring]), f) == Buffer(InPolygon(m), c, f) + EncodeRing(c.ring)
  {
    var d, base := c.(rings := c.rings + [c.ring]), if m then Buffer(InMulti, c, f) else [];
    assert m ==> Buffer(InMulti, d, f) == Buffer(InMulti, c, f);
    Assoc(base, PolygonOpen(c.rings, f), EncodeRing(c.ring));
  }

  function PolygonOffset(m: bool, c: Content, f: Format): nat {
    (if m then |MultiOpen(c.polygons, f)| else 0) + |Header(WKB_POLYGON, f)|
  }

  /** Closing a polygon of a multipolygon. */
  lemma FinishPolygon(c: Content, f: Format)
    ensures var d, o := Buffer(InPolygon(true), c, f), PolygonOffset(true, c, f);
            o + 4 <= |d| && Patched(d, o, |c.rings|) == Buffer(InMulti, c.(polygons := c.polygons + [c.rings]), f)
  {
    hide Patched, Header, EncodePolygon, PolygonOpen, EncodeRings;
    assert Buffer(InPolygon(true), c, f) == MultiOpen(c.polygons, f) + PolygonOpen(c.rings, f);
    PatchedPolygon(MultiOpen(c.polygons, f), c.rings, f);
  }

  lemma PatchedPolygon(base: seq<byte>, rs: Polygon, f: Format)
    ensures var d, o := base + PolygonOpen(rs, f), |base| + |Header(WKB_POLYGON, f)|;
            o + 4 <= |d| && Patched(d, o, |rs|) == base + EncodePolygon(rs, f)
  {
    var h, data := Header(WKB_POLYGON, f), EncodeRings(rs);
    PolygonOpenIs(rs, f);
    PatchInside(base, h, data, |rs|);
  }

  lemma PatchInside(base: seq<byte>, h: seq<byte>, data: seq<byte>, n: int)
    ensures var d := base + (h + Zero() + data);
            |base| + |h| + 4 <= |d| && Patched(d, |base| + |h|, n) == base + (h + U32(n) + data)
  {
    PatchPlaceholder(base + h, data, n);
    OpenAt(base, h, Zero(), data);
    OpenAt(base, h, U32(n), data);
  }

  lemma OpenAt(a: seq<byte>, b: seq<byte>, c: seq<byte>, d: seq<byte>)
    ensures (a + b) + c + d == a + (b + c + d)
  {
    Assoc(a, b, c);
    Assoc(a, b + c, d);
  }

  /** Closing the outermost geometry. */
  lemma FinishLine(c: Content, f: Format, n: int)
    ensures var d, o := Buffer(InLine, c, f), |Header(WKB_LINESTRING, f)|;
            o + 4 <= |d| && Patched(d, o, n) == Header(WKB_LINESTRING, f) + U32(n) + EncodePoints(c.line)
  {
    LineOpenIs(c.line, f);
    PatchPlaceholder(Header(WKB_LINESTRING, f), EncodePoints(c.line), n);
  }

  lemma FinishSinglePolygon(c: Content, f: Format)
    ensures var d, o := Buffer(InPolygon(false), c, f), PolygonOffset(false, c, f);
            o + 4 <= |d| && Patched(d, o, |c.rings|) == Encode(PolygonG(c.rings), f)
  {
    assert Buffer(InPolygon(false), c, f) == PolygonOpen(c.rings, f);
    PolygonOpenIs(c.rings, f);
    PatchPlaceholder(Header(WKB_POLYGON, f), EncodeRings(c.rings), |c.rings|);
  }

  lemma FinishMulti(c: Content, f: Format)
    ensures var d, o := Buffer(InMulti, c, f), |Header(WKB_MULTIPOLYGON, f)|;
            o + 4 <= |d| && Patched(d, o, |c.polygons|) == Encode(MultiPolygonG(c.polygons), f)
  {
    MultiOpenIs(c.polygons, f);
    PatchPlaceholder(Header(WKB_MULTIPOLYGON, f), EncodePolygons(c.polygons, f), |c.polygons|);
  }

  class WKBWriter {
    var data: seq<byte>
    /** `uint32_t m_points`, which wraps */
    var points: nat
    const format: Format
    const hex: bool
    var linestringSizeOffset: nat
    var polygons: nat
    var rings: nat
    var multipolygonSizeOffset: nat
    var polygonSizeOffset: nat
    var ringSizeOffset: nat

    ghost var stage: Stage
    ghost var content: Content

    /** The buffer holds what was handed over, and each open count knows its placeholder. */
    ghost predicate Valid()
      reads this
    {
      && (stage != Idle ==> data == Buffer(stage, content, format))
      && (stage == InLine ==> linestringSizeOffset == |Header(WKB_LINESTRING, format)|)
      && (stage == InMulti ==> polygons == |content.polygons|)
      && (stage == InMulti || stage == InPolygon(true) || stage == InRing(true) ==>
            multipolygonSizeOffset == |Header(WKB_MULTIPOLYGON, format)|)
      && (stage == InPolygon(true) || stage == InRing(true) ==> polygons == |content.polygons| + 1)
      && (stage.InPolygon? || stage.InRing? ==> polygonSizeOffset == PolygonOffset(stage.multi, content, format))
      && (stage.InPolygon? ==> rings == |content.rings|)
      && (stage.InRing? ==>
            && rings == |content.rings| + 1
            && points == |content.ring| % U32_LIMIT
            && ringSizeOffset == |Buffer(InPolygon(stage.multi), content, format)|)
    }

    constructor (srid: int, ewkb: bool, hex: bool)
      ensures Valid() && stage == Idle
      ensures format == Format(ewkb, srid % U32_LIMIT) && this.hex == hex
    {
      data, points := [], 0;
      format, this.hex := Format(ewkb, srid % U32_LIMIT), hex;
      linestringSizeOffset, polygons, rings := 0, 0, 0;
      multipolygonSizeOffset, polygonSizeOffset, ringSizeOffset := 0, 0, 0;
      stage, content := Idle, Content([], [], [], []);
    }

    /** Append a header and, if a length follows, its placeholder; the offset of the placeholder. */
    method AppendHeader(str: seq<byte>, kind: int, addLength: bool) returns (str': seq<byte>, offset: nat)
      ensures str' == str + Header(kind, format) + (if addLength then Zero() else [])
      ensures offset == |str| + |Header(kind, format)|
    {
      str' := str + [NDR];
      if format.ewkb {
        str' := str' + U32(kind + WKB_SRID);
        str' := str' + U32(format.srid);
        Assoc(str + [NDR], U32(kind + WKB_SRID), U32(format.srid));
        Assoc(str, [NDR], U32(kind + WKB_SRID) + U32(format.srid));
      } else {
        str' := str' + U32(kind);
        Assoc(str, [NDR], U32(kind));
      }
      offset := |str'|;
      if addLength {
        str' := str' + U32(0);
      }
    }

    /** `set_size`: four bytes at the offset, or an exception that leaves the buffer alone. */
    method SetSize(offset: nat, size: nat) returns (r: Result<()>)
      requires offset + 4 <= |data|
      modifies this`data
      ensures r.Ok? <==> size < U32_LIMIT
      ensures data == if r.Ok? then Patched(old(data), offset, size) else old(data)
    {
      if size >= U32_LIMIT {
        return Err("Too many points in geometry");
      }
      PatchedSlices(data, offset, size);
      data := data[..offset] + U32(size) + data[offset + 4..];
      return Ok(());
    }

    /** `convert_to_hex` */
    method ConvertToHex(str: seq<byte>) returns (out: seq<byte>)
      ensures out == Hex(str)
    {
      out := [];
      for i := 0 to |str|
        invariant out == Hex(str[..i])
      {
        assert str[..i + 1] == str[..i] + [str[i]];
        out := out + [HexDigit(High(str[i]))];
        out := out + [HexDigit(Low(str[i]))];
      }
      assert str[..|str|] == str;
    }

    /** Hand the buffer out and leave an empty one. */
    method TakeData() returns (out: seq<byte>)
      modifies this`data
      ensures data == [] && out == Out(old(data), hex)
    {
      out := data;
      data := [];
      if hex {
        out := ConvertToHex(out);
      }
    }

    method MakePoint(c: Coord) returns (out: seq<byte>)
      ensures out == Out(Encode(PointG(c), format), hex)
    {
      hide Header, Hex;
      var str, offset := AppendHeader([], WKB_POINT, false);
      assert str == Header(WKB_POINT, format);
      str := str + Bytes(c.x);
      str := str + Bytes(c.y);
      Assoc(Header(WKB_POINT, format), Bytes(c.x), Bytes(c.y));
      out := str;
      if hex {
        out := ConvertToHex(out);
      }
    }

    // ----- line strings

    method LinestringStart()
      modifies this
      ensures Valid() && stage == InLine && content.line == []
    {
      hide Buffer, Header, Patched, Encode, Out;
      data, linestringSizeOffset := AppendHeader([], WKB_LINESTRING, true);
      stage, content := InLine, Content([], [], [], []);
      StartBuffers(content, format);
    }

    method LinestringAddLocation(p: Coord)
      requires Valid() && stage == InLine
      modifies this`data, this`content
      ensures Valid() && content == old(content).(line := old(content).line + [p])
    {
      hide Buffer, Header, Patched, Encode, Out;
      AddLinePoint(content, p, format);
      data := data + Bytes(p.x);
      data := data + Bytes(p.y);
      content := content.(line := content.line + [p]);
    }

    /** The caller says how many points it has added. */
    method LinestringFinish(numPoints: nat) returns (r: Result<seq<byte>>)
      requires Valid() && stage == InLine
      modifies this`data, this`stage
      ensures Valid()
      ensures r.Ok? <==> numPoints < U32_LIMIT
      ensures r.Ok? ==> stage == Idle
      ensures r.Ok? ==>
                r.value == Out(Header(WKB_LINESTRING, format) + U32(numPoints) + EncodePoints(content.line), hex)
      ensures r.Err? ==> stage == old(stage) && data == old(data)
    {
      hide Buffer, Header, Patched, Encode, Out;
      FinishLine(content, format, numPoints);
      var s := SetSize(linestringSizeOffset, numPoints);
      if s.Err? {
        return Err(s.message);
      }
      var out := TakeData();
      stage := Idle;
      return Ok(out);
    }

    // ----- polygons and rings

    method PolygonStart()
      modifies this
      ensures Valid() && stage == InPolygon(false) && content.rings == []
    {
      hide Buffer, Header, Patched, Encode, Out;
      rings := 0;
      data, polygonSizeOffset := AppendHeader([], WKB_POLYGON, true);
      stage, content := InPolygon(false), Content([], [], [], []);
      StartBuffers(content, format);
    }

    /** All four ring starts: outer and inner, of a polygon and of a multipolygon. */
    method RingStart()
      requires Valid() && stage.InPolygon?
      modifies this`data, this`rings, this`points, this`ringSizeOffset, this`stage, this`content
      ensures Valid() && stage == InRing(old(stage).multi) && content == old(content).(ring := [])
    {
      hide Buffer, Header, Patched, Encode, Out;
      rings := rings + 1;
      points := 0;
      ringSizeOffset := |data|;
      data := data + U32(0);
      ghost var before := content;
      stage, content := InRing(stage.multi), content.(ring := []);
      StartRingBuffer(stage.multi, content, format);
      RingIsAfterPolygon(stage.multi, before, content.ring, format);
    }

    method AddLocation(p: Coord)
      requires Valid() && stage.InRing?
      modifies this`data, this`points, this`content
      ensures Valid() && content == old(content).(ring := old(content).ring + [p])
    {
      hide Buffer, Header, Patched, Encode, Out;
      AddRingPoint(stage.multi, content, p, format);
      data := data + Bytes(p.x);
      data := data + Bytes(p.y);
      points := (points + 1) % U32_LIMIT;
      ghost var before := content;
      content := content.(ring := content.ring + [p]);
      RingIsAfterPolygon(stage.multi, before, content.ring, format);
    }

    /** All four ring ends. The size never exceeds 32 bits: the counter has wrapped before. */
    method RingFinish()
      requires Valid() && stage.InRing?
      modifies this`data, this`stage, this`content
      ensures Valid() && stage == InPolygon(old(stage).multi)
      ensures content == old(content).(rings := old(content).rings + [old(content).ring])
    {
      hide Buffer, Header, Patched, Encode, Out;
      FinishRing(stage.multi, content, format);
      var s := SetSize(ringSizeOffset, points);
      stage, content := InPolygon(stage.multi), content.(rings := content.rings + [content.ring]);
    }

    method PolygonFinish() returns (r: Result<seq<byte>>)
      requires Valid() && stage == InPolygon(false)
      modifies this`data, this`stage
      ensures Valid()
      ensures r.Ok? <==> |content.rings| < U32_LIMIT
      ensures r.Ok? ==> stage == Idle && r.value == Out(Encode(PolygonG(content.rings), format), hex)
      ensures r.Err? ==> stage == old(stage) && data == old(data)
    {
      hide Buffer, Header, Patched, Encode, Out;
      FinishSinglePolygon(content, format);
      var s := SetSize(polygonSizeOffset, rings);
      if s.Err? {
        return Err(s.message);
      }
      var out := TakeData();
      stage := Idle;
      return Ok(out);
    }

    // ----- multipolygons

    method MultipolygonStart()
      modifies this
      ensures Valid() && stage == InMulti && content.polygons == []
    {
      hide Buffer, Header, Patched, Encode, Out;
      polygons := 0;
      data, multipolygonSizeOffset := AppendHeader([], WKB_MULTIPOLYGON, true);
      stage, content := InMulti, Content([], [], [], []);
      StartBuffers(content, format);
    }

    method MultipolygonPolygonStart()
      requires Valid() && stage == InMulti
      modifies this`data, this`polygons, this`rings, this`polygonSizeOffset, this`stage, this`content
      ensures Valid() && stage == InPolygon(true) && content == old(content).(rings := [])
    {
      hide Buffer, Header, Patched, Encode, Out, MultiOpen, PolygonOpen, LineOpen, Zero;
      polygons := polygons + 1;
      rings := 0;
      data, polygonSizeOffset := AppendHeader(data, WKB_POLYGON, true);
      MultiBuffer(content, format);
      stage, content := InPolygon(true), content.(rings := []);
      MultiBuffer(content, format);
      StartPolygonBuffer(content, format);
    }

    method MultipolygonPolygonFinish() returns (r: Result<()>)
      requires Valid() && stage == InPolygon(true)
      modifies this`data, this`stage, this`content
      ensures Valid()
      ensures r.Ok? <==> |content.rings| < U32_LIMIT
      ensures r.Ok? ==> stage == InMulti
      ensures r.Ok? ==> content == old(content).(polygons := old(content).polygons + [old(content).rings])
      ensures r.Err? ==> stage == old(stage) && content == old(content) && data == old(data)
    {
      hide Buffer, Header, Patched, Encode, Out;
      FinishPolygon(content, format);
      r := SetSize(polygonSizeOffset, rings);
      if r.Ok? {
        stage, content := InMulti, content.(polygons := content.polygons + [content.rings]);
      }
    }

    method MultipolygonFinish() returns (r: Result<seq<byte>>)
      requires Valid() && stage == InMulti
      modifies this`data, this`stage
      ensures Valid()
      ensures r.Ok? <==> |content.polygons| < U32_LIMIT
      ensures r.Ok? ==> stage == Idle && r.value == Out(Encode(MultiPolygonG(content.polygons), format), hex)
      ensures r.Err? ==> stage == old(stage) && data == old(data)
    {
      hide Buffer, Header, Patched, Encode, Out;
      FinishMulti(content, format);
      var s := SetSize(multipolygonSizeOffset, polygons);
      if s.Err? {
        return Err(s.message);
      }
      var out := TakeData();
      stage := Idle;
      return Ok(out);
    }

    // ----- the protocol, driven from nested lists

    /** Whatever the writer did before, a multipolygon driven through the protocol comes out as its
        encoding; the only failures are more polygons or rings than a 32-bit count can hold. */
    method WriteMultiPolygon(ps: seq<Polygon>) returns (r: Result<seq<byte>>)
      modifies this
      ensures r.Ok? <==> CountsFit(MultiPolygonG(ps))
      ensures r.Ok? ==> r.value == Out(Encode(MultiPolygonG(ps), format), hex)
      ensures r.Ok? && IsOfBytes(MultiPolygonG(ps)) ==>
                (Read(r.value, hex) == Decoded(SridOf(format), MultiPolygonG(ps)) <==> AllRingsFit(MultiPolygonG(ps)))
    {
      hide Valid, Encode, Read, IsOfBytes, AllRingsFit;
      if CountsFit(MultiPolygonG(ps)) && IsOfBytes(MultiPolygonG(ps)) {
        OutputReadsBack(MultiPolygonG(ps), format, hex);
      }
      MultipolygonStart();
      var s := WritePolygons(ps);
      if s.Err? {
        return Err(s.message);
      }
      r := MultipolygonFinish();
    }

    method WritePolygons(ps: seq<Polygon>) returns (r: Result<()>)
      requires Valid() && stage == InMulti && content.polygons == []
      modifies this
      ensures r.Ok? <==> forall i :: 0 <= i < |ps| ==> |ps[i]| < U32_LIMIT
      ensures r.Ok? ==> Valid() && stage == InMulti && content.polygons == ps
    {
      hide Valid;
      for i := 0 to |ps|
        invariant Valid() && stage == InMulti
        invariant content.polygons == ps[..i]
        invariant forall j :: 0 <= j < i ==> |ps[j]| < U32_LIMIT
      {
        var s := WritePolygon(ps[i]);
        if s.Err? {
          return s;
        }
        assert ps[..i + 1] == ps[..i] + [ps[i]];
      }
      assert ps[..|ps|] == ps;
      return Ok(());
    }

    method WritePolygon(rs: Polygon) returns (r: Result<()>)
      requires Valid() && stage == InMulti
      modifies this
      ensures Valid() && (r.Ok? <==> |rs| < U32_LIMIT)
      ensures r.Ok? ==> stage == InMulti && content.polygons == old(content.polygons) + [rs]
    {
      hide Valid;
      MultipolygonPolygonStart();
      WriteRings(rs);
      r := MultipolygonPolygonFinish();
    }

    method WriteRings(rs: Polygon)
      requires Valid() && stage.InPolygon? && content.rings == []
      modifies this`data, this`rings, this`points, this`ringSizeOffset, this`stage, this`content
      ensures Valid() && stage == old(stage)
      ensures content.polygons == old(content.polygons) && content.rings == rs
    {
      hide Valid;
      for i := 0 to |rs|
        invariant Valid() && stage == old(stage)
        invariant content.polygons == old(content.polygons) && content.rings == rs[..i]
      {
        WriteRing(rs[i]);
        assert rs[..i + 1] == rs[..i] + [rs[i]];
      }
      assert rs[..|rs|] == rs;
    }

    method WriteRing(ps: Ring)
      requires Valid() && stage.InPolygon?
      modifies this`data, this`rings, this`points, this`ringSizeOffset, this`stage, this`content
      ensures Valid() && stage == old(stage)
      ensures content == old(content).(ring := ps, rings := old(content.rings) + [ps])
    {
      hide Valid;
      RingStart();
      for k := 0 to |ps|
        invariant Valid() && stage == InRing(old(stage).multi) && content == old(content).(ring := ps[..k])
      {
        AddLocation(ps[k]);
        assert ps[..k + 1] == ps[..k] + [ps[k]];
      }
      assert ps[..|ps|] == ps;
      RingFinish();
    }
  }

  /** A line string decodes to its points exactly if the caller passed their number. */
  lemma LineStringIffCounted(n: nat, ps: seq<Coord>, f: Format)
    requires n < U32_LIMIT
    ensures Decode(Header(WKB_LINESTRING, f) + U32(n) + EncodePoints(ps)) == Decoded(SridOf(f), LineStringG(ps))
            <==> n == |ps|
  {
    hide Header, U32, EncodePoints, DecodePoints;
    Assoc(Header(WKB_LINESTRING, f), U32(n), EncodePoints(ps));
    HeaderRoundTrip(WKB_LINESTRING, f, U32(n) + EncodePoints(ps));
    SizeWord(n, EncodePoints(ps));
    DecodedPoints(n, EncodePoints(ps));
    if n == |ps| {
      RoundTrip(LineStringG(ps), f);
    }
  }
}
