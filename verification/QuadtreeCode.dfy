/** The quadtree code of a tile (src/expire_tiles_quadtree.cpp): the bits of x and y
    interleaved as YXYX..., the two highest bits belonging to zoom level 1. */
module QuadtreeCode {
  import opened Ints

  datatype Tile = Tile(x: int, y: int)

  /** The reference meaning of a code: bit pair k (counted from the low end) is y_k x_k. */
  function Interleave(x: int, y: int, z: nat): int
    decreases z
  {
    if z == 0 then 0 else x % 2 + 2 * (y % 2) + 4 * Interleave(x / 2, y / 2, z - 1)
  }

  /** The bits at even, respectively odd, positions of the 2z lowest bits of a code. */
  function EvenBits(q: int, z: nat): int
    decreases z
  {
    if z == 0 then 0 else q % 2 + 2 * EvenBits(q / 4, z - 1)
  }

  function OddBits(q: int, z: nat): int
    decreases z
  {
    if z == 0 then 0 else (q / 2) % 2 + 2 * OddBits(q / 4, z - 1)
  }

  function TileOf(q: int, z: nat): Tile { Tile(EvenBits(q, z), OddBits(q, z)) }

  predicate ValidTile(t: Tile, z: nat) { 0 <= t.x < Pow2(z) && 0 <= t.y < Pow2(z) }

  predicate ValidCode(q: int, z: nat) { 0 <= q < Pow2(2 * z) }

  /** The tile k zoom levels above t that contains t. */
  function Ancestor(t: Tile, k: nat): Tile { Tile(Shr(t.x, k), Shr(t.y, k)) }

  /** What `xy_to_quadtree` returns: the code in a 32-bit int. */
  function Encode(x: int, y: int, z: nat): int { Wrap32(Interleave(x, y, z)) }

  /** What `quadtree_to_xy` returns. From zoom 16 on the top Y bit is the sign bit of the code. */
  function Decode(q: int, z: nat): Tile
    requires z <= 16
  {
    Tile(EvenBits(q, z), OddBits(q, z) - (if z == 16 then Bit(q, 31) * 0x1_0000 else 0))
  }

  lemma {:induction false} InterleaveRange(x: int, y: int, z: nat)
    ensures ValidCode(Interleave(x, y, z), z)
    decreases z
  {
    if z > 0 {
      InterleaveRange(x / 2, y / 2, z - 1);
      assert Pow2(2 * z) == 4 * Pow2(2 * z - 2);
    }
  }

  /** The code grows by one bit pair at the high end: the step of the encoding loop. */
  lemma {:induction false} InterleaveHigh(x: int, y: int, z: nat)
    ensures Interleave(x, y, z + 1) ==
            Interleave(x, y, z) + BitAt(x, z, 2 * z) + BitAt(y, z, 2 * z + 1)
    decreases z
  {
    if z > 0 {
      InterleaveHigh(x / 2, y / 2, z - 1);
      assert Bit(x / 2, z - 1) == Bit(x, z) && Bit(y / 2, z - 1) == Bit(y, z);
      assert Pow2(2 * z) == 2 * Pow2(2 * z - 1) == 4 * Pow2(2 * z - 2);
      assert Pow2(2 * z + 1) == 2 * Pow2(2 * z);
    }
  }

  lemma {:induction false} InterleaveLowBits(x: int, y: int, z: nat)
    ensures Interleave(x, y, z) == Interleave(LowBits(x, z), LowBits(y, z), z)
    decreases z
  {
    if z > 0 {
      InterleaveLowBits(x / 2, y / 2, z - 1);
      LowestDigit(x % 2, LowBits(x / 2, z - 1));
      LowestDigit(y % 2, LowBits(y / 2, z - 1));
    }
  }

  /** x and y enter a code only modulo 2^z: the tile one map width further has the same code. */
  lemma CodeModuloMapWidth(x: int, y: int, d: int, e: int, z: nat)
    ensures Interleave(x + d * Pow2(z), y + e * Pow2(z), z) == Interleave(x, y, z)
  {
    LowBitsCongruent(x, d, z);
    LowBitsCongruent(y, e, z);
    InterleaveLowBits(x, y, z);
    InterleaveLowBits(x + d * Pow2(z), y + e * Pow2(z), z);
  }

  /** The two conversions invert each other: on the low bits of x and y one way ... */
  lemma {:induction false} TileOfInterleave(x: int, y: int, z: nat)
    ensures TileOf(Interleave(x, y, z), z) == Tile(LowBits(x, z), LowBits(y, z))
    decreases z
  {
    if z > 0 {
      TileOfInterleave(x / 2, y / 2, z - 1);
      LowestPair(x % 2, y % 2, Interleave(x / 2, y / 2, z - 1));
    }
  }

  lemma LowestPair(a: int, b: int, r: int)
    requires 0 <= a <= 1 && 0 <= b <= 1
    ensures var q := a + 2 * b + 4 * r; q % 2 == a && (q / 2) % 2 == b && q / 4 == r
  {
    LowestDigit(a, b + 2 * r);
    LowestDigit(b, r);
  }

  lemma LowestDigit(a: int, h: int)
    requires 0 <= a <= 1
    ensures (a + 2 * h) % 2 == a && (a + 2 * h) / 2 == h
  {
  }

  /** ... and on the 2z low bits of a code the other way. */
  lemma {:induction false} InterleaveTileOf(q: int, z: nat)
    ensures Interleave(EvenBits(q, z), OddBits(q, z), z) == LowBits(q, 2 * z)
    decreases z
  {
    if z > 0 {
      InterleaveTileOf(q / 4, z - 1);
      var x, y := EvenBits(q / 4, z - 1), OddBits(q / 4, z - 1);
      LowestDigit(q % 2, x);
      LowestDigit((q / 2) % 2, y);
      assert q / 2 / 2 == q / 4;
      assert LowBits(q, 2 * z) == q % 2 + 2 * LowBits(q / 2, 2 * z - 1);
      assert LowBits(q / 2, 2 * z - 1) == (q / 2) % 2 + 2 * LowBits(q / 4, 2 * z - 2);
    }
  }

  lemma {:induction false} TileOfRange(q: int, z: nat)
    ensures ValidTile(TileOf(q, z), z)
    decreases z
  {
    if z > 0 { TileOfRange(q / 4, z - 1); }
  }

  /** The high ends of the decoded coordinates: the step of the decoding loop. */
  lemma {:induction false} DecodeHigh(q: int, z: nat)
    ensures EvenBits(q, z + 1) == EvenBits(q, z) + BitAt(q, 2 * z, z)
    ensures OddBits(q, z + 1) == OddBits(q, z) + BitAt(q, 2 * z + 1, z)
    decreases z
  {
    if z == 0 {
      assert Bit(q, 0) == q % 2 && Bit(q, 1) == (q / 2) % 2;
      assert EvenBits(q, 1) == q % 2 + 2 * EvenBits(q / 4, 0);
      assert OddBits(q, 1) == (q / 2) % 2 + 2 * OddBits(q / 4, 0);
    } else {
      DecodeHigh(q / 4, z - 1);
      BitTwoUp(q, 2 * z - 2);
      BitTwoUp(q, 2 * z - 1);
      assert EvenBits(q, z + 1) == q % 2 + 2 * EvenBits(q / 4, z);
      assert OddBits(q, z + 1) == (q / 2) % 2 + 2 * OddBits(q / 4, z);
    }
  }

  lemma BitTwoUp(q: int, k: nat)
    ensures Bit(q, k + 2) == Bit(q / 4, k)
  {
    assert Shr(q, k + 2) == Shr(q / 2, k + 1) == Shr(q / 2 / 2, k);
  }

  /** Bit pair k of a code, counted from the low end, is bit k of y and bit k of x. */
  lemma {:induction false} CodeBits(x: int, y: int, z: nat, k: nat)
    requires k < z
    ensures Bit(Interleave(x, y, z), 2 * k) == Bit(x, k) && Bit(Interleave(x, y, z), 2 * k + 1) == Bit(y, k)
    decreases z
  {
    var q, rest := Interleave(x, y, z), Interleave(x / 2, y / 2, z - 1);
    LowestPair(x % 2, y % 2, rest);
    if k > 0 {
      CodeBits(x / 2, y / 2, z - 1, k - 1);
      BitTwoUp(q, 2 * k - 2);
      BitTwoUp(q, 2 * k - 1);
    } else {
      assert Shr(q, 1) == Shr(q / 2, 0);
    }
  }

  /** For zoom <= 15 the conversions of the program are mutually inverse bijections between
      the tiles of the zoom level and [0, 4^zoom), and nothing wraps. */
  lemma CodeBijection(t: Tile, q: int, z: nat)
    requires z <= 15 && ValidTile(t, z) && ValidCode(q, z)
    ensures ValidCode(Encode(t.x, t.y, z), z) && Decode(Encode(t.x, t.y, z), z) == t
    ensures ValidTile(Decode(q, z), z) && Encode(Decode(q, z).x, Decode(q, z).y, z) == q
  {
    CodeFits(t.x, t.y, z);
    TileOfInterleave(t.x, t.y, z);
    LowBitsRange(t.x, z);
    LowBitsRange(t.y, z);
    InterleaveTileOf(q, z);
    LowBitsRange(q, 2 * z);
    TileOfRange(q, z);
    CodeFits(Decode(q, z).x, Decode(q, z).y, z);
  }

  lemma CodeBound(z: nat)
    requires z <= 15
    ensures Pow2(2 * z) <= 0x4000_0000
  {
    Pow2Monotone(2 * z, 30);
    Pow2Values();
  }

  lemma CodeFits(x: int, y: int, z: nat)
    requires z <= 15
    ensures Encode(x, y, z) == Interleave(x, y, z) && ValidCode(Encode(x, y, z), z)
  {
    InterleaveRange(x, y, z);
    CodeBound(z);
  }

  ghost predicate RoundTripsAt(z: nat)
    requires z <= 16
  {
    forall t: Tile {:trigger Encode(t.x, t.y, z)} :: ValidTile(t, z) ==> Decode(Encode(t.x, t.y, z), z) == t
  }

  /** Among the zoom levels whose shift counts exist on a 32-bit int (up to 16), the
      round trip holds for all tiles of the level exactly up to level 15. */
  lemma RoundTripExactlyUpTo15(z: nat)
    requires z <= 16
    ensures RoundTripsAt(z) <==> z <= 15
  {
    if z <= 15 {
      forall t: Tile | ValidTile(t, z)
        ensures Decode(Encode(t.x, t.y, z), z) == t
      {
        CodeBijection(t, 0, z);
      }
    } else {
      TopTileBreaks(z);
    }
  }

  /** The counterexample at zoom 16: tile (0, 32768) comes back with y = -32768. */
  lemma TopTileBreaks(z: nat)
    requires z == 16
    ensures ValidTile(Tile(0, Pow2(z - 1)), z) && Pow2(z - 1) == 0x8000
    ensures Decode(Encode(0, Pow2(z - 1), z), z) == Tile(0, -0x8000)
  {
    Pow2Values();
    TopBit(z - 1);
    var q := -Pow2(2 * z - 1);
    assert 2 * z - 1 == 31 && 2 * Pow2(2 * z - 2) == Pow2(2 * z - 1);
    assert Encode(0, Pow2(z - 1), z) == q;
    ShiftedTopBit(2 * z - 1, -1);
    assert q == -1 * Pow2(2 * z - 1);
    assert Bit(q, 31) == 1;
    ShiftedEven(z);
  }

  lemma {:induction false} TopBit(n: nat)
    ensures Interleave(0, Pow2(n), n + 1) == 2 * Pow2(2 * n)
    decreases n
  {
    if n > 0 {
      TopBit(n - 1);
      assert Pow2(2 * n) == 4 * Pow2(2 * n - 2);
      assert Pow2(n) % 2 == 0 && Pow2(n) / 2 == Pow2(n - 1);
      assert Interleave(0, Pow2(n), n + 1) == 4 * Interleave(0, Pow2(n - 1), n);
    } else {
      assert Interleave(0, 0, 0) == 0;
    }
  }

  lemma {:induction false} ShiftedTopBit(n: nat, s: int)
    ensures Shr(s * Pow2(n), n) == s
    decreases n
  {
    if n > 0 {
      var p := Pow2(n - 1);
      assert s * (2 * p) == 2 * (s * p);
      ShiftedTopBit(n - 1, s);
    }
  }

  /** A power of two shifted right, with either sign. */
  lemma ShiftedPower(m: nat, n: nat)
    ensures Shr(Pow2(m + n), n) == Pow2(m) && Shr(-Pow2(m + n), n) == -Pow2(m) && Shr(0, n) == 0
  {
    Pow2Sum(m, n);
    ShiftedTopBit(n, Pow2(m));
    assert -Pow2(m + n) == -Pow2(m) * Pow2(n);
    ShiftedTopBit(n, -Pow2(m));
    assert 0 * Pow2(n) == 0;
    ShiftedTopBit(n, 0);
  }

  lemma {:induction false} ShiftedEven(z: nat)
    requires z > 0
    ensures EvenBits(-Pow2(2 * z - 1), z) == 0
    ensures OddBits(-Pow2(2 * z - 1), z) == Pow2(z - 1)
    decreases z
  {
    if z == 1 {
      assert Pow2(1) == 2;
      assert EvenBits(-2, 1) == 0 + 2 * EvenBits(-1, 0);
      assert OddBits(-2, 1) == 1 + 2 * OddBits(-1, 0);
    } else {
      ShiftedEven(z - 1);
      var q, r := -Pow2(2 * z - 1), -Pow2(2 * z - 3);
      assert 2 * (z - 1) - 1 == 2 * z - 3;
      assert Pow2(2 * z - 1) == 2 * Pow2(2 * z - 2) == 4 * Pow2(2 * z - 3);
      assert q == 4 * r;
      LowestPair(0, 0, r);
    }
  }

  /** Dropping k bit pairs of a code is going up k zoom levels. */
  lemma {:induction false} ShiftIsAncestor(x: int, y: int, z: nat, k: nat)
    requires k <= z
    ensures Shr(Interleave(x, y, z), 2 * k) == Interleave(Shr(x, k), Shr(y, k), z - k)
    decreases k
  {
    if k > 0 {
      ShiftIsAncestor(x / 2, y / 2, z - 1, k - 1);
      var q := Interleave(x, y, z);
      assert Shr(q, 2 * k) == Shr(q / 2 / 2, 2 * k - 2);
    }
  }

  /** The same law on codes: the tile of the shifted code is the ancestor of the tile of the code. */
  lemma {:induction false} TileOfShift(q: int, z: nat, k: nat)
    requires k <= z
    ensures TileOf(Shr(q, 2 * k), z - k) == Ancestor(TileOf(q, z), k)
    decreases k
  {
    if k > 0 {
      TileOfShift(q / 4, z - 1, k - 1);
      assert Shr(q, 2 * k) == Shr(q / 2 / 2, 2 * k - 2);
      assert EvenBits(q, z) / 2 == EvenBits(q / 4, z - 1);
      assert OddBits(q, z) / 2 == OddBits(q / 4, z - 1);
    }
  }

  /** What `quadtree_upscale` returns. */
  function Upscale(q: int, steps: nat, offset: int): int
    requires 2 * steps <= 31
  {
    Wrap32(Shl32(q, 2 * steps) + offset)
  }

  /** Upscaling a code by k steps with every legal offset enumerates exactly the codes k levels
      below whose ancestor has the given code. */
  lemma UpscaleEnumeratesDescendants(q: int, z: nat, k: nat, d: int)
    requires z + k <= 15 && ValidCode(q, z)
    ensures (ValidCode(d, z + k) && Ancestor(TileOf(d, z + k), k) == TileOf(q, z)) <==>
            exists o :: 0 <= o < Pow2(2 * k) && d == Upscale(q, k, o)
  {
    if ValidCode(d, z + k) && Ancestor(TileOf(d, z + k), k) == TileOf(q, z) {
      DescendantIsUpscaled(q, z, k, d);
    }
    if o :| 0 <= o < Pow2(2 * k) && d == Upscale(q, k, o) {
      UpscaledIsDescendant(q, z, k, o);
    }
  }

  lemma UpscaledIsDescendant(q: int, z: nat, k: nat, o: int)
    requires z + k <= 15 && ValidCode(q, z) && 0 <= o < Pow2(2 * k)
    ensures Upscale(q, k, o) == q * Pow2(2 * k) + o
    ensures ValidCode(Upscale(q, k, o), z + k)
    ensures Ancestor(TileOf(Upscale(q, k, o), z + k), k) == TileOf(q, z)
  {
    hide Pow2, Upscale, ValidCode, EvenBits, OddBits;
    var p := Pow2(2 * k);
    UpscaledFits(q, z, k, o);
    MulSucc(q, p);
    var v := q * p + o;
    QuotientUnique(v, 2 * k, q);
    TileOfShift(v, z + k, k);
  }

  lemma UpscaledFits(q: int, z: nat, k: nat, o: int)
    requires z + k <= 15 && ValidCode(q, z) && 0 <= o < Pow2(2 * k)
    ensures Upscale(q, k, o) == q * Pow2(2 * k) + o
    ensures ValidCode(q * Pow2(2 * k) + o, z + k)
  {
    var p := Pow2(2 * k);
    Pow2Sum(2 * z, 2 * k);
    assert 2 * z + 2 * k == 2 * (z + k);
    CodeBound(z + k);
    MulMonotone(0, q, p);
    MulMonotone(q + 1, Pow2(2 * z), p);
    MulSucc(q, p);
  }

  lemma MulSucc(q: int, p: int)
    ensures (q + 1) * p == q * p + p
  {
  }

  lemma DescendantIsUpscaled(q: int, z: nat, k: nat, d: int)
    requires z + k <= 15 && ValidCode(q, z) && ValidCode(d, z + k)
    requires Ancestor(TileOf(d, z + k), k) == TileOf(q, z)
    ensures exists o :: 0 <= o < Pow2(2 * k) && d == Upscale(q, k, o)
  {
    var p := Pow2(2 * k);
    ParentCode(q, z, k, d);
    ShrIsDivision(d, 2 * k);
    MulSucc(q, p);
    var o := d - q * p;
    UpscaledIsDescendant(q, z, k, o);
    assert 0 <= o < p && d == Upscale(q, k, o);
  }

  lemma ParentCode(q: int, z: nat, k: nat, d: int)
    requires z + k <= 15 && ValidCode(q, z) && ValidCode(d, z + k)
    requires Ancestor(TileOf(d, z + k), k) == TileOf(q, z)
    ensures Shr(d, 2 * k) == q
  {
    var s := Shr(d, 2 * k);
    TileOfShift(d, z + k, k);
    InterleaveTileOf(s, z);
    InterleaveTileOf(q, z);
    ShiftedCodeValid(d, z, k);
    LowBitsRange(s, 2 * z);
    LowBitsRange(q, 2 * z);
  }

  lemma ShiftedCodeValid(d: int, z: nat, k: nat)
    requires ValidCode(d, z + k)
    ensures ValidCode(Shr(d, 2 * k), z)
  {
    Pow2Sum(2 * z, 2 * k);
    assert 2 * z + 2 * k == 2 * (z + k);
    ShrIsDivision(d, 2 * k);
    ProductBounds(Shr(d, 2 * k), Pow2(2 * k), Pow2(2 * z), d);
  }

  lemma QuotientUnique(v: int, k: nat, q: int)
    requires q * Pow2(k) <= v < (q + 1) * Pow2(k)
    ensures Shr(v, k) == q
  {
    ShrIsDivision(v, k);
    var s, p := Shr(v, k), Pow2(k);
    if s < q {
      MulMonotone(s + 1, q, p);
    } else if s > q {
      MulMonotone(q + 1, s, p);
    }
  }

  lemma ProductBounds(s: int, p: int, n: int, d: int)
    requires p > 0 && 0 <= d < n * p && s * p <= d < (s + 1) * p
    ensures 0 <= s < n
  {
    if s < 0 {
      MulMonotone(s + 1, 0, p);
    }
    if s >= n {
      MulMonotone(n, s, p);
    }
  }

  lemma MulMonotone(a: int, b: int, p: int)
    requires a <= b && p >= 0
    ensures a * p <= b * p
  {
    assert (b - a) * p >= 0;
  }
}
