/** The per-heightmap bounding-box pyramid (compute_bounding_boxes,
    src/terrainquadtree.js:16-83) and its lookup by a quadtree node
    (_CalculateStaticBB, src/terrainquadtree.js:228-236).

    Level 0 holds, for every TileSize x TileSize tile of the heightmap, the
    lowest and highest height; every further level merges 2 x 2 blocks of the
    level below, until a single entry remains. Entries are indexed [y][x]. */
module BoundingBoxes {
  import opened Constants
  import opened Util
  import opened Heightmap

  /** A `[vmin, vmax]` pair. */
  datatype MinMax = MinMax(lo: real, hi: real)

  type Level = seq<seq<MinMax>>
  type Pyramid = seq<Level>

  /** The start value of every scan: vmin = 1e10, vmax = -1e10. */
  const Empty: MinMax := MinMax(10000000000.0, -10000000000.0)

  /** The largest height a byte heightmap can produce. */
  const MaxHeight: real := 255.0 * TerrainHeightScale

  /** Which end of a pair a statement is about. */
  datatype Side = Low | High

  function Get(mm: MinMax, side: Side): real
  {
    if side == Low then mm.lo else mm.hi
  }

  /** A pair describing a non-empty set of heights of a byte heightmap. */
  predicate Sane(mm: MinMax)
  {
    0.0 <= mm.lo <= mm.hi <= MaxHeight
  }

  /** `outer` contains `inner`. */
  predicate Covers(outer: MinMax, inner: MinMax)
  {
    outer.lo <= inner.lo && inner.hi <= outer.hi
  }

  /** One step of a scan: `vmin = Math.min(vmin, v); vmax = Math.max(vmax, v)`. */
  function Absorb(mm: MinMax, v: real): MinMax
  {
    MinMax(Min(mm.lo, v), Max(mm.hi, v))
  }

  /** One step of a merge: `Math.min(vmin, c[0]); Math.max(vmax, c[1])`. */
  function Join(mm: MinMax, c: MinMax): MinMax
  {
    MinMax(Min(mm.lo, c.lo), Max(mm.hi, c.hi))
  }

  function TileCount(img: Image): int
  {
    img.width / TileSize
  }

  /** The heightmaps the engine loads: a power-of-two number of tiles per
      row, and every texel the level-0 scan addresses lies inside the data.
      The scan uses TerrainPlaneWidth, not the image width, as row stride. */
  predicate Scannable(img: Image)
  {
    img.width > 0 && img.width % TileSize == 0 && IsPow2(img.width / TileSize) &&
    ((img.width - 1) * TerrainPlaneWidth + img.width - 1) * 4 < |img.data|
  }

  /** Levels of the pyramid above level 0: log2(tiles_count). */
  function TopLevel(img: Image): nat
    requires Scannable(img)
  {
    Log2(TileCount(img))
  }

  /** `src_idx` of texel (xx, yy) of tile (tx, ty). */
  function SampleIndex(tx: int, ty: int, xx: int, yy: int): int
  {
    ((ty * TileSize + yy) * TerrainPlaneWidth + tx * TileSize + xx) * 4
  }

  predicate InTile(img: Image, tx: int, ty: int)
  {
    0 <= tx < TileCount(img) && 0 <= ty < TileCount(img)
  }

  predicate InTexel(xx: int, yy: int)
  {
    0 <= xx < TileSize && 0 <= yy < TileSize
  }

  /** `data[src_idx] * TERRAIN_HEIGHT_SCALE`: heights are scaled already here. */
  function Sample(img: Image, tx: int, ty: int, xx: int, yy: int): (v: real)
    requires Scannable(img) && InTile(img, tx, ty) && InTexel(xx, yy)
    ensures 0.0 <= v <= MaxHeight
  {
    var i := SampleIndex(tx, ty, xx, yy);
    assert 0 <= i < |img.data| by {
      assert ty * TileSize + yy <= img.width - 1;
      assert tx * TileSize + xx <= img.width - 1;
    }
    img.data[i] as real * TerrainHeightScale
  }

  /** The scan of the first `n` texels of row `yy` of a tile, starting from `acc`. */
  function RowScan(img: Image, tx: int, ty: int, yy: int, n: nat, acc: MinMax): (r: MinMax)
    requires Scannable(img) && InTile(img, tx, ty) && InTexel(0, yy) && n <= TileSize
  {
    if n == 0 then acc else Absorb(RowScan(img, tx, ty, yy, n - 1, acc), Sample(img, tx, ty, n - 1, yy))
  }

  /** The scan of the first `m` rows of a tile. */
  function TileScan(img: Image, tx: int, ty: int, m: nat): (r: MinMax)
    requires Scannable(img) && InTile(img, tx, ty) && m <= TileSize
  {
    if m == 0 then Empty else RowScan(img, tx, ty, m - 1, TileSize, TileScan(img, tx, ty, m - 1))
  }

  /** The level-0 entry of tile (tx, ty). */
  function TileEntry(img: Image, tx: int, ty: int): (r: MinMax)
    requires Scannable(img) && InTile(img, tx, ty)
    ensures Sane(r)
  {
    TileSane(img, tx, ty);
    TileScan(img, tx, ty, TileSize)
  }

  lemma {:induction false} RowEnvelope(img: Image, tx: int, ty: int, yy: int, n: nat, acc: MinMax)
    requires Scannable(img) && InTile(img, tx, ty) && InTexel(0, yy) && n <= TileSize
    ensures Covers(RowScan(img, tx, ty, yy, n, acc), acc)
    ensures forall xx | 0 <= xx < n ::
      RowScan(img, tx, ty, yy, n, acc).lo <= Sample(img, tx, ty, xx, yy) <= RowScan(img, tx, ty, yy, n, acc).hi
  {
    if n > 0 {
      RowEnvelope(img, tx, ty, yy, n - 1, acc);
    }
  }

  /** Every texel of the tile lies within its entry. */
  lemma {:induction false} TileEnvelope(img: Image, tx: int, ty: int)
    requires Scannable(img) && InTile(img, tx, ty)
    ensures forall xx, yy | InTexel(xx, yy) ::
      TileScan(img, tx, ty, TileSize).lo <= Sample(img, tx, ty, xx, yy) <= TileScan(img, tx, ty, TileSize).hi
  {
    TileEnvelopeUpTo(img, tx, ty, TileSize);
  }

  lemma {:induction false} TileEnvelopeUpTo(img: Image, tx: int, ty: int, m: nat)
    requires Scannable(img) && InTile(img, tx, ty) && m <= TileSize
    ensures forall xx, yy | 0 <= xx < TileSize && 0 <= yy < m ::
      TileScan(img, tx, ty, m).lo <= Sample(img, tx, ty, xx, yy) <= TileScan(img, tx, ty, m).hi
  {
    if m > 0 {
      TileEnvelopeUpTo(img, tx, ty, m - 1);
      RowEnvelope(img, tx, ty, m - 1, TileSize, TileScan(img, tx, ty, m - 1));
    }
  }

  lemma {:induction false} RowAttained(img: Image, tx: int, ty: int, yy: int, n: nat, acc: MinMax, side: Side)
    returns (xx: int)
    requires Scannable(img) && InTile(img, tx, ty) && InTexel(0, yy) && n <= TileSize
    ensures Get(RowScan(img, tx, ty, yy, n, acc), side) == Get(acc, side) ||
      (0 <= xx < n && Get(RowScan(img, tx, ty, yy, n, acc), side) == Sample(img, tx, ty, xx, yy))
  {
    if n == 0 {
      xx := 0;
    } else {
      xx := RowAttained(img, tx, ty, yy, n - 1, acc, side);
      var before := RowScan(img, tx, ty, yy, n - 1, acc);
      var v := Sample(img, tx, ty, n - 1, yy);
      if Get(Absorb(before, v), side) == v {
        xx := n - 1;
      }
    }
  }

  /** A tile's lowest (highest) value is the height of one of its texels:
      the sentinels 1e10 and -1e10 never survive the scan. */
  lemma {:induction false} TileAttained(img: Image, tx: int, ty: int, side: Side) returns (xx: int, yy: int)
    requires Scannable(img) && InTile(img, tx, ty)
    ensures InTexel(xx, yy) && Get(TileScan(img, tx, ty, TileSize), side) == Sample(img, tx, ty, xx, yy)
  {
    xx, yy := TileAttainedUpTo(img, tx, ty, TileSize, side);
  }

  lemma TileSane(img: Image, tx: int, ty: int)
    requires Scannable(img) && InTile(img, tx, ty)
    ensures Sane(TileScan(img, tx, ty, TileSize))
  {
    var lx, ly := TileAttainedUpTo(img, tx, ty, TileSize, Low);
    var hx, hy := TileAttainedUpTo(img, tx, ty, TileSize, High);
    TileEnvelope(img, tx, ty);
  }

  lemma {:induction false} TileAttainedUpTo(img: Image, tx: int, ty: int, m: nat, side: Side) returns (xx: int, yy: int)
    requires Scannable(img) && InTile(img, tx, ty) && 0 < m <= TileSize
    ensures 0 <= xx < TileSize && 0 <= yy < m && Get(TileScan(img, tx, ty, m), side) == Sample(img, tx, ty, xx, yy)
  {
    var acc := TileScan(img, tx, ty, m - 1);
    var x := RowAttained(img, tx, ty, m - 1, TileSize, acc, side);
    if 0 <= x < TileSize && Get(TileScan(img, tx, ty, m), side) == Sample(img, tx, ty, x, m - 1) {
      xx, yy := x, m - 1;
    } else {
      // The row kept the accumulator's value, so the row's own first texel
      // did not beat it; hence an earlier row exists.
      RowEnvelope(img, tx, ty, m - 1, TileSize, acc);
      if m == 1 {
        assert false;
      }
      xx, yy := TileAttainedUpTo(img, tx, ty, m - 1, side);
    }
  }

  /** The merge loop over entries `cs`, in loop order, from the sentinels. */
  function JoinAll(cs: seq<MinMax>): MinMax
  {
    if |cs| == 0 then Empty else Join(JoinAll(cs[..|cs| - 1]), cs[|cs| - 1])
  }

  predicate SaneAll(cs: seq<MinMax>)
  {
    forall i | 0 <= i < |cs| :: Sane(cs[i])
  }

  /** Merging sane entries gives a sane entry that contains each of them. */
  lemma {:induction false} JoinAllCovers(cs: seq<MinMax>)
    requires |cs| > 0 && SaneAll(cs)
    ensures Sane(JoinAll(cs)) && forall i | 0 <= i < |cs| :: Covers(JoinAll(cs), cs[i])
  {
    var init := cs[..|cs| - 1];
    if |init| > 0 {
      assert SaneAll(init);
      JoinAllCovers(init);
    } else {
      assert JoinAll(init) == Empty;
    }
  }

  /** ... and whose low (high) end is that of one of them. */
  lemma {:induction false} JoinAllAttained(cs: seq<MinMax>, side: Side) returns (i: int)
    requires |cs| > 0 && SaneAll(cs)
    ensures 0 <= i < |cs| && Get(JoinAll(cs), side) == Get(cs[i], side)
  {
    var init := cs[..|cs| - 1];
    var last := cs[|cs| - 1];
    if |init| == 0 {
      assert JoinAll(init) == Empty;
      i := 0;
    } else {
      assert SaneAll(init);
      i := JoinAllAttained(init, side);
      if Get(JoinAll(cs), side) == Get(last, side) {
        i := |cs| - 1;
      }
    }
  }

  /** `n` rows of `n` entries each. */
  predicate SquareOf(level: Level, n: int)
  {
    |level| == n && forall y | 0 <= y < n :: |level[y]| == n
  }

  predicate AllSane(level: Level)
  {
    forall y, x | 0 <= y < |level| && 0 <= x < |level[y]| :: Sane(level[y][x])
  }

  /** The entries `bbs[l - 1][y * 2 + yy][x * 2 + xx]` in loop order
      (yy, xx) = (0, 0), (0, 1), (1, 0), (1, 1). */
  function Block(prev: Level, x: int, y: int): (cs: seq<MinMax>)
    requires SquareOf(prev, |prev|) && 0 <= x && 0 <= y && 2 * x + 1 < |prev| && 2 * y + 1 < |prev|
    ensures |cs| == 4 && (AllSane(prev) ==> SaneAll(cs))
  {
    [prev[2 * y][2 * x], prev[2 * y][2 * x + 1], prev[2 * y + 1][2 * x], prev[2 * y + 1][2 * x + 1]]
  }

  /** `bbs[l][y][x]`: the merge of its block. */
  function MergeEntry(prev: Level, x: int, y: int): (r: MinMax)
    requires SquareOf(prev, |prev|) && 0 <= x && 0 <= y && 2 * x + 1 < |prev| && 2 * y + 1 < |prev|
    ensures AllSane(prev) ==> Sane(r)
  {
    var cs := Block(prev, x, y);
    if AllSane(prev) then JoinAllCovers(cs); JoinAll(cs) else JoinAll(cs)
  }

  /** One step of "merge upwards": half as many entries per row and column. */
  function MergeLevel(prev: Level): (r: Level)
    requires SquareOf(prev, |prev|) && |prev| % 2 == 0
    ensures SquareOf(r, |prev| / 2)
    ensures AllSane(prev) ==> AllSane(r)
  {
    var n := |prev| / 2;
    seq(n, y requires 0 <= y < n => seq(n, x requires 0 <= x < n => MergeEntry(prev, x, y)))
  }

  /** The base level, derived from the heightmap. */
  function Level0(img: Image): (r: Level)
    requires Scannable(img)
    ensures SquareOf(r, TileCount(img)) && AllSane(r)
  {
    var n := TileCount(img);
    seq(n, y requires 0 <= y < n => seq(n, x requires 0 <= x < n => TileEntry(img, x, y)))
  }

  lemma Pow2Step(n: nat)
    ensures Pow2(n + 1) == 2 * Pow2(n)
  {
  }

  /** Entry (x, y) of level `l` above a base level of Pow2(k) x Pow2(k)
      entries: the merge of its four children on level l - 1. */
  function UpEntry(base: Level, k: nat, l: nat, x: int, y: int): (r: MinMax)
    requires SquareOf(base, Pow2(k)) && AllSane(base) && l <= k
    requires 0 <= x < Pow2(k - l) && 0 <= y < Pow2(k - l)
    ensures Sane(r)
    decreases l, 1
  {
    if l == 0 then base[y][x]
    else
      var cs := Kids(base, k, l, x, y);
      JoinAllCovers(cs);
      JoinAll(cs)
  }

  /** The four children of entry (x, y) of level l > 0, in merge order. */
  function Kids(base: Level, k: nat, l: nat, x: int, y: int): (cs: seq<MinMax>)
    requires SquareOf(base, Pow2(k)) && AllSane(base) && 0 < l <= k
    requires 0 <= x < Pow2(k - l) && 0 <= y < Pow2(k - l)
    ensures |cs| == 4 && SaneAll(cs)
    decreases l, 0
  {
    Pow2Step(k - l);
    [UpEntry(base, k, l - 1, 2 * x, 2 * y), UpEntry(base, k, l - 1, 2 * x + 1, 2 * y),
     UpEntry(base, k, l - 1, 2 * x, 2 * y + 1), UpEntry(base, k, l - 1, 2 * x + 1, 2 * y + 1)]
  }

  /** Level `l` as a whole: Pow2(k - l) rows of Pow2(k - l) entries. */
  function Up(base: Level, k: nat, l: nat): (r: Level)
    requires SquareOf(base, Pow2(k)) && AllSane(base) && l <= k
    ensures SquareOf(r, Pow2(k - l)) && AllSane(r)
  {
    var n := Pow2(k - l);
    seq(n, y requires 0 <= y < n => seq(n, x requires 0 <= x < n => UpEntry(base, k, l, x, y)))
  }

  lemma TileCountIsPow2(img: Image)
    requires Scannable(img)
    ensures Pow2(TopLevel(img)) == TileCount(img)
  {
  }

  /** Level `l` of the pyramid: Pow2(TopLevel - l) entries per row. */
  function LevelAt(img: Image, l: nat): (r: Level)
    requires Scannable(img) && l <= TopLevel(img)
    ensures SquareOf(r, Pow2(TopLevel(img) - l)) && AllSane(r)
  {
    TileCountIsPow2(img);
    Up(Level0(img), TopLevel(img), l)
  }

  /** The whole pyramid: log2(tiles_count) + 1 levels, the last of a single entry. */
  function PyramidOf(img: Image): (p: Pyramid)
    requires Scannable(img)
    ensures |p| == TopLevel(img) + 1
    ensures forall l | 0 <= l < |p| :: SquareOf(p[l], Pow2(TopLevel(img) - l)) && AllSane(p[l])
    ensures SquareOf(p[0], TileCount(img)) && SquareOf(p[TopLevel(img)], 1)
  {
    seq(TopLevel(img) + 1, l requires 0 <= l <= TopLevel(img) => LevelAt(img, l))
  }

  /** `x * Pow2(l)`, written as l doublings so that block arithmetic stays linear. */
  function Scale(x: int, l: nat): int
  {
    if l == 0 then x else 2 * Scale(x, l - 1)
  }

  lemma {:induction false} ScaleIsProduct(x: int, l: nat)
    ensures Scale(x, l) == x * Pow2(l)
  {
    if l > 0 {
      ScaleIsProduct(x, l - 1);
      assert x * Pow2(l) == 2 * (x * Pow2(l - 1));
    }
  }

  lemma {:induction false} ScaleAdd(a: int, b: int, l: nat)
    ensures Scale(a + b, l) == Scale(a, l) + Scale(b, l)
  {
    if l > 0 {
      ScaleAdd(a, b, l - 1);
    }
  }

  lemma {:induction false} ScaleMonotone(a: int, b: int, l: nat)
    requires a <= b
    ensures Scale(a, l) <= Scale(b, l)
  {
    if l > 0 {
      ScaleMonotone(a, b, l - 1);
    }
  }

  lemma {:induction false} ScalePow2(a: nat, l: nat)
    ensures Scale(Pow2(a), l) == Pow2(a + l)
  {
    if l > 0 {
      ScalePow2(a, l - 1);
    }
  }

  /** x * 2^l <= t < (x + 1) * 2^l. */
  predicate InRange(l: nat, x: int, t: int)
  {
    Scale(x, l) <= t < Scale(x + 1, l)
  }

  /** Entry (tx, ty) of the base lies in the block that entry (x, y) of
      level l summarises. */
  predicate InBlock(l: nat, x: int, y: int, tx: int, ty: int)
  {
    InRange(l, x, tx) && InRange(l, y, ty)
  }

  /** A block of an entry of level l lies inside the base. */
  lemma BlockInside(k: nat, l: nat, x: int, tx: int)
    requires l <= k && 0 <= x < Pow2(k - l) && InRange(l, x, tx)
    ensures 0 <= tx < Pow2(k)
  {
    ScaleMonotone(x + 1, Pow2(k - l), l);
    ScalePow2(k - l, l);
    ScaleMonotone(0, x, l);
    ScaleIsProduct(0, l);
  }

  lemma Halves(x: int, l: nat)
    requires l > 0
    ensures Scale(x, l) == Scale(2 * x, l - 1) && Scale(x + 1, l) == Scale(2 * x + 2, l - 1)
  {
    ScaleAdd(x, x, l - 1);
    ScaleAdd(x + 1, x + 1, l - 1);
  }

  /** Range 2x + dx of level l - 1 lies in range x of level l. */
  lemma SubRangeUp(l: nat, x: int, dx: int, t: int)
    requires l > 0 && 0 <= dx <= 1 && InRange(l - 1, 2 * x + dx, t)
    ensures InRange(l, x, t)
  {
    Halves(x, l);
    ScaleMonotone(2 * x, 2 * x + dx, l - 1);
    ScaleMonotone(2 * x + dx + 1, 2 * x + 2, l - 1);
  }

  /** Range x of level l is the union of ranges 2x and 2x + 1 of level l - 1. */
  lemma SubRangeDown(l: nat, x: int, t: int) returns (dx: int)
    requires l > 0 && InRange(l, x, t)
    ensures 0 <= dx <= 1 && InRange(l - 1, 2 * x + dx, t)
  {
    Halves(x, l);
    dx := if t < Scale(2 * x + 1, l - 1) then 0 else 1;
  }

  /** Child 2 * dy + dx of entry (x, y) is entry (2x + dx, 2y + dy) of level l - 1. */
  lemma KidAt(base: Level, k: nat, l: nat, x: int, y: int, dx: int, dy: int)
    requires SquareOf(base, Pow2(k)) && AllSane(base) && 0 < l <= k && 0 <= dx <= 1 && 0 <= dy <= 1
    requires 0 <= x < Pow2(k - l) && 0 <= y < Pow2(k - l)
    ensures 2 * x + dx < Pow2(k - (l - 1)) && 2 * y + dy < Pow2(k - (l - 1))
    ensures Kids(base, k, l, x, y)[2 * dy + dx] == UpEntry(base, k, l - 1, 2 * x + dx, 2 * y + dy)
  {
    Pow2Step(k - l);
  }

  /** An entry of level l > 0 contains each of its four children. */
  lemma MergeCovers(base: Level, k: nat, l: nat, x: int, y: int, dx: int, dy: int)
    requires SquareOf(base, Pow2(k)) && AllSane(base) && 0 < l <= k && 0 <= dx <= 1 && 0 <= dy <= 1
    requires 0 <= x < Pow2(k - l) && 0 <= y < Pow2(k - l)
    ensures 2 * x + dx < Pow2(k - (l - 1)) && 2 * y + dy < Pow2(k - (l - 1))
    ensures Covers(UpEntry(base, k, l, x, y), UpEntry(base, k, l - 1, 2 * x + dx, 2 * y + dy))
  {
    KidAt(base, k, l, x, y, dx, dy);
    JoinAllCovers(Kids(base, k, l, x, y));
  }

  /** The child block of (x, y) that holds base entry (tx, ty). */
  lemma ChildBlock(l: nat, x: int, y: int, tx: int, ty: int) returns (dx: int, dy: int)
    requires l > 0 && InBlock(l, x, y, tx, ty)
    ensures 0 <= dx <= 1 && 0 <= dy <= 1 && InBlock(l - 1, 2 * x + dx, 2 * y + dy, tx, ty)
  {
    dx := SubRangeDown(l, x, tx);
    dy := SubRangeDown(l, y, ty);
  }

  /** Every entry contains the base entries of all of its block. */
  lemma {:induction false} UpEnvelope(base: Level, k: nat, l: nat, x: int, y: int, tx: int, ty: int)
    requires SquareOf(base, Pow2(k)) && AllSane(base) && l <= k
    requires 0 <= x < Pow2(k - l) && 0 <= y < Pow2(k - l) && InBlock(l, x, y, tx, ty)
    ensures 0 <= tx < Pow2(k) && 0 <= ty < Pow2(k)
    ensures Covers(UpEntry(base, k, l, x, y), base[ty][tx])
  {
    BlockInside(k, l, x, tx);
    BlockInside(k, l, y, ty);
    if l > 0 {
      var dx, dy := ChildBlock(l, x, y, tx, ty);
      MergeCovers(base, k, l, x, y, dx, dy);
      UpEnvelope(base, k, l - 1, 2 * x + dx, 2 * y + dy, tx, ty);
    }
  }

  /** The low (high) end of an entry of level l > 0 is that of one of its children. */
  lemma MergeAttained(base: Level, k: nat, l: nat, x: int, y: int, side: Side) returns (dx: int, dy: int)
    requires SquareOf(base, Pow2(k)) && AllSane(base) && 0 < l <= k
    requires 0 <= x < Pow2(k - l) && 0 <= y < Pow2(k - l)
    ensures 0 <= dx <= 1 && 0 <= dy <= 1
    ensures 2 * x + dx < Pow2(k - (l - 1)) && 2 * y + dy < Pow2(k - (l - 1))
    ensures Get(UpEntry(base, k, l, x, y), side) == Get(UpEntry(base, k, l - 1, 2 * x + dx, 2 * y + dy), side)
  {
    var i := JoinAllAttained(Kids(base, k, l, x, y), side);
    if i == 0 {
      dx, dy := 0, 0;
    } else if i == 1 {
      dx, dy := 1, 0;
    } else if i == 2 {
      dx, dy := 0, 1;
    } else {
      dx, dy := 1, 1;
    }
    KidAt(base, k, l, x, y, dx, dy);
  }

  /** Every entry's low (high) end is that of one base entry. */
  lemma {:induction false} UpAttained(base: Level, k: nat, l: nat, x: int, y: int, side: Side)
    returns (tx: int, ty: int)
    requires SquareOf(base, Pow2(k)) && AllSane(base) && l <= k
    requires 0 <= x < Pow2(k - l) && 0 <= y < Pow2(k - l)
    ensures 0 <= tx < Pow2(k) && 0 <= ty < Pow2(k) && InBlock(l, x, y, tx, ty)
    ensures Get(UpEntry(base, k, l, x, y), side) == Get(base[ty][tx], side)
    decreases l, 1
  {
    if l == 0 {
      tx, ty := x, y;
    } else {
      tx, ty := UpAttainedStep(base, k, l, x, y, side);
    }
  }

  lemma {:induction false} UpAttainedStep(base: Level, k: nat, l: nat, x: int, y: int, side: Side)
    returns (tx: int, ty: int)
    requires SquareOf(base, Pow2(k)) && AllSane(base) && 0 < l <= k
    requires 0 <= x < Pow2(k - l) && 0 <= y < Pow2(k - l)
    ensures 0 <= tx < Pow2(k) && 0 <= ty < Pow2(k) && InBlock(l, x, y, tx, ty)
    ensures Get(UpEntry(base, k, l, x, y), side) == Get(base[ty][tx], side)
    decreases l, 0
  {
    var dx, dy := MergeAttained(base, k, l, x, y, side);
    tx, ty := UpAttained(base, k, l - 1, 2 * x + dx, 2 * y + dy, side);
    SubRangeUp(l, x, dx, tx);
    SubRangeUp(l, y, dy, ty);
  }

  /** A quadtree node at tile (x, y) of width w tiles, as the quadtree
      places them: w a power of two, (x, y) a multiple of w, inside the face. */
  predicate Placed(img: Image, x: int, y: int, w: int)
  {
    IsPow2(w) && 0 <= x && 0 <= y && x % w == 0 && y % w == 0 &&
    x + w <= TileCount(img) && y + w <= TileCount(img)
  }

  /** Tile (tx, ty) lies in the node. */
  predicate InNode(x: int, y: int, w: int, tx: int, ty: int)
  {
    x <= tx < x + w && y <= ty < y + w
  }

  /** The node's index `x / w` on level `log2(w)` is in range, and its block
      on that level is exactly the node's tiles. */
  lemma PlacedIndex(img: Image, x: int, w: int)
    requires Scannable(img) && IsPow2(w) && 0 <= x && x % w == 0 && x + w <= TileCount(img)
    ensures Log2(w) <= TopLevel(img) && 0 <= x / w < Pow2(TopLevel(img) - Log2(w))
    ensures Scale(x / w, Log2(w)) == x && Scale(x / w + 1, Log2(w)) == x + w
  {
    var l, k := Log2(w), TopLevel(img);
    TileCountIsPow2(img);
    if l > k {
      Pow2Increasing(k, l);
    }
    var q := x / w;
    ExactQuotient(x, w);
    Pow2Add(k - l, l);
    QuotientBelow(q, w, Pow2(k - l));
    ScaleIsProduct(q, l);
    ScaleIsProduct(q + 1, l);
  }

  lemma ExactQuotient(x: int, w: int)
    requires 0 <= x && 0 < w && x % w == 0
    ensures 0 <= x / w && x == x / w * w && x + w == (x / w + 1) * w
  {
  }

  lemma QuotientBelow(q: int, w: int, n: int)
    requires 0 < w && (q + 1) * w <= n * w
    ensures q < n
  {
    assert (q + 1 - n) * w <= 0;
  }

  /** `terrain_bounding_boxes[node_lod_level][y / w][x / w]` with
      node_lod_level = log2(w). */
  function NodeEntry(img: Image, x: int, y: int, w: int): (mm: MinMax)
    requires Scannable(img) && Placed(img, x, y, w)
    ensures Sane(mm)
  {
    NodeIndex(img, x, y, w);
    PyramidOf(img)[Log2(w)][y / w][x / w]
  }

  /** The lookup of an aligned node is in range, and lands on an ordered entry. */
  lemma NodeIndex(img: Image, x: int, y: int, w: int)
    requires Scannable(img) && Placed(img, x, y, w)
    ensures Log2(w) < |PyramidOf(img)| && 0 <= y / w < |PyramidOf(img)[Log2(w)]|
    ensures 0 <= x / w < |PyramidOf(img)[Log2(w)][y / w]| && Sane(PyramidOf(img)[Log2(w)][y / w][x / w])
  {
    PlacedIndex(img, x, w);
    PlacedIndex(img, y, w);
    var p, l := PyramidOf(img), Log2(w);
    assert SquareOf(p[l], Pow2(TopLevel(img) - l)) && AllSane(p[l]);
  }

  /** The entry a node looks up is the lowest and the highest scanned height
      of exactly the node's tiles: every texel lies within it, and both ends
      are attained by a texel of the node. */
  lemma NodeEntryIsRange(img: Image, x: int, y: int, w: int)
    requires Scannable(img) && Placed(img, x, y, w)
    ensures forall tx, ty, xx, yy | InTile(img, tx, ty) && InNode(x, y, w, tx, ty) && InTexel(xx, yy) ::
      NodeEntry(img, x, y, w).lo <= Sample(img, tx, ty, xx, yy) <= NodeEntry(img, x, y, w).hi
    ensures exists tx, ty, xx, yy ::
      (InTile(img, tx, ty) && InNode(x, y, w, tx, ty) && InTexel(xx, yy) &&
       NodeEntry(img, x, y, w).lo == Sample(img, tx, ty, xx, yy))
    ensures exists tx, ty, xx, yy ::
      (InTile(img, tx, ty) && InNode(x, y, w, tx, ty) && InTexel(xx, yy) &&
       NodeEntry(img, x, y, w).hi == Sample(img, tx, ty, xx, yy))
  {
    forall tx, ty, xx, yy | InTile(img, tx, ty) && InNode(x, y, w, tx, ty) && InTexel(xx, yy)
      ensures NodeEntry(img, x, y, w).lo <= Sample(img, tx, ty, xx, yy) <= NodeEntry(img, x, y, w).hi
    {
      NodeEnvelope(img, x, y, w, tx, ty, xx, yy);
    }
    var lx, ly, lxx, lyy := NodeAttained(img, x, y, w, Low);
    var hx, hy, hxx, hyy := NodeAttained(img, x, y, w, High);
  }

  /** The node's entry, as an entry of the merge tree over level 0. */
  lemma NodeEntryIsUp(img: Image, x: int, y: int, w: int)
    requires Scannable(img) && Placed(img, x, y, w)
    ensures Log2(w) <= TopLevel(img) && Pow2(TopLevel(img)) == TileCount(img)
    ensures 0 <= x / w < Pow2(TopLevel(img) - Log2(w)) && 0 <= y / w < Pow2(TopLevel(img) - Log2(w))
    ensures Scale(x / w, Log2(w)) == x && Scale(x / w + 1, Log2(w)) == x + w
    ensures Scale(y / w, Log2(w)) == y && Scale(y / w + 1, Log2(w)) == y + w
    ensures NodeEntry(img, x, y, w) == UpEntry(Level0(img), TopLevel(img), Log2(w), x / w, y / w)
  {
    PlacedIndex(img, x, w);
    PlacedIndex(img, y, w);
    TileCountIsPow2(img);
  }

  lemma NodeEnvelope(img: Image, x: int, y: int, w: int, tx: int, ty: int, xx: int, yy: int)
    requires Scannable(img) && Placed(img, x, y, w)
    requires InTile(img, tx, ty) && InNode(x, y, w, tx, ty) && InTexel(xx, yy)
    ensures NodeEntry(img, x, y, w).lo <= Sample(img, tx, ty, xx, yy) <= NodeEntry(img, x, y, w).hi
  {
    NodeEntryIsUp(img, x, y, w);
    var base := Level0(img);
    UpEnvelope(base, TopLevel(img), Log2(w), x / w, y / w, tx, ty);
    assert base[ty][tx] == TileEntry(img, tx, ty);
    TileEnvelope(img, tx, ty);
  }

  lemma NodeAttained(img: Image, x: int, y: int, w: int, side: Side) returns (tx: int, ty: int, xx: int, yy: int)
    requires Scannable(img) && Placed(img, x, y, w)
    ensures InTile(img, tx, ty) && InNode(x, y, w, tx, ty) && InTexel(xx, yy)
    ensures Get(NodeEntry(img, x, y, w), side) == Sample(img, tx, ty, xx, yy)
  {
    NodeEntryIsUp(img, x, y, w);
    tx, ty, xx, yy := BlockAttained(img, TopLevel(img), Log2(w), x / w, y / w, x, y, w, side);
  }

  /** The texel that attains a bound of the entry of block (qx, qy) on
      level l, where that block is the square of tiles [x, x + w) x [y, y + w). */
  lemma BlockAttained(img: Image, k: nat, l: nat, qx: int, qy: int, x: int, y: int, w: int, side: Side)
    returns (tx: int, ty: int, xx: int, yy: int)
    requires Scannable(img) && k == TopLevel(img) && Pow2(k) == TileCount(img) && l <= k
    requires 0 <= qx < Pow2(k - l) && 0 <= qy < Pow2(k - l)
    requires Scale(qx, l) == x && Scale(qx + 1, l) == x + w && Scale(qy, l) == y && Scale(qy + 1, l) == y + w
    ensures InTile(img, tx, ty) && InNode(x, y, w, tx, ty) && InTexel(xx, yy)
    ensures Get(UpEntry(Level0(img), k, l, qx, qy), side) == Sample(img, tx, ty, xx, yy)
  {
    var base := Level0(img);
    tx, ty := UpAttained(base, k, l, qx, qy, side);
    assert base[ty][tx] == TileEntry(img, tx, ty);
    xx, yy := TileAttained(img, tx, ty, side);
  }

  /** The texel of the heightmap at (px, py) = (tx * TileSize + xx, ty * TileSize + yy). */
  function TexelX(tx: int, xx: int): int
  {
    tx * TileSize + xx
  }

  /** On a heightmap of width TERRAIN_PLANE_WIDTH the scan's stride is the
      image's own, so a scanned sample is the node's bilinear height at that
      texel. */
  lemma SampleIsHeightAt(img: Image, tx: int, ty: int, xx: int, yy: int)
    requires Scannable(img) && WellFormed(img) && img.width == img.height == TerrainPlaneWidth
    requires InTile(img, tx, ty) && InTexel(xx, yy)
    ensures 0 <= TexelX(tx, xx) < img.width && 0 <= TexelX(ty, yy) < img.width
    ensures HeightAt(img, TexelX(tx, xx) as real, TexelX(ty, yy) as real) == Some(Sample(img, tx, ty, xx, yy))
  {
    var px, py := TexelX(tx, xx), TexelX(ty, yy);
    assert px <= img.width - 1 && py <= img.width - 1;
    HeightAtTexel(img, px, py);
    InImage(img, px, py);
    assert SampleIndex(tx, ty, xx, yy) == (py * img.width + px) * 4;
  }

  /** The y extent of the local box _CalculateStaticBB builds from a node's
      entry, as written: the entry, already scaled by TERRAIN_HEIGHT_SCALE in
      the level-0 pass, is scaled a second time. */
  function StaticHeightsAsWritten(entry: MinMax): MinMax
  {
    MinMax(entry.lo * TerrainHeightScale, entry.hi * TerrainHeightScale)
  }

  /** As written, the box's top lies below the terrain of every node that is
      not flat at height 0: some texel of the node is higher than the box. */
  lemma StaticHeightsAsWrittenMissTerrain(img: Image, x: int, y: int, w: int)
    returns (px: int, py: int)
    requires Scannable(img) && WellFormed(img) && img.width == img.height == TerrainPlaneWidth
    requires Placed(img, x, y, w) && NodeEntry(img, x, y, w).hi > 0.0
    ensures x * TileSize <= px < (x + w) * TileSize && y * TileSize <= py < (y + w) * TileSize
    ensures HeightAt(img, px as real, py as real).Some?
    ensures HeightAt(img, px as real, py as real).value > StaticHeightsAsWritten(NodeEntry(img, x, y, w)).hi
  {
    var tx, ty, xx, yy := NodeAttained(img, x, y, w, High);
    SampleIsHeightAt(img, tx, ty, xx, yy);
    px, py := TexelX(tx, xx), TexelX(ty, yy);
  }

  /** The y extent of the static box with the heights scaled once: the entry. */
  function StaticHeights(entry: MinMax): MinMax
  {
    entry
  }

  /** Scaled once, the box holds the terrain of the node from its lowest to
      its highest texel, and no more. */
  lemma StaticHeightsHoldTerrain(img: Image, x: int, y: int, w: int)
    requires Scannable(img) && WellFormed(img) && img.width == img.height == TerrainPlaneWidth
    requires Placed(img, x, y, w)
    ensures forall tx, ty, xx, yy | InTile(img, tx, ty) && InNode(x, y, w, tx, ty) && InTexel(xx, yy) ::
      && HeightAt(img, TexelX(tx, xx) as real, TexelX(ty, yy) as real).Some?
      && StaticHeights(NodeEntry(img, x, y, w)).lo
         <= HeightAt(img, TexelX(tx, xx) as real, TexelX(ty, yy) as real).value
         <= StaticHeights(NodeEntry(img, x, y, w)).hi
    ensures exists tx, ty, xx, yy ::
      (InTile(img, tx, ty) && InNode(x, y, w, tx, ty) && InTexel(xx, yy) &&
       HeightAt(img, TexelX(tx, xx) as real, TexelX(ty, yy) as real) == Some(StaticHeights(NodeEntry(img, x, y, w)).hi))
  {
    forall tx, ty, xx, yy | InTile(img, tx, ty) && InNode(x, y, w, tx, ty) && InTexel(xx, yy) {
      StaticHeightsHoldTexel(img, x, y, w, tx, ty, xx, yy);
    }
    var tx, ty, xx, yy := NodeAttained(img, x, y, w, High);
    SampleIsHeightAt(img, tx, ty, xx, yy);
  }

  lemma StaticHeightsHoldTexel(img: Image, x: int, y: int, w: int, tx: int, ty: int, xx: int, yy: int)
    requires Scannable(img) && WellFormed(img) && img.width == img.height == TerrainPlaneWidth
    requires Placed(img, x, y, w) && InTile(img, tx, ty) && InNode(x, y, w, tx, ty) && InTexel(xx, yy)
    ensures HeightAt(img, TexelX(tx, xx) as real, TexelX(ty, yy) as real).Some?
    ensures StaticHeights(NodeEntry(img, x, y, w)).lo
      <= HeightAt(img, TexelX(tx, xx) as real, TexelX(ty, yy) as real).value
      <= StaticHeights(NodeEntry(img, x, y, w)).hi
  {
    SampleIsHeightAt(img, tx, ty, xx, yy);
    NodeEnvelope(img, x, y, w, tx, ty, xx, yy);
  }

  /** Level l of the pyramid is one merge step above level l - 1. */
  lemma MergeLevelIsUp(base: Level, k: nat, l: nat)
    requires SquareOf(base, Pow2(k)) && AllSane(base) && 0 < l <= k
    ensures Pow2(k - (l - 1)) == 2 * Pow2(k - l)
    ensures MergeLevel(Up(base, k, l - 1)) == Up(base, k, l)
  {
    Pow2Step(k - l);
    var prev := Up(base, k, l - 1);
    var n := Pow2(k - l);
    var merged, cur := MergeLevel(prev), Up(base, k, l);
    forall y | 0 <= y < n
      ensures merged[y] == cur[y]
    {
      forall x | 0 <= x < n
        ensures merged[y][x] == cur[y][x]
      {
        assert Block(prev, x, y) == Kids(base, k, l, x, y);
      }
    }
  }

  /** Level 0 of the pyramid is the base itself. */
  lemma UpZero(base: Level, k: nat)
    requires SquareOf(base, Pow2(k)) && AllSane(base)
    ensures Up(base, k, 0) == base
  {
    var r := Up(base, k, 0);
    forall y | 0 <= y < Pow2(k)
      ensures r[y] == base[y]
    {
    }
  }

  /** The two inner loops of the level-0 pass: the scan of one tile. */
  method ScanTile(img: Image, tx: int, ty: int) returns (mm: MinMax)
    requires Scannable(img) && InTile(img, tx, ty)
    ensures mm == TileEntry(img, tx, ty)
  {
    var vmin, vmax := Empty.lo, Empty.hi;
    var yy := 0;
    while yy < TileSize
      invariant 0 <= yy <= TileSize
      invariant MinMax(vmin, vmax) == TileScan(img, tx, ty, yy)
    {
      var xx := 0;
      while xx < TileSize
        invariant 0 <= xx <= TileSize
        invariant MinMax(vmin, vmax) == RowScan(img, tx, ty, yy, xx, TileScan(img, tx, ty, yy))
      {
        var height := Sample(img, tx, ty, xx, yy);
        vmin := Min(vmin, height);
        vmax := Max(vmax, height);
        xx := xx + 1;
      }
      yy := yy + 1;
    }
    mm := MinMax(vmin, vmax);
  }

  /** The level-0 pass: one scanned entry per tile, row by row. */
  method BuildLevel0(img: Image) returns (level: Level)
    requires Scannable(img)
    ensures level == Level0(img)
  {
    var tilesCount := TileCount(img);
    level := [];
    var y := 0;
    while y < tilesCount
      invariant 0 <= y <= tilesCount && |level| == y
      invariant forall j | 0 <= j < y :: level[j] == Level0(img)[j]
    {
      var row: seq<MinMax> := [];
      var x := 0;
      while x < tilesCount
        invariant 0 <= x <= tilesCount && |row| == x
        invariant forall i | 0 <= i < x :: row[i] == TileEntry(img, i, y)
      {
        var mm := ScanTile(img, x, y);
        row := row + [mm];
        x := x + 1;
      }
      level := level + [row];
      y := y + 1;
    }
  }

  /** The two inner loops of a merge pass: the merge of one 2 x 2 block. */
  method MergeTile(prev: Level, x: int, y: int) returns (mm: MinMax)
    requires SquareOf(prev, |prev|) && 0 <= x && 0 <= y && 2 * x + 1 < |prev| && 2 * y + 1 < |prev|
    ensures mm == MergeEntry(prev, x, y)
  {
    ghost var cs := Block(prev, x, y);
    var vmin, vmax := Empty.lo, Empty.hi;
    var yy := 0;
    while yy < 2
      invariant 0 <= yy <= 2
      invariant MinMax(vmin, vmax) == JoinAll(cs[..2 * yy])
    {
      var ybase := y * 2 + yy;
      var xx := 0;
      while xx < 2
        invariant 0 <= xx <= 2
        invariant MinMax(vmin, vmax) == JoinAll(cs[..2 * yy + xx])
      {
        var minmax := prev[ybase][x * 2 + xx];
        assert cs[..2 * yy + xx + 1][..2 * yy + xx] == cs[..2 * yy + xx];
        vmin := Min(vmin, minmax.lo);
        vmax := Max(vmax, minmax.hi);
        xx := xx + 1;
      }
      yy := yy + 1;
    }
    assert cs[..4] == cs;
    mm := MinMax(vmin, vmax);
  }

  /** One merge pass: level l from level l - 1. */
  method MergeLevelUp(prev: Level) returns (level: Level)
    requires SquareOf(prev, |prev|) && |prev| % 2 == 0
    ensures level == MergeLevel(prev)
  {
    var tilesCount := |prev| / 2;
    level := [];
    var y := 0;
    while y < tilesCount
      invariant 0 <= y <= tilesCount && |level| == y
      invariant forall j | 0 <= j < y :: level[j] == MergeLevel(prev)[j]
    {
      var row: seq<MinMax> := [];
      var x := 0;
      while x < tilesCount
        invariant 0 <= x <= tilesCount && |row| == x
        invariant forall i | 0 <= i < x :: row[i] == MergeEntry(prev, i, y)
      {
        var mm := MergeTile(prev, x, y);
        row := row + [mm];
        x := x + 1;
      }
      level := level + [row];
      y := y + 1;
    }
  }

  /** The whole of one compute_bounding_boxes call after a cache miss:
      level 0, then "merge upwards" while tiles_count halves. */
  method ComputePyramid(img: Image) returns (bbs: Pyramid)
    requires Scannable(img)
    ensures bbs == PyramidOf(img)
  {
    var k := TopLevel(img);
    TileCountIsPow2(img);
    var levelCount := k + 1;
    var base := BuildLevel0(img);
    UpZero(base, k);
    bbs := [base];
    var tilesCount := TileCount(img);
    var l := 1;
    while l < levelCount
      invariant 1 <= l <= levelCount && |bbs| == l
      invariant tilesCount == Pow2(k - (l - 1))
      invariant forall i | 0 <= i < l :: bbs[i] == LevelAt(img, i)
    {
      MergeLevelIsUp(base, k, l);
      tilesCount := tilesCount / 2;
      var level := MergeLevelUp(bbs[l - 1]);
      bbs := bbs + [level];
      l := l + 1;
    }
  }

  /** compute_bounding_boxes with its memo: one pyramid per heightmap index,
      computed on the first request and returned from the memo afterwards. */
  class BoundingBoxCache {
    /** The heightmaps app.GetHeightMap returns, by heightmap index. */
    const heightMaps: seq<Image>
    /** The memo, keyed by heightmap index. */
    var boxes: map<int, Pyramid>

    ghost predicate Valid()
      reads this
    {
      |heightMaps| >= 2 && (forall i | 0 <= i < |heightMaps| :: Scannable(heightMaps[i])) &&
      forall key | key in boxes :: 0 <= key < |heightMaps| && boxes[key] == PyramidOf(heightMaps[key])
    }

    constructor(heightMaps: seq<Image>)
      requires |heightMaps| >= 2 && forall i | 0 <= i < |heightMaps| :: Scannable(heightMaps[i])
      ensures this.heightMaps == heightMaps && boxes == map[] && Valid()
    {
      this.heightMaps := heightMaps;
      boxes := map[];
    }

    /** The pyramid of the heightmap that cube face `cubeFaceIdx` uses. A miss
        computes and stores it; a hit returns the stored one unchanged. */
    method ComputeBoundingBoxes(cubeFaceIdx: int) returns (bbs: Pyramid)
      requires Valid()
      modifies this
      ensures Valid()
      ensures bbs == PyramidOf(heightMaps[CubeFaceIdxToHeightmapIdx(cubeFaceIdx)])
      ensures boxes == old(boxes)[CubeFaceIdxToHeightmapIdx(cubeFaceIdx) := bbs]
      ensures CubeFaceIdxToHeightmapIdx(cubeFaceIdx) in old(boxes) ==> boxes == old(boxes)
    {
      var key := CubeFaceIdxToHeightmapIdx(cubeFaceIdx);
      if key in boxes {
        return boxes[key];
      }
      bbs := ComputePyramid(heightMaps[key]);
      boxes := boxes[key := bbs];
    }
  }
}
