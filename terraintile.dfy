/** The leaf that draws one terrain tile (src/terraintile.js). The material,
    mesh and scene-graph calls are foreign; the model keeps the values the
    tile hands to them. */
module TerrainTile {
  import opened Constants
  import opened Util

  class TerrainTile {
    /// Placement, fixed at construction (`x | 0`, `y | 0`, widths default to 1).
    const x: int
    const y: int
    const w: int
    const h: int
    const isBack: bool
    /// The "terrain_uv_offset_scale" material constant [xs, ys, ws, hs].
    const uvOffsetScale: seq<int>
    /// The "uv_scale" material constant.
    const uvScale: int
    /// The "sq_base_height" material constant: the square of tile_y_mean.
    const sqBaseHeight: int
    /// The node's translation (xs, 0, ys) and scale (w, TerrainHeightScale, h).
    const translation: seq<int>
    const scale: seq<real>

    /// The LOD bracket of the tile; -1 until SetLODRange is called.
    var lodMin: int
    var lodMax: int
    /// The "lod_range" material constant; empty until SetLODRange is called.
    var lodRange: seq<int>
    /// The scene-graph enabled flag.
    var enabled: bool

    /** init(x, y, w, h, is_back, tile_y_mean, climate). An undefined width
        or height is None; `climate` only selects a material and is left out. */
    constructor (x: real, y: real, w: Option<int>, h: Option<int>, isBack: bool, tileYMean: int)
      ensures this.x == TruncToInt32(x) && this.y == TruncToInt32(y)
      ensures this.w == (if w.Some? then w.value else 1)
      ensures this.h == (if h.Some? then h.value else 1)
      ensures this.isBack == isBack
      ensures lodMin == -1 && lodMax == -1 && lodRange == []
      ensures enabled
      ensures uvOffsetScale == [this.x * TileSize, this.y * TileSize, this.w * TileSize, this.h * TileSize]
      ensures uvScale == this.w
      ensures sqBaseHeight == tileYMean * tileYMean
      ensures translation == [this.x * TileSize, 0, this.y * TileSize]
      ensures scale == [this.w as real, TerrainHeightScale, this.h as real]
    {
      var tx, ty := TruncToInt32(x), TruncToInt32(y);
      var tw := if w.Some? then w.value else 1;
      var th := if h.Some? then h.value else 1;
      this.x, this.y, this.w, this.h := tx, ty, tw, th;
      this.isBack := isBack;
      var xs, ys, ws, hs := tx * TileSize, ty * TileSize, tw * TileSize, th * TileSize;
      uvOffsetScale := [xs, ys, ws, hs];
      uvScale := tw;
      sqBaseHeight := tileYMean * tileYMean;
      translation := [xs, 0, ys];
      scale := [tw as real, TerrainHeightScale, th as real];
      lodMin, lodMax := -1, -1;
      lodRange := [];
      enabled := true;
    }

    /** SetLODRange stores the bracket and publishes [a, b, 1 << a, 1 << b]. */
    method SetLODRange(a: int, b: int)
      modifies this
      ensures lodMin == a && lodMax == b
      ensures lodRange == [a, b, ShiftLeftOne(a), ShiftLeftOne(b)]
      ensures 0 <= a < 31 && 0 <= b < 31 ==> lodRange == [a, b, Pow2(a), Pow2(b)]
      ensures enabled == old(enabled)
    {
      lodMin := a;
      lodMax := b;
      lodRange := [a, b, ShiftLeftOne(a), ShiftLeftOne(b)];
    }

    /** mesh._ComputeLODLevel: Math.max(0, Math.floor(lod_min - log2(w))).
        For an integer w >= 1 the floor is lod_min - CeilLog2(w). */
    function ComputeLODLevel(): (lod: int)
      reads this
      requires w >= 1
      ensures lod >= 0
      ensures lodMin >= CeilLog2(w) ==> lod == lodMin - CeilLog2(w)
      ensures lodMin <= CeilLog2(w) ==> lod == 0
    {
      var raw := lodMin - CeilLog2(w);
      if raw < 0 then 0 else raw
    }
  }

  /** The invariant the source leaves commented out (`lod >= 0` before the
      clamp) holds whenever the tile's width is a power of two and its LOD
      bracket starts at or above log2(w), which is what the quadtree keeps. */
  lemma UnclampedLodNonNegative(tile: TerrainTile)
    requires IsPow2(tile.w) && tile.lodMin >= Log2(tile.w)
    ensures tile.lodMin - CeilLog2(tile.w) >= 0
    ensures tile.ComputeLODLevel() == tile.lodMin - Log2(tile.w)
  {
    CeilLog2OfPow2(tile.w);
  }
}
