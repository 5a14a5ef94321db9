/** The adaptive quadtree node of one cube face (TerrainQuadTreeNode,
    src/terrainquadtree.js:107-594): the visibility classification, the
    subdivide-or-collapse decision of Render, and the lazily built children
    and draw tile whose enabled flags Render flips.

    The sphere geometry that feeds the decision (world-space corners, the
    camera-in-box test, the corner/edge CLOD samples) is supplied as inputs. */
module QuadTree {
  import opened Constants
  import opened Util
  import opened Heightmap
  import opened BoundingBoxes
  import TerrainTile

  /** medea.VISIBLE_ALL, medea.VISIBLE_PARTIAL, medea.VISIBLE_NONE. */
  datatype Visibility = VisibleAll | VisiblePartial | VisibleNone

  /** What _DetermineVisibilityStatus measures at one corner: the dot product
      of the corner normal with the camera direction, the closest-point
      parameter of the origin on the segment camera -> upper corner (None for
      find_closest_point's null), and the length of the point at that
      parameter. */
  datatype CornerProbe = CornerProbe(dot: real, u: Option<real>, closestLength: real)

  /** A corner counts as negative when it faces away by more than 45 degrees,
      or when the sphere hides it: the closest point lies strictly inside the
      segment (0.01 < u < 0.99) and not outside the radius. */
  predicate CornerFails(p: CornerProbe)
  {
    p.dot < 0.52 || (p.u.Some? && 0.01 < p.u.value < 0.99 && p.closestLength <= Radius as real)
  }

  /** The number of negative corners among the first `n` probes. */
  function CountFails(probes: seq<CornerProbe>, n: nat): (c: nat)
    requires n <= |probes|
    ensures c <= n
  {
    if n == 0 then 0 else CountFails(probes, n - 1) + (if CornerFails(probes[n - 1]) then 1 else 0)
  }

  /** No corner negative iff the count is 0; every corner negative iff the
      count is n. */
  lemma {:induction false} CountFailsExtremes(probes: seq<CornerProbe>, n: nat)
    requires n <= |probes|
    ensures CountFails(probes, n) == 0 <==> forall i | 0 <= i < n :: !CornerFails(probes[i])
    ensures CountFails(probes, n) == n <==> forall i | 0 <= i < n :: CornerFails(probes[i])
  {
    if n > 0 {
      CountFailsExtremes(probes, n - 1);
    }
  }

  /** The classification at the end of _DetermineVisibilityStatus. */
  function Classify(countNegative: int): (v: Visibility)
    ensures v == VisibleAll <==> countNegative == 0
    ensures v == VisibleNone <==> countNegative == 4
    ensures v == VisiblePartial <==> countNegative != 0 && countNegative != 4
  {
    if countNegative == 0 then VisibleAll
    else if countNegative == 4 then VisibleNone
    else VisiblePartial
  }

  /** _DetermineVisibilityStatus: count the negative corners, then classify.
      All corners visible gives VISIBLE_ALL, none visible VISIBLE_NONE. */
  method DetermineVisibilityStatus(probes: seq<CornerProbe>) returns (v: Visibility)
    requires |probes| == 4
    ensures v == Classify(CountFails(probes, 4))
    ensures v == VisibleAll <==> forall i | 0 <= i < 4 :: !CornerFails(probes[i])
    ensures v == VisibleNone <==> forall i | 0 <= i < 4 :: CornerFails(probes[i])
  {
    var countNegative := 0;
    var i := 0;
    while i < 4
      invariant 0 <= i <= 4 && countNegative == CountFails(probes, i)
    {
      var p := probes[i];
      if p.dot < 0.52 {
        countNegative := countNegative + 1;
      } else if p.u.None? || p.u.value <= 0.01 || p.u.value >= 0.99 {
      } else if p.closestLength > Radius as real {
      } else {
        countNegative := countNegative + 1;
      }
      i := i + 1;
    }
    CountFailsExtremes(probes, 4);
    v := Classify(countNegative);
  }

  /** What Render does with a node. */
  datatype Decision = Hidden | Subdivided | SingleTile(lod: int)

  /** The largest CLOD calc_clod returns. */
  const MaxClod: int := CountLodLevels - 1

  /** PVS_THRESHOLD_LOD: 3 close to the ground, 5 otherwise. */
  function PvsThresholdLod(nearGround: bool): int
  {
    if nearGround then 3 else 5
  }

  /** The sphere status after the parent's culling result: ALL under a
      PARTIAL parent is downgraded to PARTIAL. */
  function Downgrade(status: Visibility, parentVis: Visibility): (v: Visibility)
    ensures v == VisiblePartial <==> status == VisiblePartial || (status == VisibleAll && parentVis == VisiblePartial)
    ensures v == VisibleNone <==> status == VisibleNone
  {
    if parentVis == VisiblePartial && status == VisibleAll then VisiblePartial else status
  }

  /** The three reasons to subdivide in the CLOD bracket rule: the bracket
      starts below the node's LOD level; the node is partly hidden, at most one
      level finer than needed and at or above PVS_THRESHOLD_LOD; or the bracket
      spans more than one level and starts at 0. */
  predicate LodRule(nodeLodLevel: int, vis: Visibility, clodMin: int, clodMax: int, nearGround: bool)
  {
    var nodeLodDelta := clodMin - nodeLodLevel;
    nodeLodDelta < 0 ||
    (vis == VisiblePartial && nodeLodDelta <= 1 && nodeLodLevel >= PvsThresholdLod(nearGround)) ||
    (clodMax - clodMin > 1 && clodMin == 0)
  }

  /** The decision of Render for a node of width w, given the camera-in-box
      test, the sphere status, the parent's culling result, floor(clod_min),
      ceil(clod_max) and whether the ground is nearer than 20. */
  function Decide(w: int, camInBox: bool, status: Visibility, parentVis: Visibility,
                  clodMin: int, clodMax: int, nearGround: bool): (d: Decision)
    requires IsPow2(w)
    ensures w == 1 ==> !d.Subdivided?
    ensures d == Hidden <==> !camInBox && status == VisibleNone
    ensures camInBox ==> d == (if w != 1 then Subdivided else SingleTile(0))
    ensures d.SingleTile? && 0 <= clodMin ==> d.lod >= Log2(w)
  {
    var canSubdivide := w != 1;
    if camInBox then
      (if canSubdivide then Subdivided else SingleTile(0))
    else if status == VisibleNone then
      Hidden
    else
      Bracket(w, Downgrade(status, parentVis), clodMin, clodMax, nearGround)
  }

  /** The part of the decision after the visibility gates: the hard ceiling
      on w, then the CLOD bracket rule. */
  function Bracket(w: int, vis: Visibility, clodMin: int, clodMax: int, nearGround: bool): (d: Decision)
    requires IsPow2(w)
    ensures d != Hidden && (w == 1 ==> !d.Subdivided?)
    ensures d.SingleTile? && 0 <= clodMin ==> d.lod >= Log2(w)
  {
    var canSubdivide := w != 1;
    if canSubdivide && w > ShiftLeftOne(CountLodLevels - 1) then
      Subdivided
    else if canSubdivide && LodRule(Log2(w), vis, clodMin, clodMax, nearGround) then
      Subdivided
    else
      SingleTile(clodMin)
  }

  /** Outside the camera box and with some corner visible, a node subdivides
      exactly when it can (w != 1) and the hard ceiling w > 256 or the CLOD
      rule asks for it; otherwise it is drawn at floor(clod_min). */
  lemma DecideSubdivideIff(w: int, status: Visibility, parentVis: Visibility,
                           clodMin: int, clodMax: int, nearGround: bool)
    requires IsPow2(w) && status != VisibleNone
    ensures var d := Decide(w, false, status, parentVis, clodMin, clodMax, nearGround);
      && (d == Subdivided <==>
          w != 1 && (w > 256 || LodRule(Log2(w), Downgrade(status, parentVis), clodMin, clodMax, nearGround)))
      && (d != Subdivided ==> d == SingleTile(clodMin))
  {
    assert ShiftLeftOne(CountLodLevels - 1) == 256 by {
      assert Pow2(8) == 256;
    }
  }

  /** A collapsed node never draws coarser than its width allows: the LOD it
      draws at is at least log2(w), and the draw tile's own LOD level
      (lod_min - log2(w)) is therefore non-negative before its clamp. */
  lemma CollapsedLodCoversWidth(w: int, camInBox: bool, status: Visibility, parentVis: Visibility,
                                clodMin: int, clodMax: int, nearGround: bool)
    requires IsPow2(w) && 0 <= clodMin
    requires Decide(w, camInBox, status, parentVis, clodMin, clodMax, nearGround).SingleTile?
    ensures var lod := Decide(w, camInBox, status, parentVis, clodMin, clodMax, nearGround).lod;
      lod - CeilLog2(w) >= 0 && (lod == clodMin || (camInBox && w == 1 && lod == 0))
  {
    CeilLog2OfPow2(w);
  }

  /** The heightmaps a face's nodes read through the bounding-box memo: all
      of TILE_COUNT x TILE_COUNT tiles. */
  ghost predicate Fits(heightMaps: seq<Image>, tileCount: int)
  {
    IsPow2(tileCount) && tileCount < Two31 && |heightMaps| >= 2 &&
    forall i | 0 <= i < |heightMaps| :: Scannable(heightMaps[i]) && TileCount(heightMaps[i]) == tileCount
  }

  /** The child of quadrant i (0: x,y; 1: x+h,y; 2: x,y+h; 3: x+h,y+h) of a
      placed node is placed. */
  lemma QuadrantPlaced(img: Image, x: int, y: int, w: int, i: int)
    requires Placed(img, x, y, w) && w != 1 && 0 <= i < 4
    ensures w >= 2 && Placed(img, x + (i % 2) * (w / 2), y + (i / 2) * (w / 2), w / 2)
  {
    var h := w / 2;
    assert IsPow2(h) && w == 2 * h;
    HalfStep(x, h, i % 2);
    HalfStep(y, h, i / 2);
  }

  lemma HalfStep(x: int, h: int, d: int)
    requires 0 <= x && 0 < h && x % (2 * h) == 0 && 0 <= d <= 1
    ensures (x + d * h) % h == 0
  {
    var q := x / (2 * h);
    assert x == q * (2 * h);
    assert x + d * h == (2 * q + d) * h;
    MultipleOf(x + d * h, 2 * q + d, h);
  }

  /** The bilinear height of a node at (x, y) (GetHeightAt): every level of
      the tree answers from the face's whole heightmap. */
  function NodeHeightAt(heightMaps: seq<Image>, cubeFaceIdx: int, x: real, y: real): Option<real>
    requires |heightMaps| >= 2
  {
    HeightAt(heightMaps[CubeFaceIdxToHeightmapIdx(cubeFaceIdx)], x, y)
  }

  /** The lod_range constant SetLODRange publishes for the bracket
      [lod, lod + 1]. */
  function LodRange(lod: int): (r: seq<int>)
    ensures 0 <= lod < 30 ==> r == [lod, lod + 1, Pow2(lod), Pow2(lod + 1)]
  {
    [lod, lod + 1, ShiftLeftOne(lod), ShiftLeftOne(lod + 1)]
  }

  /** The draw tile still has the LOD bracket and lod_range it had. */
  ghost predicate LodKept(tile: TerrainTile.TerrainTile, lodMin: int, lodMax: int, lodRange: seq<int>)
    reads tile
  {
    tile.lodMin == lodMin && tile.lodMax == lodMax && tile.lodRange == lodRange
  }

  class Node {
    /// Placement in tiles of the face, and the face.
    const x: int
    const y: int
    const w: int
    const isBack: bool
    const cubeFaceIdx: int
    /// TILE_COUNT: the width of a face in tiles.
    const tileCount: int
    /// log2(w): the LOD level of drawing the node as a single tile.
    const nodeLodLevel: int
    /// The y extent of the static bounding box, from the pyramid entry.
    const staticHeights: MinMax
    /// A face root (w == TILE_COUNT) also carries a water and a tree tile.
    const hasDecorations: bool

    /// The enabled flag of the water and tree tiles, which always move together.
    var decorationsEnabled: bool
    /// sub_quads: empty for null, else the four children in quadrant order.
    var subQuads: seq<Node>
    var drawTile: TerrainTile.TerrainTile?
    /// The node's own enabled flag, which its parent flips.
    var enabled: bool

    /** Child i sits in quadrant i of this node and shares its face. */
    predicate IsQuadrant(i: int, q: Node)
      requires 0 <= i < 4
    {
      q.x == x + (i % 2) * (w / 2) && q.y == y + (i / 2) * (w / 2) && q.w == w / 2 &&
      q.isBack == isBack && q.cubeFaceIdx == cubeFaceIdx && q.tileCount == tileCount
    }

    /** The node's fixed placement: a power-of-two width inside the face. */
    predicate Placement()
    {
      IsPow2(w) && nodeLodLevel == Log2(w) && hasDecorations == (w == tileCount) &&
      0 <= x && 0 <= y && x + w <= tileCount && y + w <= tileCount && tileCount < Two31
    }

    ghost predicate Valid()
      reads this`subQuads, this`drawTile
    {
      Placement() &&
      (|subQuads| == 0 ||
        (|subQuads| == 4 && w >= 2 && this !in subQuads &&
         forall i | 0 <= i < 4 :: IsQuadrant(i, subQuads[i]))) &&
      (drawTile != null ==>
        drawTile.x == x && drawTile.y == y && drawTile.w == w && drawTile.h == w && drawTile.isBack == isBack)
    }

    /** Every child and the draw tile have enabled flag `flag`, and so have
        the water and tree tiles of a face root. */
    ghost predicate ChildrenAre(flag: bool)
      reads this, subQuads, drawTile
    {
      (hasDecorations ==> decorationsEnabled == flag) &&
      (forall i | 0 <= i < |subQuads| :: subQuads[i].enabled == flag) &&
      (drawTile != null ==> drawTile.enabled == flag)
    }

    /** init(x, y, w, is_back, cube_face_idx): no children and no draw tile
        yet, and the static box from the memoised pyramid of the face's
        heightmap at [log2(w)][y / w][x / w]. */
    constructor (x: int, y: int, w: int, isBack: bool, cubeFaceIdx: int, tileCount: int, cache: BoundingBoxCache)
      requires cache.Valid() && Fits(cache.heightMaps, tileCount)
      requires Placed(cache.heightMaps[CubeFaceIdxToHeightmapIdx(cubeFaceIdx)], x, y, w)
      modifies cache
      ensures Valid() && fresh(this)
      ensures this.x == x && this.y == y && this.w == w && this.isBack == isBack
      ensures this.cubeFaceIdx == cubeFaceIdx && this.tileCount == tileCount && nodeLodLevel == Log2(w)
      ensures subQuads == [] && drawTile == null && enabled
      ensures hasDecorations == (w == tileCount) && decorationsEnabled
      ensures staticHeights == StaticHeights(NodeEntry(cache.heightMaps[CubeFaceIdxToHeightmapIdx(cubeFaceIdx)], x, y, w))
      ensures cache.Valid()
      ensures cache.boxes == old(cache.boxes)[CubeFaceIdxToHeightmapIdx(cubeFaceIdx) :=
        PyramidOf(cache.heightMaps[CubeFaceIdxToHeightmapIdx(cubeFaceIdx)])]
    {
      this.x, this.y, this.w := x, y, w;
      this.isBack, this.cubeFaceIdx, this.tileCount := isBack, cubeFaceIdx, tileCount;
      hasDecorations := w == tileCount;
      decorationsEnabled := true;
      var lodLevel := Log2(w);
      nodeLodLevel := lodLevel;
      var bbs := cache.ComputeBoundingBoxes(cubeFaceIdx);
      ghost var img := cache.heightMaps[CubeFaceIdxToHeightmapIdx(cubeFaceIdx)];
      PlacedIndex(img, x, w);
      PlacedIndex(img, y, w);
      var heightMinMax := bbs[lodLevel][y / w][x / w];
      staticHeights := StaticHeights(heightMinMax);
      subQuads := [];
      drawTile := null;
      enabled := true;
    }

    /** The draw tile, if there is one. */
    ghost function DrawTiles(): set<TerrainTile.TerrainTile>
      reads this`drawTile
    {
      if drawTile == null then {} else {drawTile}
    }

    /** _SetChildrenEnabled: every child of the scene node gets `flag`. */
    method SetChildrenEnabled(flag: bool)
      requires Valid()
      modifies this`decorationsEnabled, subQuads`enabled, DrawTiles()`enabled
      ensures ChildrenAre(flag)
    {
      if hasDecorations {
        decorationsEnabled := flag;
      }
      SetSubQuadsEnabled(flag);
      if drawTile != null {
        drawTile.enabled := flag;
      }
    }

    /** The loop `sub_quads[i].Enabled(flag)` over the existing children. */
    method SetSubQuadsEnabled(flag: bool)
      modifies subQuads`enabled
      ensures forall i | 0 <= i < |subQuads| :: subQuads[i].enabled == flag
    {
      var i := 0;
      while i < |subQuads|
        invariant 0 <= i <= |subQuads|
        invariant forall j | 0 <= j < i :: subQuads[j].enabled == flag
      {
        subQuads[i].enabled := flag;
        i := i + 1;
      }
    }

    /** _Subdivide: the first call creates the four half-width children,
        later calls reuse them; then the children are enabled and the draw
        tile, if any, disabled. */
    method Subdivide(cache: BoundingBoxCache)
      requires Valid() && w != 1 && cache.Valid() && Fits(cache.heightMaps, tileCount)
      requires Placed(cache.heightMaps[CubeFaceIdxToHeightmapIdx(cubeFaceIdx)], x, y, w)
      modifies this`subQuads, subQuads`enabled, DrawTiles()`enabled, cache
      ensures Valid() && cache.Valid()
      ensures |subQuads| == 4 && drawTile == old(drawTile)
      ensures old(|subQuads|) == 4 ==> subQuads == old(subQuads)
      ensures old(|subQuads|) == 0 ==> forall i | 0 <= i < 4 :: fresh(subQuads[i])
      ensures forall i | 0 <= i < 4 :: subQuads[i].enabled
      ensures drawTile != null ==> !drawTile.enabled
    {
      if |subQuads| == 0 {
        CreateSubQuads(cache);
      }
      SetSubQuadsEnabled(true);
      if drawTile != null {
        drawTile.enabled := false;
      }
    }

    /** The first _Subdivide call: sub_quads becomes the four new children. */
    method CreateSubQuads(cache: BoundingBoxCache)
      requires Valid() && |subQuads| == 0 && w != 1 && cache.Valid() && Fits(cache.heightMaps, tileCount)
      requires Placed(cache.heightMaps[CubeFaceIdxToHeightmapIdx(cubeFaceIdx)], x, y, w)
      modifies this`subQuads, cache
      ensures Valid() && cache.Valid() && |subQuads| == 4
      ensures forall i | 0 <= i < 4 :: fresh(subQuads[i]) && subQuads[i].Placement()
      ensures forall i | 0 <= i < 4 :: subQuads[i].subQuads == [] && subQuads[i].drawTile == null
    {
      var q0 := NewQuadrant(0, cache);
      var q1 := NewQuadrant(1, cache);
      var q2 := NewQuadrant(2, cache);
      var q3 := NewQuadrant(3, cache);
      subQuads := [q0, q1, q2, q3];
    }

    /** sub_quads[i] as _Subdivide constructs it: width w / 2, at
        (x, y), (x + w / 2, y), (x, y + w / 2) or (x + w / 2, y + w / 2). */
    method NewQuadrant(i: int, cache: BoundingBoxCache) returns (q: Node)
      requires Valid() && w != 1 && 0 <= i < 4 && cache.Valid() && Fits(cache.heightMaps, tileCount)
      requires Placed(cache.heightMaps[CubeFaceIdxToHeightmapIdx(cubeFaceIdx)], x, y, w)
      modifies cache
      ensures fresh(q) && IsQuadrant(i, q) && q.Placement() && cache.Valid()
      ensures q.subQuads == [] && q.drawTile == null && q.enabled
    {
      QuadrantPlaced(cache.heightMaps[CubeFaceIdxToHeightmapIdx(cubeFaceIdx)], x, y, w, i);
      var h := w / 2;
      q := new Node(x + (i % 2) * h, y + (i / 2) * h, h, isBack, cubeFaceIdx, tileCount, cache);
    }

    /** _RenderAsSingleTile: the draw tile is created at most once (with
        cube_face_idx in its tile_y_mean slot, as the call passes it), gets the
        LOD range [floor(c), floor(c) + 1] and is enabled; the children that
        exist are disabled and kept. */
    method RenderAsSingleTile(clodMin: real)
      requires Valid()
      modifies this`drawTile, drawTile, subQuads`enabled
      ensures Valid() && subQuads == old(subQuads)
      ensures drawTile != null && (old(drawTile) != null ==> drawTile == old(drawTile))
      ensures old(drawTile) == null ==> fresh(drawTile) && drawTile.sqBaseHeight == cubeFaceIdx * cubeFaceIdx
      ensures drawTile.enabled && drawTile.lodMin == clodMin.Floor && drawTile.lodMax == clodMin.Floor + 1
      ensures drawTile.lodRange == LodRange(clodMin.Floor)
      ensures forall i | 0 <= i < |subQuads| :: !subQuads[i].enabled
    {
      if drawTile == null {
        drawTile := new TerrainTile.TerrainTile(x as real, y as real, Some(w), Some(w), isBack, cubeFaceIdx);
      }
      var clodAdjusted := clodMin.Floor;
      drawTile.SetLODRange(clodAdjusted, clodAdjusted + 1);
      drawTile.enabled := true;
      SetSubQuadsEnabled(false);
    }

    /** The state Render leaves for decision `d`. */
    ghost predicate Shows(d: Decision, camInBox: bool)
      reads this, subQuads, drawTile
    {
      match d
      case Hidden => ChildrenAre(false)
      case Subdivided =>
        |subQuads| == 4 && (forall i | 0 <= i < 4 :: subQuads[i].enabled) &&
        (drawTile != null ==> !drawTile.enabled) && (hasDecorations ==> decorationsEnabled)
      case SingleTile(lod) =>
        drawTile != null && drawTile.enabled && drawTile.lodMin == lod && drawTile.lodMax == lod + 1 &&
        drawTile.lodRange == LodRange(lod) &&
        (forall i | 0 <= i < |subQuads| :: !subQuads[i].enabled) &&
        (hasDecorations ==> decorationsEnabled == !camInBox)
    }

    /** Render: decide between subdividing and drawing as one tile, and
        leave the children and the draw tile as the decision needs them.
        Hiding creates nothing; subdividing keeps the draw tile; drawing as
        one tile keeps the children. */
    method Render(camInBox: bool, probes: seq<CornerProbe>, vis: Visibility,
                  clodMin: real, clodMax: real, nearGround: bool, cache: BoundingBoxCache)
      returns (ghost d: Decision)
      requires Valid() && |probes| == 4
      requires 0.0 <= clodMin <= MaxClod as real && 0.0 <= clodMax <= MaxClod as real
      requires cache.Valid() && Fits(cache.heightMaps, tileCount)
      requires Placed(cache.heightMaps[CubeFaceIdxToHeightmapIdx(cubeFaceIdx)], x, y, w)
      modifies this`subQuads, this`drawTile, this`decorationsEnabled, subQuads`enabled, drawTile, cache
      ensures Valid() && cache.Valid()
      ensures d == Decide(w, camInBox, Classify(CountFails(probes, 4)), vis, clodMin.Floor, Ceil(clodMax), nearGround)
      ensures Shows(d, camInBox)
      ensures d.SingleTile? ==> drawTile.ComputeLODLevel() == drawTile.lodMin - nodeLodLevel
      ensures d != Subdivided ==> subQuads == old(subQuads)
      ensures d == Hidden || old(|subQuads|) == 4 ==> subQuads == old(subQuads)
      ensures d == Hidden || d == Subdivided || old(drawTile) != null ==> drawTile == old(drawTile)
      ensures !d.SingleTile? && old(drawTile) != null ==> LodKept(old(drawTile), old(drawTile.lodMin), old(drawTile.lodMax), old(drawTile.lodRange))
    {
      if camInBox {
        d := RenderInBox(cache);
        return;
      }
      var visibilityStatus := DetermineVisibilityStatus(probes);
      ghost var status := visibilityStatus;
      if visibilityStatus == VisibleNone {
        SetChildrenEnabled(false);
        d := Hidden;
        return;
      } else if vis == VisiblePartial && visibilityStatus == VisibleAll {
        visibilityStatus := VisiblePartial;
      }
      assert visibilityStatus == Downgrade(status, vis);
      d := RenderVisible(visibilityStatus, clodMin, clodMax, nearGround, cache);
    }

    /** A visible node outside the camera's box: its children are enabled,
        then the bracket rule decides. */
    method RenderVisible(visibilityStatus: Visibility, clodMin: real, clodMax: real, nearGround: bool,
                         cache: BoundingBoxCache)
      returns (ghost d: Decision)
      requires Valid() && 0.0 <= clodMin
      requires cache.Valid() && Fits(cache.heightMaps, tileCount)
      requires Placed(cache.heightMaps[CubeFaceIdxToHeightmapIdx(cubeFaceIdx)], x, y, w)
      modifies this`subQuads, this`drawTile, this`decorationsEnabled, subQuads`enabled, drawTile, cache
      ensures Valid() && cache.Valid()
      ensures d == Bracket(w, visibilityStatus, clodMin.Floor, Ceil(clodMax), nearGround)
      ensures Shows(d, false)
      ensures d.SingleTile? ==> drawTile.ComputeLODLevel() == drawTile.lodMin - nodeLodLevel
      ensures d.SingleTile? || old(|subQuads|) == 4 ==> subQuads == old(subQuads)
      ensures d == Subdivided || old(drawTile) != null ==> drawTile == old(drawTile)
      ensures !d.SingleTile? && old(drawTile) != null ==> LodKept(old(drawTile), old(drawTile.lodMin), old(drawTile.lodMax), old(drawTile.lodRange))
    {
      SetChildrenEnabled(true);
      d := RenderBracket(visibilityStatus, clodMin, clodMax, nearGround, cache);
    }

    /** The first branch of Render: with the camera inside the node's box,
        the node subdivides unless it is a single tile wide, and then it
        shows its tile at LOD 0. */
    method RenderInBox(cache: BoundingBoxCache) returns (ghost d: Decision)
      requires Valid() && cache.Valid() && Fits(cache.heightMaps, tileCount)
      requires Placed(cache.heightMaps[CubeFaceIdxToHeightmapIdx(cubeFaceIdx)], x, y, w)
      modifies this`subQuads, this`drawTile, this`decorationsEnabled, subQuads`enabled, drawTile, cache
      ensures Valid() && cache.Valid()
      ensures d == (if w != 1 then Subdivided else SingleTile(0)) && Shows(d, true)
      ensures d.SingleTile? ==> drawTile.ComputeLODLevel() == drawTile.lodMin - nodeLodLevel
      ensures d != Subdivided || old(|subQuads|) == 4 ==> subQuads == old(subQuads)
      ensures d != Subdivided ==> drawTile == old(drawTile) || old(drawTile) == null
      ensures d == Subdivided ==> drawTile == old(drawTile)
      ensures !d.SingleTile? && old(drawTile) != null ==> LodKept(old(drawTile), old(drawTile.lodMin), old(drawTile.lodMax), old(drawTile.lodRange))
    {
      var canSubdivide := w != 1;
      SetChildrenEnabled(canSubdivide);
      if canSubdivide {
        d := ShowSubdivided(cache);
      } else {
        d := ShowSingleTile(0, true);
      }
    }

    /** The rest of Render once the node is visible and its children enabled:
        subdivide for the ceiling or the CLOD rule, else draw as one tile at
        floor(clod_min). */
    method RenderBracket(visibilityStatus: Visibility, clodMin: real, clodMax: real, nearGround: bool,
                         cache: BoundingBoxCache)
      returns (ghost d: Decision)
      requires Valid() && (hasDecorations ==> decorationsEnabled)
      requires 0.0 <= clodMin
      requires cache.Valid() && Fits(cache.heightMaps, tileCount)
      requires Placed(cache.heightMaps[CubeFaceIdxToHeightmapIdx(cubeFaceIdx)], x, y, w)
      modifies this`subQuads, this`drawTile, subQuads`enabled, drawTile, cache
      ensures Valid() && cache.Valid()
      ensures d == Bracket(w, visibilityStatus, clodMin.Floor, Ceil(clodMax), nearGround)
      ensures Shows(d, false)
      ensures d.SingleTile? ==> drawTile.ComputeLODLevel() == drawTile.lodMin - nodeLodLevel
      ensures d.SingleTile? || old(|subQuads|) == 4 ==> subQuads == old(subQuads)
      ensures d == Subdivided || old(drawTile) != null ==> drawTile == old(drawTile)
      ensures !d.SingleTile? && old(drawTile) != null ==> LodKept(old(drawTile), old(drawTile.lodMin), old(drawTile.lodMax), old(drawTile.lodRange))
    {
      var canSubdivide := w != 1;
      if canSubdivide && w > ShiftLeftOne(CountLodLevels - 1) {
        d := ShowSubdivided(cache);
        return;
      }
      var clodMaxCeil := Ceil(clodMax);
      var clodMinFloor := clodMin.Floor;
      var clodDelta := clodMaxCeil - clodMinFloor;
      var nodeLodDelta := clodMinFloor - nodeLodLevel;
      var canSatisfyLod := nodeLodDelta >= 0;
      var subdivide := !canSatisfyLod;
      var pvsThresholdLod := if nearGround then 3 else 5;
      subdivide := subdivide ||
        (visibilityStatus == VisiblePartial && nodeLodDelta <= 1 && nodeLodLevel >= pvsThresholdLod);
      subdivide := subdivide || (clodDelta > 1 && clodMinFloor == 0);
      assert subdivide == LodRule(Log2(w), visibilityStatus, clodMinFloor, clodMaxCeil, nearGround);
      if canSubdivide && subdivide {
        d := ShowSubdivided(cache);
      } else {
        d := ShowSingleTile(clodMinFloor, false);
      }
    }

    /** Subdivide, seen as the Subdivided outcome of Render. */
    method ShowSubdivided(cache: BoundingBoxCache) returns (ghost d: Decision)
      requires Valid() && w != 1 && cache.Valid() && Fits(cache.heightMaps, tileCount)
      requires Placed(cache.heightMaps[CubeFaceIdxToHeightmapIdx(cubeFaceIdx)], x, y, w)
      requires hasDecorations ==> decorationsEnabled
      modifies this`subQuads, subQuads`enabled, DrawTiles()`enabled, cache
      ensures Valid() && cache.Valid() && d == Subdivided && Shows(d, false) && Shows(d, true)
      ensures old(|subQuads|) == 4 ==> subQuads == old(subQuads)
      ensures drawTile == old(drawTile)
    {
      Subdivide(cache);
      d := Subdivided;
    }

    /** RenderAsSingleTile at a whole LOD, seen as the SingleTile outcome of
        Render. */
    method ShowSingleTile(lod: int, camInBox: bool) returns (ghost d: Decision)
      requires Valid() && nodeLodLevel <= lod && (hasDecorations ==> decorationsEnabled == !camInBox)
      modifies this`drawTile, drawTile, subQuads`enabled
      ensures Valid() && d == SingleTile(lod) && Shows(d, camInBox)
      ensures drawTile.ComputeLODLevel() == drawTile.lodMin - nodeLodLevel
      ensures subQuads == old(subQuads)
      ensures old(drawTile) != null ==> drawTile == old(drawTile)
    {
      RenderAsSingleTile(lod as real);
      d := SingleTile(lod);
      TerrainTile.UnclampedLodNonNegative(drawTile);
    }
  }
}
