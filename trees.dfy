/** The tree billboard buffers of a cube face (compute_tree_mesh,
    src/trees.js): a pass that counts the tree texels of the face's tree
    map, a pass that fills one position block and one uv block per tree, and
    the memo that builds each heightmap's mesh once.

    Math.random is the stream `draws`: the k-th tree in row-major order
    takes draws[k]. The material, the texture and the GPU mesh are not
    modelled; a mesh is its two vertex channels. */
module Trees {
  import opened Constants
  import opened Util
  import opened Heightmap

  /// Height of a tree billboard: TREE_WIDTH * TREE_ASPECT.
  const TreeHeight: real := TreeWidth * TreeAspect
  /// Vertices per billboard: two triangles, no index buffer.
  const BillboardVertices: int := 6

  // ---------------------------------------------------------------------
  // The tree texels
  // ---------------------------------------------------------------------

  /** Texel t (row-major, x = t % w, y = t / w) holds a tree when the first
      channel at byte 4t is 0; a read past the data is undefined in
      JavaScript and never equals 0. */
  predicate IsTreeTexel(img: Image, t: int)
  {
    ByteAt(img, 4 * t) == Some(0)
  }

  /** The tree texels below linear index n, in increasing order. */
  function TreeTexels(img: Image, n: int): seq<int>
    decreases n
  {
    if n <= 0 then []
    else TreeTexels(img, n - 1) + (if IsTreeTexel(img, n - 1) then [n - 1] else [])
  }

  /** The texels of the first y rows of a w-wide map, y * w, summed row by
      row: the scans below advance a row at a time, and the sum keeps their
      reasoning additive. RowsTexelsProduct equates it with the product. */
  function RowsTexels(y: int, w: int): int
    decreases y
  {
    if y <= 0 then 0 else RowsTexels(y - 1, w) + w
  }

  /** The number of texels of a map: width * height. */
  function TexelCount(img: Image): int
  {
    RowsTexels(img.height, img.width)
  }

  /** The number of trees of a tree map: tree_count. */
  function TreeCount(img: Image): nat
  {
    |TreeTexels(img, TexelCount(img))|
  }

  /** TreeTexels lists the tree texels below n and nothing else, each once,
      in increasing (row-major) order. */
  lemma {:induction false} TreeTexelsExact(img: Image, n: int)
    ensures forall i, j | 0 <= i < j < |TreeTexels(img, n)| :: TreeTexels(img, n)[i] < TreeTexels(img, n)[j]
    ensures forall t | t in TreeTexels(img, n) :: 0 <= t < n && IsTreeTexel(img, t)
    ensures forall t | 0 <= t < n :: IsTreeTexel(img, t) ==> t in TreeTexels(img, n)
    decreases n
  {
    if n > 0 {
      var before := TreeTexels(img, n - 1);
      TreeTexelsExact(img, n - 1);
      assert forall t | t in before :: t < n - 1;
      if IsTreeTexel(img, n - 1) {
        assert TreeTexels(img, n) == before + [n - 1];
        forall i, j | 0 <= i < j < |before| + 1
          ensures TreeTexels(img, n)[i] < TreeTexels(img, n)[j]
        {
          if j == |before| {
            assert before[i] in before;
          }
        }
      }
    }
  }

  /** More texels never mean fewer trees. */
  lemma {:induction false} TreeTexelsGrow(img: Image, n: int, m: int)
    requires n <= m
    ensures |TreeTexels(img, n)| <= |TreeTexels(img, m)|
    ensures TreeTexels(img, n) == TreeTexels(img, m)[..|TreeTexels(img, n)|]
    decreases m - n
  {
    if n < m {
      TreeTexelsGrow(img, n, m - 1);
      if m - 1 > 0 {
        assert TreeTexels(img, m)[..|TreeTexels(img, m - 1)|] == TreeTexels(img, m - 1);
      }
    }
  }

  /** Row-major addressing: texel (x, y) of a w-wide map is y * w + x. */
  lemma TexelAt(x: int, y: int, w: int, t: int)
    requires 0 <= x < w && 0 <= y && t == y * w + x
    ensures t % w == x && t / w == y
  {
    var q := t / w;
    var r := t % w;
    assert t == q * w + r;
    assert (q - y) * w == x - r;
    if q > y {
      MulAtLeast(q - y, w);
    } else if q < y {
      MulAtLeast(y - q, w);
    }
  }

  /** A linear index below w * h names a texel inside the map. */
  lemma TexelInMap(t: int, w: int, h: int)
    requires 0 <= w && 0 <= h && 0 <= t < w * h
    ensures 0 < w && 0 <= t % w < w && 0 <= t / w < h
  {
    if w > 0 {
      var q := t / w;
      assert t == q * w + t % w;
    }
  }

  lemma {:induction false} RowsTexelsProduct(y: int, w: int)
    requires 0 <= y
    ensures RowsTexels(y, w) == y * w
    decreases y
  {
    if y > 0 {
      RowsTexelsProduct(y - 1, w);
      assert y * w == (y - 1) * w + w;
    }
  }

  /** Later rows start further on. */
  lemma {:induction false} RowsTexelsGrow(y: int, h: int, w: int)
    requires y <= h && 0 <= w
    ensures RowsTexels(y, w) <= RowsTexels(h, w)
    decreases h - y
  {
    if y < h {
      RowsTexelsGrow(y, h - 1, w);
    }
  }

  /** A linear index below the texel count names a texel inside the map. */
  lemma TexelOf(img: Image, t: int)
    requires 0 <= t < TexelCount(img)
    ensures 0 < img.width && 0 <= t % img.width < img.width && 0 <= t / img.width < img.height
  {
    RowsTexelsProduct(img.height, img.width);
    TexelInMap(t, img.width, img.height);
  }

  /** Texel (x, y) sits at linear index RowsTexels(y, w) + x, inside the map. */
  lemma TexelIndex(img: Image, x: int, y: int, t: int)
    requires 0 <= x < img.width && 0 <= y < img.height && t == RowsTexels(y, img.width) + x
    ensures t % img.width == x && t / img.width == y && t < TexelCount(img)
  {
    RowsTexelsProduct(y, img.width);
    TexelAt(x, y, img.width, t);
    TexelIndexInMap(img, x, y, t);
  }

  lemma TexelIndexInMap(img: Image, x: int, y: int, t: int)
    requires 0 <= x < img.width && 0 <= y < img.height && t == RowsTexels(y, img.width) + x
    ensures t < TexelCount(img)
  {
    RowsTexelsGrow(y + 1, img.height, img.width);
  }

  // ---------------------------------------------------------------------
  // One tree
  // ---------------------------------------------------------------------

  /** Valid Math.random values: in [0, 1). */
  predicate Draws(draws: seq<real>)
  {
    forall k | 0 <= k < |draws| :: 0.0 <= draws[k] < 1.0
  }

  /** The spread of a tree around its spot: rand squared, then mapped to
      [0.5, 1). */
  function Spread(d: real): (rand: real)
    requires 0.0 <= d < 1.0
    ensures 0.5 <= rand < 1.0
  {
    assert d * d < 1.0 by {
      assert d * d <= d * 1.0;
    }
    d * d * 0.5 + 0.5
  }

  /** A tree's coordinate along one axis of the heightmap: its texel scaled
      to the heightmap plus size_ratio * rand. */
  function Place(i: int, rand: real): real
  {
    i as real * SizeRatio + SizeRatio * rand
  }

  /** With rand in [0.5, 1) a tree stays in the upper half of its texel's
      4 x 4 heightmap cell, so the heightmap texel under it is 4i+2 or 4i+3. */
  lemma PlaceInCell(i: int, rand: real)
    requires 0.5 <= rand < 1.0
    ensures 4.0 * i as real + 2.0 <= Place(i, rand) < 4.0 * i as real + 4.0
    ensures 4 * i + 2 <= Place(i, rand).Floor <= 4 * i + 3
  {
    assert SizeRatio == 4.0;
    var p := Place(i, rand);
    assert p == 4.0 * i as real + 4.0 * rand;
    assert 2.0 <= 4.0 * rand < 4.0;
    assert (4 * i + 2) as real <= p < (4 * i + 4) as real;
  }

  /** The heightmap is the tree map scaled by size_ratio: the terrain row
      stride w * size_ratio equals its width and its rows cover the tree
      map's. */
  predicate Covers(terrain: Image, tree: Image)
  {
    WellFormed(terrain) && terrain.width == 4 * tree.width && terrain.height >= 4 * tree.height
  }

  /** The byte of height_data a tree at (xpos, ypos) reads. */
  function TerrainIndex(treeWidth: int, xpos: real, ypos: real): int
  {
    (ypos.Floor * (treeWidth * 4) + xpos.Floor) * 4
  }

  /** A row-major index inside a W x H grid lies in [0, W * H). */
  lemma RowMajorBound(fx: int, fy: int, cols: int, rows: int)
    requires 0 <= fx < cols && 0 <= fy < rows
    ensures 0 <= fy * cols + fx < rows * cols
  {
    assert fy * cols + fx < (fy + 1) * cols;
    assert (fy + 1) * cols <= rows * cols;
  }

  lemma TerrainIndexInRange(terrain: Image, tree: Image, x: int, y: int, rand: real)
    requires Covers(terrain, tree) && 0 <= x < tree.width && 0 <= y < tree.height
    requires 0.5 <= rand < 1.0
    ensures 0 <= TerrainIndex(tree.width, Place(x, rand), Place(y, rand)) < |terrain.data|
  {
    PlaceInCell(x, rand);
    PlaceInCell(y, rand);
    var fx := Place(x, rand).Floor;
    var fy := Place(y, rand).Floor;
    RowMajorBound(fx, fy, terrain.width, terrain.height);
  }

  /** The terrain height under a tree: the byte times TERRAIN_HEIGHT_SCALE. */
  function TerrainHeight(terrain: Image, tree: Image, x: int, y: int, rand: real): (h: real)
    requires Covers(terrain, tree) && 0 <= x < tree.width && 0 <= y < tree.height
    requires 0.5 <= rand < 1.0
    ensures 0.0 <= h <= 255.0 * TerrainHeightScale
  {
    TerrainIndexInRange(terrain, tree, x, y, rand);
    terrain.data[TerrainIndex(tree.width, Place(x, rand), Place(y, rand))] as real * TerrainHeightScale
  }

  /** The lift of vertex i over the terrain: tree_height * (1 + 0.2 rand) for
      the top vertices 2, 3 and 4, none for the others. */
  function Lift(i: int, rand: real): real
  {
    (if i >= 2 && i <= 4 then TreeHeight else 0.0) * (1.0 + rand * 0.2)
  }

  /** Vertices [0, n) of a billboard, three coordinates each. */
  function VertexRun(xpos: real, height: real, ypos: real, rand: real, n: int): (r: seq<real>)
    ensures |r| == if n <= 0 then 0 else 3 * n
    decreases n
  {
    if n <= 0 then []
    else VertexRun(xpos, height, ypos, rand, n - 1) + [xpos, height + Lift(n - 1, rand), ypos]
  }

  /** The 18 position entries of the tree at texel (x, y) with draw d. */
  function TreeBlock(terrain: Image, tree: Image, x: int, y: int, d: real): seq<real>
    requires Covers(terrain, tree) && 0 <= x < tree.width && 0 <= y < tree.height
    requires 0.0 <= d < 1.0
  {
    var rand := Spread(d);
    VertexRun(Place(x, rand), TerrainHeight(terrain, tree, x, y, rand), Place(y, rand), rand, BillboardVertices)
  }

  lemma {:induction false} VertexRunAt(xpos: real, height: real, ypos: real, rand: real, n: int, i: int)
    requires 0 <= i < n
    ensures VertexRun(xpos, height, ypos, rand, n)[3 * i] == xpos
    ensures VertexRun(xpos, height, ypos, rand, n)[3 * i + 1] == height + Lift(i, rand)
    ensures VertexRun(xpos, height, ypos, rand, n)[3 * i + 2] == ypos
    decreases n
  {
    if i < n - 1 {
      VertexRunAt(xpos, height, ypos, rand, n - 1, i);
    }
  }

  /** The six vertices of a tree share x and z; the top three (2, 3, 4) are
      raised by tree_height * (1 + 0.2 rand) over the terrain height, the
      other three sit on it; x and z lie in the upper half of the texel's
      heightmap cell. */
  lemma TreeBlockShape(terrain: Image, tree: Image, x: int, y: int, d: real, i: int)
    requires Covers(terrain, tree) && 0 <= x < tree.width && 0 <= y < tree.height
    requires 0.0 <= d < 1.0 && 0 <= i < 6
    ensures var b := TreeBlock(terrain, tree, x, y, d);
      var rand := Spread(d);
      var h := TerrainHeight(terrain, tree, x, y, rand);
      |b| == 18 && 0.5 <= rand < 1.0 &&
      b[3 * i] == Place(x, rand) && b[3 * i + 2] == Place(y, rand) &&
      4.0 * x as real + 2.0 <= b[3 * i] < 4.0 * x as real + 4.0 &&
      4.0 * y as real + 2.0 <= b[3 * i + 2] < 4.0 * y as real + 4.0 &&
      (2 <= i <= 4 ==> b[3 * i + 1] == h + TreeHeight * (1.0 + rand * 0.2)) &&
      (i < 2 || i > 4 ==> b[3 * i + 1] == h)
  {
    var rand := Spread(d);
    var h := TerrainHeight(terrain, tree, x, y, rand);
    assert TreeBlock(terrain, tree, x, y, d) == VertexRun(Place(x, rand), h, Place(y, rand), rand, BillboardVertices);
    VertexRunAt(Place(x, rand), h, Place(y, rand), rand, BillboardVertices, i);
    PlaceInCell(x, rand);
    PlaceInCell(y, rand);
    if 2 <= i <= 4 {
      assert Lift(i, rand) == TreeHeight * (1.0 + rand * 0.2);
    } else {
      assert Lift(i, rand) == 0.0;
    }
  }

  /** The uv block of every tree: (0,0), (1,0), (1,1), (1,1), (0,1), (0,0). */
  const UvBlock: seq<real> := [0.0, 0.0, 1.0, 0.0, 1.0, 1.0, 1.0, 1.0, 0.0, 1.0, 0.0, 0.0]

  /** The uv channel of k trees. */
  function UvRun(k: int): (r: seq<real>)
    ensures |r| == if k <= 0 then 0 else 12 * k
    decreases k
  {
    if k <= 0 then [] else UvRun(k - 1) + UvBlock
  }

  /** Every tree's uv block is the same fixed block. */
  lemma {:induction false} UvRunBlock(k: int, j: int)
    requires 0 <= j < k
    ensures UvRun(k)[12 * j .. 12 * j + 12] == UvBlock
    decreases k
  {
    var before := UvRun(k - 1);
    if j < k - 1 {
      UvRunBlock(k - 1, j);
      assert UvRun(k)[..|before|] == before;
      assert UvRun(k)[12 * j .. 12 * j + 12] == before[12 * j .. 12 * j + 12];
    } else {
      assert UvRun(k)[12 * j ..] == UvBlock;
    }
  }

  // ---------------------------------------------------------------------
  // The position channel
  // ---------------------------------------------------------------------

  /** The run of blocks over the tree texels below n: each tree texel t in
      row-major order appends block(t, k), k the number of tree texels
      before it. */
  function Run(block: (int, int) -> seq<real>, tree: Image, n: int): seq<real>
    decreases n
  {
    if n <= 0 then []
    else
      var t := n - 1;
      if IsTreeTexel(tree, t) then Run(block, tree, t) + block(t, |TreeTexels(tree, t)|)
      else Run(block, tree, t)
  }

  /** Blocks of 18 entries make a run of 18 entries per tree texel. */
  lemma {:induction false} RunLength(block: (int, int) -> seq<real>, tree: Image, n: int)
    requires forall t, k :: |block(t, k)| == 18
    ensures |Run(block, tree, n)| == 18 * |TreeTexels(tree, n)|
    decreases n
  {
    if n > 0 {
      RunLength(block, tree, n - 1);
    }
  }

  /** Entries [18k, 18k + 18) of the run below n are the block of the k-th
      tree texel. */
  lemma {:induction false} RunBlock(block: (int, int) -> seq<real>, tree: Image, n: int, k: int)
    requires forall t, j :: |block(t, j)| == 18
    requires 0 <= k < |TreeTexels(tree, n)|
    ensures |Run(block, tree, n)| == 18 * |TreeTexels(tree, n)|
    ensures Run(block, tree, n)[18 * k .. 18 * k + 18] == block(TreeTexels(tree, n)[k], k)
    decreases n
  {
    RunLength(block, tree, n);
    var last := n - 1;
    var before := TreeTexels(tree, last);
    TreeTexelsStep(tree, last);
    RunLength(block, tree, last);
    var q := Run(block, tree, last);
    if k < |before| {
      RunBlock(block, tree, last, k);
      var b := if IsTreeTexel(tree, last) then block(last, |before|) else [];
      BlockOfPrefix(q, b, 18, k);
    } else {
      BlockAtEnd(q, block(last, |before|), 18, k);
    }
  }

  /** The block of the tree at row-major texel t, with draw d. */
  function TexelBlock(terrain: Image, tree: Image, t: int, d: real): seq<real>
    requires Covers(terrain, tree) && 0 <= t < TexelCount(tree) && 0.0 <= d < 1.0
  {
    TexelOf(tree, t);
    TreeBlock(terrain, tree, t % tree.width, t / tree.width, d)
  }

  /** The block of texel t as the k-th tree: its TexelBlock with the k-th
      draw. A run only asks for texels inside the map with a draw; any other
      pair gets 18 zeros, which keeps the function total. */
  function BlockOf(terrain: Image, tree: Image, draws: seq<real>): (block: (int, int) -> seq<real>)
    requires Covers(terrain, tree) && Draws(draws)
    ensures forall t, k :: |block(t, k)| == 18
  {
    (t: int, k: int) =>
      if 0 <= t < TexelCount(tree) && 0 <= k < |draws| then TexelBlock(terrain, tree, t, draws[k])
      else seq(18, _ => 0.0)
  }

  /** The position entries of the trees below texel n: each tree texel in
      row-major order appends its block, with the next draw. */
  function Positions(terrain: Image, tree: Image, draws: seq<real>, n: int): (r: seq<real>)
    requires Covers(terrain, tree) && Draws(draws)
    ensures |r| == 18 * |TreeTexels(tree, n)|
  {
    RunLength(BlockOf(terrain, tree, draws), tree, n);
    Run(BlockOf(terrain, tree, draws), tree, n)
  }

  /** One more texel: a tree texel appends its block, built with the next
      draw; any other texel appends nothing. */
  lemma PositionsStep(terrain: Image, tree: Image, draws: seq<real>, t: int)
    requires Covers(terrain, tree) && Draws(draws)
    requires 0 <= t < TexelCount(tree) && |TreeTexels(tree, t + 1)| <= |draws|
    ensures |TreeTexels(tree, t)| <= |draws|
    ensures Positions(terrain, tree, draws, t + 1) ==
      if IsTreeTexel(tree, t) then
        Positions(terrain, tree, draws, t) + TexelBlock(terrain, tree, t, draws[|TreeTexels(tree, t)|])
      else Positions(terrain, tree, draws, t)
  {
    TreeTexelsStep(tree, t);
  }

  /** A texel without a tree adds no positions. */
  lemma PositionsSkip(terrain: Image, tree: Image, draws: seq<real>, t: int)
    requires Covers(terrain, tree) && Draws(draws)
    requires 0 <= t < TexelCount(tree) && |TreeTexels(tree, t + 1)| <= |draws|
    requires !IsTreeTexel(tree, t)
    ensures TreeTexels(tree, t + 1) == TreeTexels(tree, t)
    ensures Positions(terrain, tree, draws, t + 1) == Positions(terrain, tree, draws, t)
  {
    PositionsStep(terrain, tree, draws, t);
  }

  /** The tree texel (x, y) of the row-major scan appends its block, built
      with the next draw. */
  lemma PositionsTree(terrain: Image, tree: Image, draws: seq<real>, x: int, y: int, t: int)
    requires Covers(terrain, tree) && Draws(draws)
    requires 0 <= x < tree.width && 0 <= y < tree.height && t == RowsTexels(y, tree.width) + x
    requires t < TexelCount(tree) && |TreeTexels(tree, t + 1)| <= |draws|
    requires IsTreeTexel(tree, t)
    ensures TreeTexels(tree, t + 1) == TreeTexels(tree, t) + [t]
    ensures Positions(terrain, tree, draws, t + 1) ==
      Positions(terrain, tree, draws, t) + TreeBlock(terrain, tree, x, y, draws[|TreeTexels(tree, t)|])
  {
    TexelIndex(tree, x, y, t);
    PositionsStep(terrain, tree, draws, t);
    assert TexelBlock(terrain, tree, t, draws[|TreeTexels(tree, t)|]) ==
      TreeBlock(terrain, tree, x, y, draws[|TreeTexels(tree, t)|]);
  }

  /** Block k of the positions below n is the block of the k-th tree texel,
      built with the k-th draw. */
  lemma PositionsBlock(terrain: Image, tree: Image, draws: seq<real>, n: int, k: int, t: int)
    requires Covers(terrain, tree) && Draws(draws)
    requires n <= TexelCount(tree) && |TreeTexels(tree, n)| <= |draws|
    requires 0 <= k < |TreeTexels(tree, n)| && t == TreeTexels(tree, n)[k] && 0 <= t < TexelCount(tree)
    ensures Positions(terrain, tree, draws, n)[18 * k .. 18 * k + 18] == TexelBlock(terrain, tree, t, draws[k])
  {
    RunBlock(BlockOf(terrain, tree, draws), tree, n, k);
  }

  lemma TreeTexelsStep(img: Image, t: int)
    requires 0 <= t
    ensures TreeTexels(img, t + 1) == TreeTexels(img, t) + (if IsTreeTexel(img, t) then [t] else [])
  {
  }

  /** Appending leaves the earlier blocks in place. */
  lemma BlockOfPrefix(q: seq<real>, b: seq<real>, size: nat, k: nat)
    requires (k + 1) * size <= |q|
    ensures (q + b)[k * size .. k * size + size] == q[k * size .. k * size + size]
  {
  }

  /** The appended block is the block right after the earlier ones. */
  lemma BlockAtEnd(q: seq<real>, b: seq<real>, size: nat, k: nat)
    requires |q| == k * size && |b| == size
    ensures (q + b)[k * size .. k * size + size] == b
  {
  }

  // ---------------------------------------------------------------------
  // The mesh and its two passes
  // ---------------------------------------------------------------------

  /** The vertex channels of a tree mesh. */
  datatype TreeMesh = TreeMesh(positions: seq<real>, uvs: seq<real>)

  /** The mesh compute_tree_mesh builds from a heightmap and a tree map. */
  function MeshOf(terrain: Image, tree: Image, draws: seq<real>): TreeMesh
    requires Covers(terrain, tree) && Draws(draws) && |draws| >= TreeCount(tree)
  {
    TreeMesh(Positions(terrain, tree, draws, TexelCount(tree)), UvRun(TreeCount(tree)))
  }

  /** Every built mesh has tree_count * 18 position entries and
      tree_count * 12 uv entries; the k-th tree texel in row-major order owns
      positions [18k, 18k + 18), built with the k-th draw, and uvs
      [12k, 12k + 12), the fixed uv block. */
  lemma MeshOfLayout(terrain: Image, tree: Image, draws: seq<real>, k: int)
    requires Covers(terrain, tree) && Draws(draws) && |draws| >= TreeCount(tree)
    requires 0 <= k < TreeCount(tree)
    ensures var m := MeshOf(terrain, tree, draws);
      var t := TreeTexels(tree, TexelCount(tree))[k];
      |m.positions| == 18 * TreeCount(tree) && |m.uvs| == 12 * TreeCount(tree) &&
      IsTreeTexel(tree, t) && 0 < tree.width && 0 <= t % tree.width < tree.width && 0 <= t / tree.width < tree.height &&
      m.positions[18 * k .. 18 * k + 18] == TreeBlock(terrain, tree, t % tree.width, t / tree.width, draws[k]) &&
      m.uvs[12 * k .. 12 * k + 12] == UvBlock
  {
    var t := TreeTexels(tree, TexelCount(tree))[k];
    TreeTexelsExact(tree, TexelCount(tree));
    assert t in TreeTexels(tree, TexelCount(tree));
    TexelOf(tree, t);
    PositionsBlock(terrain, tree, draws, TexelCount(tree), k, t);
    UvRunBlock(TreeCount(tree), k);
  }

  /** The counting pass: one texel per step, c advancing by four bytes. */
  method CountTrees(tree: Image) returns (treeCount: nat)
    ensures treeCount == TreeCount(tree)
  {
    var data := tree.data;
    var w := tree.width;
    var h := tree.height;
    var c := 0;
    treeCount := 0;
    var y := 0;
    while y < h
      invariant 0 <= y <= h
      invariant c == 4 * RowsTexels(y, w) && treeCount == |TreeTexels(tree, RowsTexels(y, w))|
    {
      var x := 0;
      while x < w
        invariant 0 <= x <= w
        invariant c == 4 * (RowsTexels(y, w) + x) && treeCount == |TreeTexels(tree, RowsTexels(y, w) + x)|
      {
        if 0 <= c < |data| && data[c] == 0 {
          treeCount := treeCount + 1;
        }
        x := x + 1;
        c := c + 4;
      }
      y := y + 1;
    }
  }

  /** The body of the fill loop for one tree: its six vertices, then its
      uv block, each written at the cursor. */
  method EmitTree(terrain: Image, tree: Image, x: int, y: int, draw: real,
                  pos: array<real>, uv: array<real>, posCur: int, uvCur: int)
    returns (posEnd: int, uvEnd: int)
    requires Covers(terrain, tree) && 0 <= x < tree.width && 0 <= y < tree.height
    requires 0.0 <= draw < 1.0
    requires pos != uv && 0 <= posCur && posCur + 18 <= pos.Length && 0 <= uvCur && uvCur + 12 <= uv.Length
    modifies pos, uv
    ensures posEnd == posCur + 18 && uvEnd == uvCur + 12
    ensures pos[..posEnd] == old(pos[..posCur]) + TreeBlock(terrain, tree, x, y, draw)
    ensures uv[..uvEnd] == old(uv[..uvCur]) + UvBlock
  {
    var rand := draw;
    rand := rand * rand;
    rand := rand * 0.5 + 0.5;
    assert rand == Spread(draw);
    var xofs := SizeRatio * rand;
    var yofs := SizeRatio * rand;
    var xpos := x as real * SizeRatio + xofs;
    var ypos := y as real * SizeRatio + yofs;
    assert xpos == Place(x, rand) && ypos == Place(y, rand);
    var heightBase := ypos.Floor * (tree.width * 4);
    ghost var index := TerrainIndex(tree.width, xpos, ypos);
    assert (heightBase + xpos.Floor) * 4 == index;
    TerrainIndexInRange(terrain, tree, x, y, rand);
    var terrainHeight := terrain.data[(heightBase + xpos.Floor) * 4] as real * TerrainHeightScale;
    assert terrainHeight == TerrainHeight(terrain, tree, x, y, rand);
    ghost var block := VertexRun(xpos, terrainHeight, ypos, rand, BillboardVertices);
    assert block == TreeBlock(terrain, tree, x, y, draw);
    posEnd := WriteVertices(pos, posCur, xpos, terrainHeight, ypos, rand);
    uvEnd := WriteUvBlock(uv, uvCur);
  }

  /** The inner `for (i = 0; i < 6; ++i)` loop: three position entries per
      vertex. */
  method WriteVertices(pos: array<real>, posCur: int, xpos: real, height: real, ypos: real, rand: real)
    returns (posEnd: int)
    requires 0 <= posCur && posCur + 18 <= pos.Length
    modifies pos
    ensures posEnd == posCur + 18
    ensures pos[..posEnd] == old(pos[..posCur]) + VertexRun(xpos, height, ypos, rand, BillboardVertices)
  {
    posEnd := posCur;
    var i := 0;
    while i < BillboardVertices
      invariant 0 <= i <= BillboardVertices && posEnd == posCur + 3 * i
      invariant pos[..posEnd] == old(pos[..posCur]) + VertexRun(xpos, height, ypos, rand, i)
    {
      var lift := (if i >= 2 && i <= 4 then TreeHeight else 0.0) * (1.0 + rand * 0.2);
      assert lift == Lift(i, rand);
      posEnd := WriteVertex(pos, posEnd, xpos, height + lift, ypos);
      i := i + 1;
    }
  }

  /** Three consecutive position writes at the cursor: one vertex. */
  method WriteVertex(pos: array<real>, posCur: int, px: real, py: real, pz: real) returns (posEnd: int)
    requires 0 <= posCur && posCur + 3 <= pos.Length
    modifies pos
    ensures posEnd == posCur + 3
    ensures pos[..posEnd] == old(pos[..posCur]) + [px, py, pz]
  {
    pos[posCur] := px;
    pos[posCur + 1] := py;
    pos[posCur + 2] := pz;
    posEnd := posCur + 3;
  }

  /** The twelve uv writes of one tree. */
  method WriteUvBlock(uv: array<real>, uvCur: int) returns (uvEnd: int)
    requires 0 <= uvCur && uvCur + 12 <= uv.Length
    modifies uv
    ensures uvEnd == uvCur + 12
    ensures uv[..uvEnd] == old(uv[..uvCur]) + UvBlock
  {
    ghost var written := uv[..uvCur];
    uvEnd := WriteUvPair(uv, uvCur, 0.0, 0.0);
    uvEnd := WriteUvPair(uv, uvEnd, 1.0, 0.0);
    uvEnd := WriteUvPair(uv, uvEnd, 1.0, 1.0);
    assert uv[..uvEnd] == written + UvBlock[..6];
    uvEnd := WriteUvPair(uv, uvEnd, 1.0, 1.0);
    uvEnd := WriteUvPair(uv, uvEnd, 0.0, 1.0);
    uvEnd := WriteUvPair(uv, uvEnd, 0.0, 0.0);
    assert uv[..uvEnd] == written + UvBlock[..6] + UvBlock[6..];
    assert UvBlock[..6] + UvBlock[6..] == UvBlock;
  }

  /** Two consecutive uv writes at the cursor: one vertex's (u, v). */
  method WriteUvPair(uv: array<real>, uvCur: int, u: real, v: real) returns (uvEnd: int)
    requires 0 <= uvCur && uvCur + 2 <= uv.Length
    modifies uv
    ensures uvEnd == uvCur + 2
    ensures uv[..uvEnd] == old(uv[..uvCur]) + [u, v]
  {
    uv[uvCur] := u;
    uv[uvCur + 1] := v;
    uvEnd := uvCur + 2;
  }

  /** The fill pass: every tree texel, in row-major order, emits its blocks
      at the cursors and takes the next draw; other texels are skipped. */
  method FillBuffers(terrain: Image, tree: Image, draws: seq<real>, pos: array<real>, uv: array<real>)
    requires Covers(terrain, tree) && Draws(draws) && |draws| >= TreeCount(tree)
    requires pos != uv && pos.Length == 18 * TreeCount(tree) && uv.Length == 12 * TreeCount(tree)
    modifies pos, uv
    ensures pos[..] == Positions(terrain, tree, draws, TexelCount(tree))
    ensures uv[..] == UvRun(TreeCount(tree))
  {
    var w := tree.width;
    var h := tree.height;
    var posCur := 0;
    var uvCur := 0;
    var next := 0;
    var c := 0;
    var y := 0;
    ghost var row := 0;
    RowsTexelsGrow(0, h, w);
    while y < h
      invariant 0 <= y <= h && row == RowsTexels(y, w) && c == 4 * row && row <= TexelCount(tree)
      invariant Filled(terrain, tree, draws, pos, uv, row, next, posCur, uvCur)
    {
      RowsTexelsGrow(y + 1, h, w);
      c, next, posCur, uvCur := FillRow(terrain, tree, draws, pos, uv, y, row, c, next, posCur, uvCur);
      y := y + 1;
      row := row + w;
    }
    assert row == TexelCount(tree);
    FilledAll(terrain, tree, draws, pos, uv, next, posCur, uvCur);
  }

  /** Once every texel is done the cursors stand at the ends of the buffers. */
  lemma FilledAll(terrain: Image, tree: Image, draws: seq<real>, pos: array<real>, uv: array<real>,
                  next: int, posCur: int, uvCur: int)
    requires Filled(terrain, tree, draws, pos, uv, TexelCount(tree), next, posCur, uvCur)
    ensures pos[..] == Positions(terrain, tree, draws, TexelCount(tree))
    ensures uv[..] == UvRun(TreeCount(tree))
  {
    assert pos[..] == pos[..posCur];
    assert uv[..] == uv[..uvCur];
  }

  /** The fill state after the texels below t: next trees emitted, the
      cursors just past their blocks, and the blocks the specification
      gives. */
  ghost predicate Filled(terrain: Image, tree: Image, draws: seq<real>, pos: array<real>, uv: array<real>,
                         t: int, next: int, posCur: int, uvCur: int)
    reads pos, uv
  {
    Covers(terrain, tree) && Draws(draws) && |draws| >= TreeCount(tree) && 0 <= t <= TexelCount(tree) &&
    pos != uv && pos.Length == 18 * TreeCount(tree) && uv.Length == 12 * TreeCount(tree) &&
    next == |TreeTexels(tree, t)| && next <= TreeCount(tree) && posCur == 18 * next && uvCur == 12 * next &&
    pos[..posCur] == Positions(terrain, tree, draws, t) && uv[..uvCur] == UvRun(next)
  }

  /** The inner loop of the fill pass: the texels of row y, whose first
      texel is the linear index row. */
  method FillRow(terrain: Image, tree: Image, draws: seq<real>, pos: array<real>, uv: array<real>,
                 y: int, ghost row: int, c0: int, next0: int, posCur0: int, uvCur0: int)
    returns (c: int, next: int, posCur: int, uvCur: int)
    requires 0 <= y < tree.height && row == RowsTexels(y, tree.width) && row + tree.width <= TexelCount(tree)
    requires c0 == 4 * row && Filled(terrain, tree, draws, pos, uv, row, next0, posCur0, uvCur0)
    modifies pos, uv
    ensures c == 4 * (row + tree.width) && Filled(terrain, tree, draws, pos, uv, row + tree.width, next, posCur, uvCur)
  {
    var w := tree.width;
    c, next, posCur, uvCur := c0, next0, posCur0, uvCur0;
    var x := 0;
    ghost var t := row;
    while x < w
      invariant 0 <= x <= w && t == row + x && c == 4 * t
      invariant Filled(terrain, tree, draws, pos, uv, t, next, posCur, uvCur)
    {
      next, posCur, uvCur := FillTexel(terrain, tree, draws, pos, uv, x, y, t, c, next, posCur, uvCur);
      x := x + 1;
      c := c + 4;
      t := t + 1;
    }
  }

  /** One step of the fill loop: texel (x, y) at byte c emits its blocks
      when it holds a tree and is skipped otherwise. */
  method FillTexel(terrain: Image, tree: Image, draws: seq<real>, pos: array<real>, uv: array<real>,
                   x: int, y: int, ghost t: int, c: int, next0: int, posCur0: int, uvCur0: int)
    returns (next: int, posCur: int, uvCur: int)
    requires 0 <= x < tree.width && 0 <= y < tree.height && t == RowsTexels(y, tree.width) + x
    requires c == 4 * t && Filled(terrain, tree, draws, pos, uv, t, next0, posCur0, uvCur0)
    modifies pos, uv
    ensures Filled(terrain, tree, draws, pos, uv, t + 1, next, posCur, uvCur)
  {
    next, posCur, uvCur := next0, posCur0, uvCur0;
    TexelIndexInMap(tree, x, y, t);
    TreeTexelsGrow(tree, t + 1, TexelCount(tree));
    if !(0 <= c < |tree.data| && tree.data[c] == 0) {
      assert !IsTreeTexel(tree, t);
      PositionsSkip(terrain, tree, draws, t);
      return;
    }
    assert IsTreeTexel(tree, t);
    next, posCur, uvCur := FillTreeTexel(terrain, tree, draws, pos, uv, x, y, t, next0, posCur0, uvCur0);
  }

  /** A texel that holds a tree: its block goes into both channels with the
      next draw. */
  method FillTreeTexel(terrain: Image, tree: Image, draws: seq<real>, pos: array<real>, uv: array<real>,
                       x: int, y: int, ghost t: int, next0: int, posCur0: int, uvCur0: int)
    returns (next: int, posCur: int, uvCur: int)
    requires 0 <= x < tree.width && 0 <= y < tree.height && t == RowsTexels(y, tree.width) + x
    requires Filled(terrain, tree, draws, pos, uv, t, next0, posCur0, uvCur0)
    requires t < TexelCount(tree) && |TreeTexels(tree, t + 1)| <= TreeCount(tree) && IsTreeTexel(tree, t)
    modifies pos, uv
    ensures Filled(terrain, tree, draws, pos, uv, t + 1, next, posCur, uvCur)
  {
    PositionsTree(terrain, tree, draws, x, y, t);
    posCur, uvCur := EmitTree(terrain, tree, x, y, draws[next0], pos, uv, posCur0, uvCur0);
    next := next0 + 1;
  }

  /** compute_tree_mesh without the memo: count, allocate, fill. */
  method BuildTreeMesh(terrain: Image, tree: Image, draws: seq<real>) returns (mesh: TreeMesh)
    requires Covers(terrain, tree) && Draws(draws) && |draws| >= TreeCount(tree)
    ensures mesh == MeshOf(terrain, tree, draws)
  {
    var treeCount := CountTrees(tree);
    var pos := new real[treeCount * 6 * 3];
    var uv := new real[treeCount * 6 * 2];
    FillBuffers(terrain, tree, draws, pos, uv);
    mesh := TreeMesh(pos[..], uv[..]);
  }

  /** A mesh with the channel sizes and the uv channel of a tree map. */
  predicate MeshFits(m: TreeMesh, tree: Image)
  {
    |m.positions| == 18 * TreeCount(tree) && m.uvs == UvRun(TreeCount(tree))
  }

  /** The memo of compute_tree_mesh (tree_meshes), keyed by heightmap index,
      with app.GetHeightMap and app.GetTreeMap as the two image lists. */
  class TreeMeshCache {
    const heightMaps: seq<Image>
    const treeMaps: seq<Image>
    var meshes: map<int, TreeMesh>

    ghost predicate Valid()
      reads this
    {
      |heightMaps| >= 2 && |treeMaps| >= 2 &&
      (forall i | 0 <= i < 2 :: Covers(heightMaps[i], treeMaps[i])) &&
      (forall k | k in meshes :: 0 <= k < 2 && MeshFits(meshes[k], treeMaps[k]))
    }

    constructor(heightMaps: seq<Image>, treeMaps: seq<Image>)
      requires |heightMaps| >= 2 && |treeMaps| >= 2
      requires forall i | 0 <= i < 2 :: Covers(heightMaps[i], treeMaps[i])
      ensures Valid() && this.heightMaps == heightMaps && this.treeMaps == treeMaps && meshes == map[]
    {
      this.heightMaps := heightMaps;
      this.treeMaps := treeMaps;
      meshes := map[];
    }

    /** compute_tree_mesh(cube_face_idx): the stored mesh of the face's
        heightmap when there is one, else a freshly built one, stored. */
    method ComputeTreeMesh(cubeFaceIdx: int, draws: seq<real>) returns (mesh: TreeMesh)
      requires Valid() && Draws(draws)
      requires |draws| >= TreeCount(treeMaps[CubeFaceIdxToHeightmapIdx(cubeFaceIdx)])
      modifies this`meshes
      ensures Valid()
      ensures var key := CubeFaceIdxToHeightmapIdx(cubeFaceIdx);
        key in meshes && meshes[key] == mesh && MeshFits(mesh, treeMaps[key]) &&
        (key in old(meshes) ==> mesh == old(meshes)[key] && meshes == old(meshes)) &&
        (key !in old(meshes) ==>
          mesh == MeshOf(heightMaps[key], treeMaps[key], draws) && meshes == old(meshes)[key := mesh])
    {
      var heightmapIdx := CubeFaceIdxToHeightmapIdx(cubeFaceIdx);
      var key := heightmapIdx;
      if key in meshes {
        return meshes[key];
      }
      var terrainImage := heightMaps[heightmapIdx];
      var treeImage := treeMaps[heightmapIdx];
      mesh := BuildTreeMesh(terrainImage, treeImage, draws);
      meshes := meshes[key := mesh];
    }
  }
}
