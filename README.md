# webgl-lake terrain core in Dafny

This project models the terrain engine of webgl-lake, a WebGL planet
renderer. The planet is a cube whose six faces are bent onto a sphere. Each
face is an adaptive quadtree over a 2048x2048 heightmap cut into 64x64 tiles
(TILE_SIZE), with 32x32 tiles per face (TILE_COUNT).

What is modelled, module by module:

- `Constants` holds the shared constants of `src/constants.js`.
- `Util` (`src/util.js`, plus the `calc_clod` of `src/app.js`) covers
  JavaScript integer semantics (`x | 0`, `1 << n`, `%`, `Math.ceil`),
  `lerp`, `clamp`, `saturate`, the continuous-LOD formula, `cubic_interp_1d`,
  `find_closest_point`, Java's `hashCode` in `string_hash`, and the
  cube-face to heightmap mapping.
- `Heightmap` models the bilinear height lookup of
  `TerrainQuadTreeNode.GetHeightAt` over an RGBA image.
- `TerrainTile` is the draw leaf of `src/terraintile.js`: its constructor,
  `SetLODRange`, and the `_ComputeLODLevel` override.
- `BoundingBoxes` models `compute_bounding_boxes`:
  - the per-tile min/max scan;
  - the 2x2 merge up to a single root entry;
  - the memo per heightmap;
  - the pyramid lookup of `_CalculateStaticBB`.
  It proves that the entry a node looks up is exactly the lowest and highest
  height in the node's square.
- `QuadTree` models the quadtree node (`TerrainQuadTreeNode`) as a class:
  - `_DetermineVisibilityStatus`;
  - the subdivide/collapse/hide decision of `Render`, as a pure function
    that `Render`'s new state is tied to;
  - `_Subdivide`, with its lazily created quadrants;
  - `_RenderAsSingleTile`;
  - `_SetChildrenEnabled`.
- `SphericalTerrain` models the planet node:
  - the six face roots;
  - `FindFaceIndexForUnitVector` as a first-maximum search;
  - the face projection and the height queries;
  - the normalised 3x3 Gaussian kernel of `GetSmoothedHeightAt` and its
    weighted average;
  - the tree query `GetTreesInRadius`.
- `Trees` models `compute_tree_mesh` of `src/trees.js`:
  - the tree count pass;
  - the fill of the position and UV buffers, proved against a function
    giving the whole mesh;
  - the memo per heightmap.

The sphere geometry that feeds the decisions is taken as inputs: corner
normals, dot products with the face axes, the camera-in-box test and the
CLOD samples. Each of these is named where it enters.

## Model

| member | source | states |
|---|---|---|
| Util.ToInt32 | src/util.js:40-49 | The 32-bit wrap of `hash & hash` / `x \| 0`: the result is in the int32 range, congruent to the input mod 2^32, and the identity on int32 values |
| Util.TruncToInt32 | src/terraintile.js:22-23 | `x \| 0` on a number: in the int32 range, and equal to the floor for values in [0, 2^31) |
| Util.JsRem | src/terrainquadtree.js:195-196 | JavaScript `%`: agrees with the mathematical remainder for non-negative operands; for negative ones it lies in (-b, 0], and a - r is always a multiple of b, which fixes the value |
| Util.ShiftLeftOne | src/terraintile.js:77 | `1 << n`: shift count taken mod 32, result in int32, and 2^n for 0 <= n < 31 |
| Util.Log2 | src/terrainquadtree.js:165 | `node_lod_level = log2(w)` on a power-of-two width is the exponent k with 2^k == w |
| Util.CeilLog2OfPow2 | src/terraintile.js:46 | On a power of two, floor(lod_min - log2(w)) subtracts exactly the integer logarithm |
| Util.Lerp | src/util.js:4-6 | lerp returns a at f = 0 and b at f = 1, and stays between a and b for f in [0, 1] |
| Util.Clamp | src/util.js:26-28 | clamp lies in [xmin, xmax] when the bounds are ordered, returns x inside, xmin below and xmax above |
| Util.ClampMonotone | src/util.js:26-28 | clamp is monotone in x |
| Util.Saturate | src/util.js:33-35 | saturate lies in [0, 1], is the identity there, and clips to 0 and 1 outside |
| Util.SaturateIdempotent | src/util.js:33-35 | saturate is idempotent and equals clamp(0, 1, x) |
| Util.Clod | src/util.js:18-21 | The CLOD value always lies in [0, COUNT_LOD_LEVELS - 1] |
| Util.CalcClod | src/util.js:18-21 | calc_clod is the CLOD formula with distance scale 1/(64*64), in [0, 8] |
| Util.AppCalcClod | src/app.js:29-33 | The app's calc_clod is the same formula with distance scale 3/(16*16), in [0, 8] |
| Util.ClodMonotone | src/util.js:18-21 | A farther object never gets a lower CLOD (for a monotone log2 and non-negative attenuation) |
| Util.CalcClodMonotone | src/app.js:29-33 | Both calc_clod variants are monotone in the squared distance |
| Util.CubicInterp1d | src/util.js:76-80 | The cubic interpolant passes through p1 at x = 0 and p2 at x = 1 |
| Util.FindClosestPoint | src/util.js:89-102 | null exactly when the segment's squared length is below 0.0001; otherwise the point at u is the orthogonal projection (the residual is orthogonal to the segment) |
| Util.ClosestIsOrthogonal | src/util.js:97-101 | The returned parameter makes p - lerp(p0, p1, u) orthogonal to p1 - p0 |
| Util.StringHashIsJavaHashCode | src/util.js:40-49 | The per-character update `(h << 5) - h + c` then `h & h` equals Java's hashCode: the polynomial sum of c_i * 31^(n-1-i) reduced to int32 |
| Util.StringHash | src/util.js:40-49 | The loop returns the Java hashCode of the string, in int32 range, and 0 for the empty string |
| Util.CubeFaceIdxToHeightmapIdx | src/util.js:105-113 | Heightmap index 1 (desert) exactly for cube face DESERT_IDX, 0 for every other face |
| Heightmap.HeightAt | src/terrainquadtree.js:184-217 | Defined exactly when the four texel reads hit the data (NaN reads become None); the value lies between the lowest and the highest of the four texels times TERRAIN_HEIGHT_SCALE, and at a texel corner it is that texel's height |
| Heightmap.HeightAtTexel | src/terrainquadtree.js:206-216 | At an integer position inside a square image the lookup returns that texel's byte times TERRAIN_HEIGHT_SCALE |
| Heightmap.HeightAtDefinedInside | src/terrainquadtree.js:191-196 | Every position inside a square image is readable: only x1/y1 wrap, and x0/y0 stay inside |
| TerrainTile.TerrainTile.constructor | src/terraintile.js:20-71 | x and y truncated to int32, w and h default to 1, lod_min = lod_max = -1, and the uv offset/scale, sq_base_height, translation and scale the material and node receive |
| TerrainTile.TerrainTile.SetLODRange | src/terraintile.js:74-78 | Stores the bracket and the lod_range uniform [a, b, 1 << a, 1 << b], which is [a, b, 2^a, 2^b] for shift counts below 31 |
| TerrainTile.TerrainTile.ComputeLODLevel | src/terraintile.js:45-49 | The mesh LOD is max(0, floor(lod_min - log2(w))): never negative, lod_min - ceil(log2 w) when that is non-negative, else 0 |
| TerrainTile.UnclampedLodNonNegative | src/terraintile.js:46-48 | When lod_min is at least log2(w) for a power-of-two w, the commented-out invariant lod >= 0 holds and the LOD is lod_min - log2(w) |
| BoundingBoxes.Sample | src/terrainquadtree.js:44-47 | Every level-0 sample is a height byte times TERRAIN_HEIGHT_SCALE, in [0, 255 * 0.55] |
| BoundingBoxes.TileEnvelope | src/terrainquadtree.js:37-55 | Every sample of a tile lies within the tile's [min, max] entry |
| BoundingBoxes.TileAttained | src/terrainquadtree.js:37-55 | Each bound of a tile's entry is attained by some sample of the tile |
| BoundingBoxes.Level0 | src/terrainquadtree.js:37-55 | Level 0 is a tiles_count x tiles_count grid of ordered entries |
| BoundingBoxes.MergeLevel | src/terrainquadtree.js:58-79 | One merge step halves the grid side and keeps entries ordered |
| BoundingBoxes.JoinAllCovers | src/terrainquadtree.js:65-76 | The merged entry of a 2x2 block covers every child entry |
| BoundingBoxes.JoinAllAttained | src/terrainquadtree.js:65-76 | Each bound of a merged entry is the bound of one child |
| BoundingBoxes.MergeLevelIsUp | src/terrainquadtree.js:58-79 | Merging level l - 1 gives level l of the pyramid, defined directly over level 0 |
| BoundingBoxes.UpEnvelope | src/terrainquadtree.js:58-79 | An entry at level l covers every level-0 tile of its 2^l x 2^l block |
| BoundingBoxes.UpAttained | src/terrainquadtree.js:58-79 | Each bound of an entry at level l comes from a level-0 tile in its block |
| BoundingBoxes.TileCountIsPow2 | src/terrainquadtree.js:31-33 | tiles_count is 2^level_count-1, so the merge ends at a single root entry |
| BoundingBoxes.PyramidOf | src/terrainquadtree.js:31-79 | The pyramid has log2(tiles_count) + 1 levels, level l is a 2^(top - l) square of ordered entries, level 0 has tiles_count sides and the top level one |
| BoundingBoxes.ScanTile | src/terrainquadtree.js:41-53 | The texel loop computes the tile's entry |
| BoundingBoxes.BuildLevel0 | src/terrainquadtree.js:37-55 | The tile loops build level 0 |
| BoundingBoxes.MergeTile | src/terrainquadtree.js:65-76 | The 2x2 merge loop computes the merged entry |
| BoundingBoxes.MergeLevelUp | src/terrainquadtree.js:58-79 | One pass of the merge loop builds the next level |
| BoundingBoxes.ComputePyramid | src/terrainquadtree.js:27-79 | The whole computation returns the pyramid |
| BoundingBoxes.BoundingBoxCache.ComputeBoundingBoxes | src/terrainquadtree.js:16-83 | Memoised per heightmap index: returns the pyramid of the face's heightmap, stores it under that index and changes nothing else; a cached index is left as it is |
| BoundingBoxes.NodeEntryIsUp | src/terrainquadtree.js:228-229 | The lookup [node_lod_level][y / w][x / w] of an aligned node is the pyramid entry whose block is exactly the node's square |
| BoundingBoxes.NodeEntryIsRange | src/terrainquadtree.js:228-229 | A node's entry bounds every height sample in the node, and both bounds are attained |
| BoundingBoxes.NodeEnvelope | src/terrainquadtree.js:228-229 | Every sample of the node lies within the node's entry |
| BoundingBoxes.NodeAttained | src/terrainquadtree.js:228-229 | Each bound of a node's entry is attained by a sample in the node |
| BoundingBoxes.SampleIsHeightAt | src/terrainquadtree.js:47 | A level-0 sample is GetHeightAt at the texel's position |
| BoundingBoxes.StaticHeightsAsWrittenMissTerrain | src/terrainquadtree.js:231-236 | With the height scaled a second time, some texel of any node that is not flat at 0 lies above the box's top |
| BoundingBoxes.StaticHeightsHoldTerrain | src/terrainquadtree.js:231-236 | Scaled once, the box's y range holds GetHeightAt at every texel of the node, and its top is attained |
| BoundingBoxes.StaticHeightsHoldTexel | src/terrainquadtree.js:231-236 | Per texel: GetHeightAt at any texel of the node lies in the corrected y range |
| QuadTree.CountFails | src/terrainquadtree.js:496-526 | The count of negative corners is at most the number of corners probed |
| QuadTree.CountFailsExtremes | src/terrainquadtree.js:496-526 | The count is 0 exactly when no corner fails, and n exactly when every corner fails |
| QuadTree.Classify | src/terrainquadtree.js:528-534 | VISIBLE_ALL iff 0 negative corners, VISIBLE_NONE iff 4, VISIBLE_PARTIAL otherwise |
| QuadTree.DetermineVisibilityStatus | src/terrainquadtree.js:490-536 | The loop returns the classification of the count, which is VISIBLE_ALL iff no corner is culled and VISIBLE_NONE iff all four are |
| QuadTree.Downgrade | src/terrainquadtree.js:364-371 | The status is partial iff it is partial, or it is all-visible under a partially visible parent; it is none iff it is none |
| QuadTree.Decide | src/terrainquadtree.js:334-455 | A 1x1 node never subdivides; the node is hidden iff the camera is outside and the node is VISIBLE_NONE; with the camera inside it subdivides, or shows at LOD 0 when w = 1; a collapsed node's LOD is at least log2(w) |
| QuadTree.Bracket | src/terrainquadtree.js:378-454 | After the visibility step the node is never hidden, a 1x1 node never subdivides, and a collapsed node's LOD covers its width |
| QuadTree.DecideSubdivideIff | src/terrainquadtree.js:378-454 | Outside the node and not culled, it subdivides iff w != 1 and (w > 256, or the LOD cannot be met, or the PVS rule, or the crack rule); otherwise it shows at floor(clod_min) |
| QuadTree.CollapsedLodCoversWidth | src/terrainquadtree.js:426-454 | Whenever a node is drawn as one tile, lod - ceil(log2 w) >= 0, so the tile's _ComputeLODLevel is not clamped |
| QuadTree.QuadrantPlaced | src/terrainquadtree.js:544-551 | Quadrant i of an aligned node sits at (x + (i % 2) w/2, y + (i / 2) w/2), aligned to its half width |
| QuadTree.Node.constructor | src/terrainquadtree.js:152-179 | Fields per init, node_lod_level = log2(w), decorations exactly at the root, and the static heights looked up from the (memoised) pyramid |
| QuadTree.Node.SetChildrenEnabled | src/terrainquadtree.js:589-593 | Every child (decorations, quadrants, draw tile) gets the flag |
| QuadTree.Node.Subdivide | src/terrainquadtree.js:538-567 | Creates the four quadrants once, afterwards reuses them; all four end enabled and the draw tile disabled |
| QuadTree.Node.CreateSubQuads | src/terrainquadtree.js:540-557 | Creates four fresh, placed quadrants without children |
| QuadTree.Node.NewQuadrant | src/terrainquadtree.js:548-551 | Quadrant i is a fresh node at its quadrant's position with half the width |
| QuadTree.Node.RenderAsSingleTile | src/terrainquadtree.js:569-587 | Creates the draw tile once (sq_base_height from the face index), sets its LOD range to [floor(clod_min), floor(clod_min) + 1] with lod_range [a, a + 1, 1 << a, 1 << (a + 1)], enables it and disables every quadrant |
| QuadTree.Node.Render | src/terrainquadtree.js:334-455 | The new children state is what Decide says for the inputs: the tile shown, quadrants shown, or everything hidden, with the existing children reused; a drawn tile's mesh LOD is lod_min - node_lod_level; when the node is hidden or subdivided, an existing draw tile keeps its LOD bracket and lod_range |
| QuadTree.Node.RenderInBox | src/terrainquadtree.js:342-356 | With the camera inside the node's box, the node shows its quadrants, or its tile at LOD 0 when it is one tile wide; when it subdivides, an existing draw tile keeps its LOD bracket and lod_range |
| QuadTree.Node.RenderBracket | src/terrainquadtree.js:373-454 | The part of Render after the visibility step shows what Bracket says; when it subdivides, an existing draw tile keeps its LOD bracket and lod_range |
| SphericalTerrain.FaceOfIsUniqueFirstMaximum | src/sphericalterrain.js:118-131 | The face chosen is i iff its dot is a maximum and every earlier dot is strictly smaller (ties go to the lowest index) |
| SphericalTerrain.FindFaceIndexForUnitVector | src/sphericalterrain.js:118-131 | The loop returns the first index of the largest dot product |
| SphericalTerrain.ProjectOntoFace | src/sphericalterrain.js:206-212 | The projection onto the face plane is defined exactly when the local y is non-zero |
| SphericalTerrain.ProjectionIgnoresNormalisation | src/sphericalterrain.js:206-212 | Scaling the local vector (the normalisations) does not change the face coordinates |
| SphericalTerrain.Terrain.constructor | src/sphericalterrain.js:23-59 | Six fresh roots (0, 0, TILE_COUNT), face i with cube face index i and is_back iff i >= 3; the kernel is the normalised Gaussian |
| SphericalTerrain.Terrain.Get2DCoordinatesOnFace | src/sphericalterrain.js:194-213 | The face coordinates of the projection onto the chosen face; None exactly when the local y is 0 |
| SphericalTerrain.Terrain.GetHeightAt | src/sphericalterrain.js:219-242 | GetHeightAt of the chosen face's heightmap at the projected coordinates |
| SphericalTerrain.KernelIsNormalisedGaussian | src/sphericalterrain.js:250-266 | The 9 coefficients sum to 1, are all positive, and are equal at equal squared radius j*j + k*k |
| SphericalTerrain.FillRawKernel | src/sphericalterrain.js:254-262 | The nested loop writes exp(-(j*j + k*k)/2) in row-major order and accumulates their sum |
| SphericalTerrain.RawKernelAt | src/sphericalterrain.js:256-261 | Cursor 3(j+1) + (k+1) holds exp(-(j*j + k*k)/2) |
| SphericalTerrain.DivideAll | src/sphericalterrain.js:264-266 | The backward loop divides every coefficient by the sum |
| SphericalTerrain.SumDivAll | src/sphericalterrain.js:264-266 | Dividing every entry by d divides the sum by d |
| SphericalTerrain.GaussCoeffs | src/sphericalterrain.js:250-266 | The array built is the normalised kernel |
| SphericalTerrain.WeightedSum | src/sphericalterrain.js:294-303 | The smoothed sum is defined iff every sample is defined (a NaN sample poisons the sum) |
| SphericalTerrain.WeightedSumAbove | src/sphericalterrain.js:294-303 | With non-negative weights, samples at least lo give a sum of at least lo times the total weight |
| SphericalTerrain.WeightedSumBelow | src/sphericalterrain.js:294-303 | With non-negative weights, samples at most hi give a sum of at most hi times the total weight |
| SphericalTerrain.SamplesAt | src/sphericalterrain.js:295-300 | Sample cursor 3(j+1) + (k+1) is taken at (x + j * SAMPLE_DELTA, y + k * SAMPLE_DELTA) |
| SphericalTerrain.SmoothedIsAverage | src/sphericalterrain.js:247-305 | The smoothed height is a weighted average: it lies between the lowest and highest of the 9 samples, and equals the height on flat terrain |
| SphericalTerrain.Terrain.SmoothedSum | src/sphericalterrain.js:294-303 | The loop computes the kernel-weighted sum of the 9 samples |
| SphericalTerrain.Terrain.GetSmoothedHeightAt | src/sphericalterrain.js:268-304 | The Gaussian-weighted sum of the chosen face's GetHeightAt over the 3x3 neighbourhood of the projected point |
| SphericalTerrain.ScanWindow | src/sphericalterrain.js:150-153 | The scanned window lies inside the tree map, with xmin <= xmax and ymin <= ymax for a non-negative radius |
| SphericalTerrain.RowTreesExact | src/sphericalterrain.js:161-186 | One row reports, in x order, exactly the window texels that are trees within the radius |
| SphericalTerrain.WindowTreesExact | src/sphericalterrain.js:157-187 | The window reports, in row-major order, exactly the texels that are trees within the radius, each with the height under it |
| SphericalTerrain.RightmostTexelOfDiscNotScanned | src/sphericalterrain.js:151-153 | The window's upper bound is exclusive while the distance test is inclusive: a texel exactly on the disc's right edge passes the test but is never scanned |
| SphericalTerrain.ScanRow | src/sphericalterrain.js:161-186 | The inner loop appends the row's trees |
| SphericalTerrain.ScanRows | src/sphericalterrain.js:157-187 | The outer loop returns the window's trees |
| SphericalTerrain.Terrain.GetTreesInRadius | src/sphericalterrain.js:135-189 | Returns the trees of the window around the projected point, read from tree map 0 |
| SphericalTerrain.TreesInRadiusExact | src/sphericalterrain.js:135-189 | The result is row-major; every reported tree is a tree texel within the radius, with the face height at x, y times size_ratio; every such texel in the window is reported |
| Trees.TreeTexelsExact | src/trees.js:24-32 | The tree texels in scan order: increasing, each a texel whose first byte is 0, and every such texel included |
| Trees.CountTrees | src/trees.js:24-32 | The count pass returns the number of tree texels |
| Trees.Spread | src/trees.js:56-58 | rand = r*r*0.5 + 0.5 for a draw r in [0, 1) lies in [0.5, 1) |
| Trees.PlaceInCell | src/trees.js:59-63 | A tree's position lies in the back half [4i + 2, 4i + 4) of its 4x4 heightmap cell |
| Trees.TerrainIndexInRange | src/trees.js:65-67 | The heightmap read of a tree lies inside the height data |
| Trees.TerrainHeight | src/trees.js:65-67 | The terrain height under a tree lies in [0, 255 * TERRAIN_HEIGHT_SCALE] |
| Trees.TreeBlockShape | src/trees.js:69-74 | Each of the 6 vertices is at the tree's position; vertices 2..4 are raised by tree_height * (1 + rand * 0.2), the others sit on the terrain |
| Trees.UvRunBlock | src/trees.js:76-92 | Every tree's 12 UV values are the fixed quad corners |
| Trees.PositionsBlock | src/trees.js:44-94 | The k-th 18-value block of the positions is the k-th tree's billboard |
| Trees.MeshOfLayout | src/trees.js:44-94 | The mesh has 18 position and 12 UV values per tree, and block k is the billboard and UVs of the k-th tree texel in scan order |
| Trees.EmitTree | src/trees.js:55-92 | One tree appends its 18 position values and 12 UV values at the cursors |
| Trees.FillBuffers | src/trees.js:48-94 | The fill loop writes the positions of every tree and the UV run into buffers sized for the count |
| Trees.BuildTreeMesh | src/trees.js:13-105 | Counting, allocating and filling yields the mesh of the tree map |
| Trees.TreeMeshCache.ComputeTreeMesh | src/trees.js:5-11 | Memoised per heightmap index: a cached mesh is returned unchanged; otherwise the mesh of the face's height and tree maps is built and stored under that index only |

## Left out

- Floating point: every JavaScript number is a `real`. Float32 rounding of the vertex buffers, NaN propagation and Infinity are not modelled. A read outside the image data, which gives NaN in the source, is `None`.
- Util.Clod: `log2` (`Math.log(x) / Math.log(2)`) is an abstract function parameter. Monotonicity is assumed of it where needed; its values are not modelled.
- Sphere geometry is left out: `transform_vector`, the face anchors' rotations and mirroring, `_UpdateWorldSpaceCorners`, and the world-space bounding box of `_CalculateStaticBB` (src/terrainquadtree.js:237-303). The inputs stand in for them: per-face dot products, face-local vectors, corner probes, the camera-in-box flag and the CLOD samples.
- SphericalTerrain.FindFaceIndexForUnitVector: takes the six dot products with the face axes as input, not the axes themselves.
- SphericalTerrain.Terrain.Get2DCoordinatesOnFace: `vec3.normalize` is not modelled. ProjectionIgnoresNormalisation shows that scaling the local vector does not change the result.
- QuadTree.Node.Render: the CLOD bracket loops (src/terrainquadtree.js:398-424) are inputs (`clodMin`, `clodMax`). So are `app.GetGroundDistance() < 20` and the camera-in-box test (345-347).
- QuadTree.DetermineVisibilityStatus: the corner normals, corner points and the vector length are per-corner inputs (`CornerProbe`).
- SphericalTerrain.Terrain.GetTreesInRadius: returns each tree's texel and the height under it, not the world-space anchor vector, because the face transforms are not modelled.
- Math.exp and Math.random are parameters: `exp` (assumed positive) for the kernel, and a sequence of draws in [0, 1) for the tree placement.
- SphericalTerrain.Terrain.constructor: the Gaussian kernel is computed once per planet object, where the source computes it once per page load. The values are the same.
- The medea scene graph is left out: materials, meshes, textures, render queues, the stencil mask node and `Render` of the planet and tree tiles. Enabling is an `enabled` field, and decorations (WaterTile and TreeTile under the root node) are one flag. DetailTreeNode, console.log and the TreeTile node class are not part of this model.
- Trees.TreeMeshCache.ComputeTreeMesh: a mesh is a value (its position and UV sequences), so the identity of the cached object is modelled as equality.
- Trees.BuildTreeMesh: requires the heightmap to be four times the tree map's width and height (TERRAIN_PLANE_WIDTH / TREE_MAP_WIDTH). Only then does every tree read land inside the height data, which the source assumes.
- BoundingBoxes.ComputePyramid: requires a heightmap whose width is a power-of-two multiple of TILE_SIZE. The source's loops and `new Array(tiles_count)` assume the same. It also requires (`Scannable`) the data to reach byte `((width - 1) * TERRAIN_PLANE_WIDTH + width - 1) * 4`, because the level-0 scan uses TERRAIN_PLANE_WIDTH as its row stride (src/terrainquadtree.js:44). That excludes every well-formed image narrower than TERRAIN_PLANE_WIDTH, which the source scans into NaN entries; the NaN pyramid is not modelled.
- QuadTree.Node.constructor, QuadTree.Node.Render and the other node methods: require (`Fits`) every heightmap of the memo to be `Scannable` and to have exactly TILE_COUNT tiles per row, the size the planet is built for. Nodes over heightmaps of any other size are not modelled.
- QuadTree.Node.constructor: stores the y extent of the static box scaled once (`StaticHeights`), the corrected half of the finding below. `init` scales the entry a second time through `_CalculateStaticBB` (src/terrainquadtree.js:179, :232, :235); that as-written value is `StaticHeightsAsWritten`, and the model does not store it.
- Heightmap.HeightAt: the heightmap is a width x height RGBA byte image. `app.GetHeightMap` is replaced by a sequence of images indexed by heightmap index.
- SphericalTerrain.Terrain.GetTreesInRadius: reads tree map 0 for every face, as the source does (src/sphericalterrain.js:138).
- util.js `transform_vector` and the remaining modules (atmosphere, grass, stars, camera controllers, water) are not part of this model.

## Findings

| source | as written | input that shows it | evidently intended | confidence | as-written member | corrected member |
|---|---|---|---|---|---|---|
| src/terrainquadtree.js:47 and src/terrainquadtree.js:231-236 | Heights are multiplied by TERRAIN_HEIGHT_SCALE when the level-0 entries are built. `_CalculateStaticBB` multiplies the looked-up entry by it again, so the static box's y range is 0.55 times the terrain's. | Any node whose highest texel byte is above 0, e.g. a 1x1 node whose tile holds one texel of byte 100: the terrain reaches 55.0, the box top is 30.25 | Scale once: the box spans the node's lowest to highest GetHeightAt | not executed | BoundingBoxes.StaticHeightsAsWrittenMissTerrain | BoundingBoxes.StaticHeightsHoldTerrain |
