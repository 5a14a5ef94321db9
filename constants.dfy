/** The process-wide configuration constants of the terrain engine
    (src/constants.js). They are shared with the vertex shaders, so the
    model fixes them exactly as the engine does. */
module Constants {
  /// Number of discrete LOD levels of the tile mesh prototype.
  const CountLodLevels: int := 9
  /// Width, in heightmap texels, of one level-0 terrain tile.
  const TileSize: int := 64
  /// Width of one flat cube face, in world units (= heightmap texels).
  const TerrainPlaneWidth: int := 2048
  /// Offset that centres a face's plane on its anchor.
  const TerrainPlaneOffset: int := -TerrainPlaneWidth / 2
  /// Radius of the planet sphere.
  const Radius: int := 1024
  /// Width of the tree density map; the terrain is a whole multiple of it.
  const TreeMapWidth: int := 512
  /// size_ratio of the tree code: heightmap texels per tree-map texel. The
  /// division is exact (2048 / 512), so integer division gives the same 4.
  const SizeRatio: real := (TerrainPlaneWidth / TreeMapWidth) as real
  /// Tree billboard width and its height-over-width ratio.
  const TreeWidth: real := 2.6
  const TreeAspect: real := 2.3
  /// Factor applied to the 8-bit heightmap values to obtain world heights.
  const TerrainHeightScale: real := 0.55
}
