/** Heightmaps and the bilinear height lookup of a quadtree node
    (TerrainQuadTreeNode.GetHeightAt, src/terrainquadtree.js). */
module Heightmap {
  import opened Constants
  import opened Util

  newtype Byte = b: int | 0 <= b < 256

  /** A decoded RGBA image: `data` holds four bytes per texel, row by row.
      The height is read from the first channel. */
  datatype Image = Image(width: nat, height: nat, data: seq<Byte>)

  predicate WellFormed(img: Image)
  {
    |img.data| == img.width * img.height * 4
  }

  /** `data[i]` of a typed array: undefined outside the array. */
  function ByteAt(img: Image, i: int): Option<Byte>
  {
    if 0 <= i < |img.data| then Some(img.data[i]) else None
  }

  /** The first channel of texel (xx, yy), addressed with the image's own
      width as row stride, as GetHeightAt's `height_at` does. */
  function HeightByte(img: Image, xx: int, yy: int): Option<Byte>
  {
    ByteAt(img, (yy * img.width + xx) * 4)
  }

  function Min4(a: real, b: real, c: real, d: real): real
  {
    Min(Min(a, b), Min(c, d))
  }

  function Max4(a: real, b: real, c: real, d: real): real
  {
    Max(Max(a, b), Max(c, d))
  }

  /** The four texels a bilinear lookup at (x, y) reads: (x0, y0) with
      x0 = floor(x), y0 = floor(y), and x1 = (x0 + 1) % width,
      y1 = (y0 + 1) % width. */
  datatype Cell = Cell(x0: int, y0: int, x1: int, y1: int)

  function CellOf(img: Image, x: real, y: real): Cell
    requires img.width > 0
  {
    Cell(x.Floor, y.Floor, JsRem(x.Floor + 1, img.width), JsRem(y.Floor + 1, img.width))
  }

  /** Heights of a cell's texels, in the order (x0,y0), (x1,y0), (x0,y1), (x1,y1). */
  function CellBytes(img: Image, c: Cell): seq<Option<Byte>>
  {
    [HeightByte(img, c.x0, c.y0), HeightByte(img, c.x1, c.y0),
     HeightByte(img, c.x0, c.y1), HeightByte(img, c.x1, c.y1)]
  }

  predicate Readable(img: Image, x: real, y: real)
  {
    img.width > 0 && forall t <- CellBytes(img, CellOf(img, x, y)) :: t.Some?
  }

  function CellMin(img: Image, x: real, y: real): real
    requires Readable(img, x, y)
  {
    var t := CellBytes(img, CellOf(img, x, y));
    Min4(t[0].value as real, t[1].value as real, t[2].value as real, t[3].value as real)
  }

  function CellMax(img: Image, x: real, y: real): real
    requires Readable(img, x, y)
  {
    var t := CellBytes(img, CellOf(img, x, y));
    Max4(t[0].value as real, t[1].value as real, t[2].value as real, t[3].value as real)
  }

  /** GetHeightAt(x, y): bilinear interpolation of the cell's four texels,
      scaled by TerrainHeightScale. Only the +1 neighbours wrap; x0 and y0 are
      used as they are. A read outside the data is undefined in JavaScript and
      turns the result into NaN, which is None here; so is a zero width, for
      which `% width` is NaN. */
  function HeightAt(img: Image, x: real, y: real): (r: Option<real>)
    ensures r.Some? <==> Readable(img, x, y)
    // The result lies between the lowest and the highest of the four texels.
    ensures r.Some? ==> CellMin(img, x, y) * TerrainHeightScale <= r.value <= CellMax(img, x, y) * TerrainHeightScale
    // At a texel corner no interpolation takes place.
    ensures r.Some? && x == x.Floor as real && y == y.Floor as real ==>
      r.value == HeightByte(img, x.Floor, y.Floor).value as real * TerrainHeightScale
  {
    if img.width == 0 then None
    else
      var width := img.width;
      var x0, y0 := x.Floor, y.Floor;
      var x1, y1 := JsRem(x0 + 1, width), JsRem(y0 + 1, width);
      var fx, fy := x - x0 as real, y - y0 as real;
      var t00, t10 := HeightByte(img, x0, y0), HeightByte(img, x1, y0);
      var t01, t11 := HeightByte(img, x0, y1), HeightByte(img, x1, y1);
      assert CellBytes(img, CellOf(img, x, y)) == [t00, t10, t01, t11];
      if t00.None? || t10.None? || t01.None? || t11.None? then None
      else
        var a, b, c, d := t00.value as real, t10.value as real, t01.value as real, t11.value as real;
        var smoothed := Lerp(Lerp(a, b, fx), Lerp(c, d, fx), fy);
        BilinearBetween(a, b, c, d, fx, fy);
        ScaleBetween(Min4(a, b, c, d), smoothed, Max4(a, b, c, d), TerrainHeightScale);
        Some(smoothed * TerrainHeightScale)
  }

  lemma BilinearBetween(a: real, b: real, c: real, d: real, fx: real, fy: real)
    requires 0.0 <= fx <= 1.0 && 0.0 <= fy <= 1.0
    ensures Min4(a, b, c, d) <= Lerp(Lerp(a, b, fx), Lerp(c, d, fx), fy) <= Max4(a, b, c, d)
  {
  }

  lemma ScaleBetween(lo: real, v: real, hi: real, k: real)
    requires lo <= v <= hi && 0.0 <= k
    ensures lo * k <= v * k <= hi * k
  {
    MulNonNegative(v - lo, k);
    MulNonNegative(hi - v, k);
  }

  /** At an integer position inside a square, well-formed heightmap the
      lookup is defined and returns that texel's height, scaled. */
  lemma HeightAtTexel(img: Image, tx: int, ty: int)
    requires WellFormed(img) && img.height == img.width
    requires 0 <= tx < img.width && 0 <= ty < img.width
    ensures HeightByte(img, tx, ty).Some?
    ensures HeightAt(img, tx as real, ty as real) ==
      Some(HeightByte(img, tx, ty).value as real * TerrainHeightScale)
  {
    var fx, fy := tx as real, ty as real;
    assert fx.Floor == tx && fy.Floor == ty;
    HeightAtDefinedInside(img, fx, fy);
    InImage(img, tx, ty);
    var r := HeightAt(img, fx, fy);
    assert r.Some?;
    assert r.value == HeightByte(img, fx.Floor, fy.Floor).value as real * TerrainHeightScale;
  }

  lemma InImage(img: Image, xx: int, yy: int)
    requires WellFormed(img) && 0 <= xx < img.width && 0 <= yy < img.height
    ensures 0 <= (yy * img.width + xx) * 4 < |img.data|
    ensures HeightByte(img, xx, yy) == Some(img.data[(yy * img.width + xx) * 4])
  {
    assert yy * img.width + xx < (yy + 1) * img.width <= img.height * img.width;
  }

  /** Inside a square heightmap the lookup is always defined, also on the
      last row and column, where the +1 neighbours wrap to 0. */
  lemma HeightAtDefinedInside(img: Image, x: real, y: real)
    requires WellFormed(img) && img.height == img.width
    requires 0.0 <= x < img.width as real && 0.0 <= y < img.width as real
    ensures HeightAt(img, x, y).Some?
  {
    var c := CellOf(img, x, y);
    InImage(img, c.x0, c.y0);
    InImage(img, c.x1, c.y0);
    InImage(img, c.x0, c.y1);
    InImage(img, c.x1, c.y1);
  }
}
