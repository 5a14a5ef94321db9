/** The planet (SphericalTerrainNode, src/sphericalterrain.js): six cube
    faces, each a quadtree rooted at (0, 0, TILE_COUNT); the choice of the
    face under a direction; the projection of a point onto that face; the
    height, the tree anchors and the Gaussian-smoothed height under a point.

    The anchors' rotations, mirrorings and world transforms are floating
    point matrix work the model does not carry: for a query point the caller
    supplies, per face i, the dot product of face i's world up axis with the
    normalised point (`dots`) and the point in face i's local frame
    (`locals`). */
module SphericalTerrain {
  import opened Constants
  import opened Util
  import opened Heightmap
  import opened BoundingBoxes
  import opened QuadTree

  const FaceCount: int := 6

  // ---------------------------------------------------------------------
  // Face selection (FindFaceIndexForUnitVector)
  // ---------------------------------------------------------------------

  /** The first index among dots[..n] holding the largest value: a later
      index only wins when it is strictly larger. */
  function FirstMax(dots: seq<real>, n: nat): (m: nat)
    requires 1 <= n <= |dots|
    ensures m < n
  {
    if n == 1 then 0
    else
      var m := FirstMax(dots, n - 1);
      if dots[n - 1] > dots[m] then n - 1 else m
  }

  lemma {:induction false} FirstMaxIsFirstMaximum(dots: seq<real>, n: nat)
    requires 1 <= n <= |dots|
    ensures forall j | 0 <= j < n :: dots[j] <= dots[FirstMax(dots, n)]
    ensures forall j | 0 <= j < FirstMax(dots, n) :: dots[j] < dots[FirstMax(dots, n)]
  {
    if n > 1 {
      FirstMaxIsFirstMaximum(dots, n - 1);
    }
  }

  /** The face whose up axis is closest to the direction. */
  function FaceOf(dots: seq<real>): (f: nat)
    requires |dots| == FaceCount
    ensures f < FaceCount
  {
    FirstMax(dots, FaceCount)
  }

  /** The face is the only index that is maximal and strictly above every
      index before it. */
  lemma FaceOfIsUniqueFirstMaximum(dots: seq<real>, i: int)
    requires |dots| == FaceCount && 0 <= i < FaceCount
    ensures FaceOf(dots) == i <==>
      (forall j | 0 <= j < FaceCount :: dots[j] <= dots[i]) && (forall j | 0 <= j < i :: dots[j] < dots[i])
  {
    FirstMaxIsFirstMaximum(dots, FaceCount);
  }

  /** FindFaceIndexForUnitVector: a running maximum over the six faces,
      replaced only on a strictly larger dot product. */
  method FindFaceIndexForUnitVector(dots: seq<real>) returns (maxI: int)
    requires |dots| == FaceCount
    ensures maxI == FaceOf(dots)
    ensures 0 <= maxI < FaceCount && forall j | 0 <= j < FaceCount :: dots[j] <= dots[maxI]
    ensures forall j | 0 <= j < maxI :: dots[j] < dots[maxI]
  {
    maxI := 0;
    var maxDot := 0.0;
    var i := 0;
    while i < FaceCount
      invariant 0 <= i <= FaceCount
      invariant 1 <= i ==> maxI == FirstMax(dots, i) && maxDot == dots[maxI]
    {
      var dot := dots[i];
      if i == 0 || dot > maxDot {
        maxI := i;
        maxDot := dot;
      }
      i := i + 1;
    }
    FirstMaxIsFirstMaximum(dots, FaceCount);
  }

  // ---------------------------------------------------------------------
  // Projection onto a face (Get2DCoordinatesOnFace)
  // ---------------------------------------------------------------------

  function Scaled(p: Vec3, k: real): Vec3
  {
    Vec3(p.x * k, p.y * k, p.z * k)
  }

  /** One heightmap coordinate of a point in a face's local frame: the
      component scaled by RADIUS / y onto the plane y = RADIUS, then shifted
      by TERRAIN_PLANE_OFFSET. */
  function PlaneCoordinate(a: real, y: real): real
    requires y != 0.0
  {
    a * (Radius as real / y) - TerrainPlaneOffset as real
  }

  /** The heightmap coordinates of a point in a face's local frame. With
      y = 0 the division yields no finite coordinate. */
  function ProjectOntoFace(p: Vec3): (r: Option<(real, real)>)
    ensures r.Some? <==> p.y != 0.0
  {
    if p.y == 0.0 then None
    else Some((PlaneCoordinate(p.x, p.y), PlaneCoordinate(p.z, p.y)))
  }

  /** Scaling the point leaves each coordinate unchanged. */
  lemma PlaneCoordinateOfScaled(a: real, y: real, k: real)
    requires y != 0.0 && k != 0.0
    ensures PlaneCoordinate(a * k, y * k) == PlaneCoordinate(a, y)
  {
    var R := Radius as real;
    assert (a * k) * (R / (y * k)) * (y * k) == a * k * R;
    assert a * (R / y) * y == a * R;
    calc {
      (a * k) * (R / (y * k)) * y * k;
      a * (R / y) * y * k;
    }
  }

  /** The projection cancels any rescaling of the local point, so the
      vec3.normalize calls before it do not change the face coordinates. */
  lemma ProjectionIgnoresNormalisation(p: Vec3, k: real)
    requires k != 0.0
    ensures ProjectOntoFace(Scaled(p, k)) == ProjectOntoFace(p)
  {
    var q := Scaled(p, k);
    if p.y != 0.0 {
      assert q.y != 0.0;
      PlaneCoordinateOfScaled(p.x, p.y, k);
      PlaneCoordinateOfScaled(p.z, p.y, k);
      var u := PlaneCoordinate(p.x, p.y);
      var v := PlaneCoordinate(p.z, p.y);
      assert PlaneCoordinate(q.x, q.y) == u;
      assert PlaneCoordinate(q.z, q.y) == v;
      assert ProjectOntoFace(q) == Some((u, v));
      assert ProjectOntoFace(p) == Some((u, v));
    } else {
      assert q.y == 0.0;
    }
  }

  /** The face coordinates of a query point. */
  function FaceCoordinates(dots: seq<real>, locals: seq<Vec3>): Option<(real, real)>
    requires |dots| == FaceCount && |locals| == FaceCount
  {
    ProjectOntoFace(locals[FaceOf(dots)])
  }

  // ---------------------------------------------------------------------
  // The Gaussian kernel of GetSmoothedHeightAt
  // ---------------------------------------------------------------------

  const KernelWidth: int := 3

  /** The offsets (j, k) that cursor position c of the 3 x 3 kernel stands
      for: j runs in the outer loop, k in the inner one. */
  function KernelJ(c: int): int { c / KernelWidth - 1 }
  function KernelK(c: int): int { c % KernelWidth - 1 }

  function SquaredRadius(c: int): int
  {
    KernelJ(c) * KernelJ(c) + KernelK(c) * KernelK(c)
  }

  /** Sum of a sequence, accumulated front to back. */
  function Sum(s: seq<real>): (r: real)
    ensures (forall i | 0 <= i < |s| :: s[i] > 0.0) && |s| > 0 ==> r > 0.0
    ensures (forall i | 0 <= i < |s| :: s[i] >= 0.0) ==> r >= 0.0
  {
    if |s| == 0 then 0.0 else Sum(s[..|s| - 1]) + s[|s| - 1]
  }

  /** Every element divided by d, front to back. */
  function DivAll(s: seq<real>, d: real): (r: seq<real>)
    requires d != 0.0
    ensures |r| == |s|
  {
    if |s| == 0 then [] else DivAll(s[..|s| - 1], d) + [s[|s| - 1] / d]
  }

  lemma {:induction false} DivAllAt(s: seq<real>, d: real)
    requires d != 0.0
    ensures forall i | 0 <= i < |s| :: DivAll(s, d)[i] == s[i] / d
  {
    if |s| > 0 {
      DivAllAt(s[..|s| - 1], d);
    }
  }

  lemma DivAdd(a: real, b: real, d: real)
    requires d != 0.0
    ensures (a + b) / d == a / d + b / d
  {
    assert (a / d + b / d) * d == a + b;
  }

  lemma {:induction false} SumDivAll(s: seq<real>, d: real)
    requires d != 0.0
    ensures Sum(DivAll(s, d)) == Sum(s) / d
  {
    if |s| > 0 {
      var n := |s| - 1;
      var r := DivAll(s, d);
      assert r[..n] == DivAll(s[..n], d);
      SumDivAll(s[..n], d);
      DivAdd(Sum(s[..n]), s[n], d);
    }
  }

  /** The coefficients before normalisation: exp(-(j*j + k*k) / 2) at each
      cursor position. */
  function RawKernel(exp: real -> real): (r: seq<real>)
    ensures |r| == KernelWidth * KernelWidth
  {
    seq(KernelWidth * KernelWidth, c => exp(-(SquaredRadius(c) as real) / 2.0))
  }

  /** The normalised 3 x 3 kernel. */
  function Kernel(exp: real -> real): (r: seq<real>)
    requires forall t :: exp(t) > 0.0
    ensures |r| == KernelWidth * KernelWidth
  {
    var raw := RawKernel(exp);
    DivAll(raw, Sum(raw))
  }

  /** Nine positive weights that add up to 1 and depend only on the squared
      distance j*j + k*k of their offset. */
  lemma KernelIsNormalisedGaussian(exp: real -> real)
    requires forall t :: exp(t) > 0.0
    ensures Sum(Kernel(exp)) == 1.0
    ensures forall c | 0 <= c < 9 :: Kernel(exp)[c] > 0.0
    ensures forall c, c' | 0 <= c < 9 && 0 <= c' < 9 && SquaredRadius(c) == SquaredRadius(c') ::
      Kernel(exp)[c] == Kernel(exp)[c']
  {
    var raw := RawKernel(exp);
    assert forall c | 0 <= c < 9 :: raw[c] > 0.0;
    var total := Sum(raw);
    SumDivAll(raw, total);
    DivSelf(total);
    KernelWeights(exp);
  }

  /** Each weight is its raw coefficient over the positive total, so it is
      positive and shared by the offsets at the same squared distance. */
  lemma KernelWeights(exp: real -> real)
    requires forall t :: exp(t) > 0.0
    ensures forall c | 0 <= c < 9 :: Kernel(exp)[c] > 0.0
    ensures forall c, c' | 0 <= c < 9 && 0 <= c' < 9 && SquaredRadius(c) == SquaredRadius(c') ::
      Kernel(exp)[c] == Kernel(exp)[c']
  {
    var raw := RawKernel(exp);
    assert forall c | 0 <= c < 9 :: raw[c] > 0.0;
    var total := Sum(raw);
    DivAllAt(raw, total);
    forall c | 0 <= c < 9
      ensures Kernel(exp)[c] > 0.0
    {
      DivPositive(raw[c], total);
    }
    forall c, c' | 0 <= c < 9 && 0 <= c' < 9 && SquaredRadius(c) == SquaredRadius(c')
      ensures Kernel(exp)[c] == Kernel(exp)[c']
    {
      assert raw[c] == raw[c'];
    }
  }

  lemma DivSelf(d: real)
    requires d > 0.0
    ensures d / d == 1.0
  {
  }

  lemma DivPositive(a: real, d: real)
    requires a > 0.0 && d > 0.0
    ensures a / d > 0.0
  {
  }

  /** The kernel as built once when GetSmoothedHeightAt is defined: a fill
      pass that also sums, then a backwards pass dividing by the sum. */
  method GaussCoeffs(exp: real -> real) returns (coeffs: array<real>)
    requires forall t :: exp(t) > 0.0
    ensures fresh(coeffs) && coeffs[..] == Kernel(exp)
  {
    var sum;
    coeffs, sum := FillRawKernel(exp);
    assert forall c | 0 <= c < 9 :: coeffs[c] > 0.0;
    DivideAll(coeffs, sum);
  }

  /** The fill pass: exp(-(j*j + k*k) / 2) at each cursor position, and
      their sum. */
  method FillRawKernel(exp: real -> real) returns (coeffs: array<real>, sum: real)
    ensures fresh(coeffs) && coeffs[..] == RawKernel(exp) && sum == Sum(RawKernel(exp))
  {
    ghost var raw := RawKernel(exp);
    coeffs := new real[KernelWidth * KernelWidth];
    var range := KernelWidth / 2;
    sum := 0.0;
    var j := -range;
    var cursor := 0;
    while j <= range
      invariant -1 <= j <= 2 && cursor == 3 * (j + 1)
      invariant coeffs[..cursor] == raw[..cursor] && sum == Sum(raw[..cursor])
    {
      cursor, sum := FillKernelRow(exp, coeffs, j, cursor, sum);
      j := j + 1;
    }
    assert coeffs[..] == coeffs[..9];
    assert raw[..9] == raw;
  }

  /** The inner loop of the fill pass: row j of the kernel. */
  method FillKernelRow(exp: real -> real, coeffs: array<real>, j: int, cursor0: int, sum0: real)
    returns (cursor: int, sum: real)
    requires coeffs.Length == 9 && -1 <= j <= 1 && cursor0 == 3 * (j + 1)
    requires coeffs[..cursor0] == RawKernel(exp)[..cursor0] && sum0 == Sum(RawKernel(exp)[..cursor0])
    modifies coeffs
    ensures cursor == cursor0 + 3
    ensures coeffs[..cursor] == RawKernel(exp)[..cursor] && sum == Sum(RawKernel(exp)[..cursor])
  {
    ghost var raw := RawKernel(exp);
    var range := KernelWidth / 2;
    cursor, sum := cursor0, sum0;
    var k := -range;
    while k <= range
      invariant -1 <= k <= 2 && cursor == cursor0 + (k + 1)
      invariant coeffs[..cursor] == raw[..cursor] && sum == Sum(raw[..cursor])
    {
      var coeff := exp(-((j * j + k * k) as real) / 2.0);
      RawKernelAt(exp, cursor, j, k);
      assert raw[..cursor + 1] == raw[..cursor] + [coeff];
      sum := sum + coeff;
      coeffs[cursor] := coeff;
      assert coeffs[..cursor + 1] == coeffs[..cursor] + [coeff];
      k := k + 1;
      cursor := cursor + 1;
    }
  }

  /** Cursor position 3 * (j + 1) + (k + 1) holds the coefficient of (j, k). */
  lemma RawKernelAt(exp: real -> real, cursor: int, j: int, k: int)
    requires -1 <= j <= 1 && -1 <= k <= 1 && cursor == 3 * (j + 1) + (k + 1)
    ensures RawKernel(exp)[cursor] == exp(-((j * j + k * k) as real) / 2.0)
  {
    assert KernelJ(cursor) == j && KernelK(cursor) == k;
  }

  /** The normalising pass, last element first. */
  method DivideAll(coeffs: array<real>, sum: real)
    requires sum != 0.0
    modifies coeffs
    ensures coeffs[..] == DivAll(old(coeffs[..]), sum)
  {
    ghost var raw := coeffs[..];
    DivAllAt(raw, sum);
    var i := coeffs.Length - 1;
    while i >= 0
      invariant -1 <= i < coeffs.Length
      invariant forall c | 0 <= c <= i :: coeffs[c] == raw[c]
      invariant forall c | i < c < coeffs.Length :: coeffs[c] == raw[c] / sum
    {
      coeffs[i] := coeffs[i] / sum;
      i := i - 1;
    }
  }

  // ---------------------------------------------------------------------
  // The weighted average of GetSmoothedHeightAt
  // ---------------------------------------------------------------------

  /** sum of kernel[c] * samples[c], front to back; a missing sample (NaN in
      the engine) makes the whole sum missing. */
  function WeightedSum(kernel: seq<real>, samples: seq<Option<real>>): (r: Option<real>)
    requires |kernel| == |samples|
    ensures r.Some? <==> forall c | 0 <= c < |samples| :: samples[c].Some?
  {
    if |samples| == 0 then Some(0.0)
    else
      var n := |samples| - 1;
      Accumulate(WeightedSum(kernel[..n], samples[..n]), kernel[n], samples[n])
  }

  /** smoothed_height += coeff * sample, where NaN absorbs everything. */
  function Accumulate(acc: Option<real>, coeff: real, sample: Option<real>): (r: Option<real>)
    ensures r.Some? <==> acc.Some? && sample.Some?
  {
    if acc.Some? && sample.Some? then Some(acc.value + coeff * sample.value) else None
  }

  /** Adding one weighted sample at least lo keeps a running sum at least
      lo times the running weight; likewise for at most hi. */
  lemma AboveStep(lo: real, total: real, acc: real, coeff: real, v: real, total': real, acc': real)
    requires lo * total <= acc && coeff >= 0.0 && lo <= v
    requires total' == total + coeff && acc' == acc + coeff * v
    ensures lo * total' <= acc'
  {
    assert coeff * lo <= coeff * v;
    assert lo * (total + coeff) == lo * total + coeff * lo;
  }

  lemma BelowStep(hi: real, total: real, acc: real, coeff: real, v: real, total': real, acc': real)
    requires acc <= hi * total && coeff >= 0.0 && v <= hi
    requires total' == total + coeff && acc' == acc + coeff * v
    ensures acc' <= hi * total'
  {
    assert coeff * v <= coeff * hi;
    assert hi * (total + coeff) == hi * total + coeff * hi;
  }

  /** One more term of the weighted sum. */
  lemma WeightedSumStep(kernel: seq<real>, samples: seq<Option<real>>, n: int)
    requires |kernel| == |samples| && 0 <= n < |samples|
    ensures WeightedSum(kernel[..n + 1], samples[..n + 1]) ==
      Accumulate(WeightedSum(kernel[..n], samples[..n]), kernel[n], samples[n])
  {
    assert kernel[..n + 1][..n] == kernel[..n];
    assert samples[..n + 1][..n] == samples[..n];
  }

  /** With non-negative weights, the weighted sum of samples at least lo
      is at least lo times the total weight. */
  lemma {:induction false} WeightedSumAbove(kernel: seq<real>, samples: seq<Option<real>>, lo: real)
    requires |kernel| == |samples|
    requires forall c | 0 <= c < |samples| :: kernel[c] >= 0.0 && samples[c].Some? && lo <= samples[c].value
    ensures WeightedSum(kernel, samples).Some? && lo * Sum(kernel) <= WeightedSum(kernel, samples).value
  {
    if |samples| > 0 {
      var n := |samples| - 1;
      WeightedSumAbove(kernel[..n], samples[..n], lo);
      WeightedSumAboveStep(kernel, samples, n, lo);
    }
  }

  lemma WeightedSumAboveStep(kernel: seq<real>, samples: seq<Option<real>>, n: int, lo: real)
    requires |kernel| == |samples| && n == |samples| - 1 >= 0
    requires kernel[n] >= 0.0 && samples[n].Some? && lo <= samples[n].value &&
      WeightedSum(kernel[..n], samples[..n]).Some? && lo * Sum(kernel[..n]) <= WeightedSum(kernel[..n], samples[..n]).value
    ensures WeightedSum(kernel, samples).Some? && lo * Sum(kernel) <= WeightedSum(kernel, samples).value
  {
    var total, acc, coeff, v := Sum(kernel[..n]), WeightedSum(kernel[..n], samples[..n]).value, kernel[n], samples[n].value;
    WeightedSumLast(kernel, samples, n);
    SumLast(kernel, n);
    AboveStep(lo, total, acc, coeff, v, total + coeff, acc + coeff * v);
  }

  /** With non-negative weights, the weighted sum of samples at most hi is
      at most hi times the total weight. */
  lemma {:induction false} WeightedSumBelow(kernel: seq<real>, samples: seq<Option<real>>, hi: real)
    requires |kernel| == |samples|
    requires forall c | 0 <= c < |samples| :: kernel[c] >= 0.0 && samples[c].Some? && samples[c].value <= hi
    ensures WeightedSum(kernel, samples).Some? && WeightedSum(kernel, samples).value <= hi * Sum(kernel)
  {
    if |samples| > 0 {
      var n := |samples| - 1;
      WeightedSumBelow(kernel[..n], samples[..n], hi);
      WeightedSumBelowStep(kernel, samples, n, hi);
    }
  }

  lemma WeightedSumBelowStep(kernel: seq<real>, samples: seq<Option<real>>, n: int, hi: real)
    requires |kernel| == |samples| && n == |samples| - 1 >= 0
    requires kernel[n] >= 0.0 && samples[n].Some? && samples[n].value <= hi &&
      WeightedSum(kernel[..n], samples[..n]).Some? && WeightedSum(kernel[..n], samples[..n]).value <= hi * Sum(kernel[..n])
    ensures WeightedSum(kernel, samples).Some? && WeightedSum(kernel, samples).value <= hi * Sum(kernel)
  {
    var total, acc, coeff, v := Sum(kernel[..n]), WeightedSum(kernel[..n], samples[..n]).value, kernel[n], samples[n].value;
    WeightedSumLast(kernel, samples, n);
    SumLast(kernel, n);
    BelowStep(hi, total, acc, coeff, v, total + coeff, acc + coeff * v);
  }

  lemma WeightedSumLast(kernel: seq<real>, samples: seq<Option<real>>, n: int)
    requires |kernel| == |samples| && n == |samples| - 1 >= 0
    ensures WeightedSum(kernel, samples) ==
      Accumulate(WeightedSum(kernel[..n], samples[..n]), kernel[n], samples[n])
  {
    WeightedSumStep(kernel, samples, n);
    assert kernel[..n + 1] == kernel && samples[..n + 1] == samples;
  }

  lemma SumLast(s: seq<real>, n: int)
    requires n == |s| - 1 >= 0
    ensures Sum(s) == Sum(s[..n]) + s[n]
  {
  }

  /** Spacing of the smoothing samples, in heightmap texels. */
  const SampleDelta: real := 1.0

  /** The height lookup of one face root (GetHeightAt of the quadtree node):
      what the smoothing and the tree query sample. */
  type HeightField = (real, real) -> Option<real>

  function FaceHeight(heightMaps: seq<Image>, face: int): (f: HeightField)
    requires |heightMaps| >= 2
    ensures forall x, y :: f(x, y) == HeightAt(heightMaps[CubeFaceIdxToHeightmapIdx(face)], x, y)
  {
    (x: real, y: real) => NodeHeightAt(heightMaps, face, x, y)
  }

  /** The nine heights the smoothing reads: the face root's height at the
      query coordinates offset by SAMPLE_DELTA * (j, k). */
  function Samples(height: HeightField, x: real, y: real): (r: seq<Option<real>>)
    ensures |r| == KernelWidth * KernelWidth
  {
    seq(KernelWidth * KernelWidth, c => height(x + SampleDelta * KernelJ(c) as real, y + SampleDelta * KernelK(c) as real))
  }

  /** Cursor position 3 * (j + 1) + (k + 1) holds the sample at offset
      (j, k). */
  lemma SamplesAt(height: HeightField, x: real, y: real, cursor: int, j: int, k: int)
    requires -1 <= j <= 1 && -1 <= k <= 1 && cursor == 3 * (j + 1) + (k + 1)
    ensures Samples(height, x, y)[cursor] == height(x + SampleDelta * j as real, y + SampleDelta * k as real)
  {
    assert KernelJ(cursor) == j && KernelK(cursor) == k;
  }

  /** The smoothed height is a weighted average: it lies between the least
      and the greatest sample, and is c wherever all nine samples are c. */
  lemma SmoothedIsAverage(exp: real -> real, samples: seq<Option<real>>, lo: real, hi: real)
    requires forall t :: exp(t) > 0.0
    requires |samples| == 9
    requires forall c | 0 <= c < 9 :: samples[c].Some? && lo <= samples[c].value <= hi
    ensures WeightedSum(Kernel(exp), samples).Some?
    ensures lo <= WeightedSum(Kernel(exp), samples).value <= hi
    ensures lo == hi ==> WeightedSum(Kernel(exp), samples) == Some(lo)
  {
    KernelIsNormalisedGaussian(exp);
    AverageBetween(Kernel(exp), samples, lo, hi);
  }

  /** Weights that are non-negative and add up to 1 average samples in
      [lo, hi] to a value in [lo, hi]. */
  lemma AverageBetween(kernel: seq<real>, samples: seq<Option<real>>, lo: real, hi: real)
    requires |kernel| == |samples| && Sum(kernel) == 1.0
    requires forall c | 0 <= c < |samples| :: kernel[c] >= 0.0 && samples[c].Some? && lo <= samples[c].value <= hi
    ensures WeightedSum(kernel, samples).Some?
    ensures lo <= WeightedSum(kernel, samples).value <= hi
  {
    WeightedSumAbove(kernel, samples, lo);
    WeightedSumBelow(kernel, samples, hi);
    TimesOne(lo, Sum(kernel));
    TimesOne(hi, Sum(kernel));
  }

  lemma TimesOne(a: real, s: real)
    requires s == 1.0
    ensures a * s == a
  {
  }

  // ---------------------------------------------------------------------
  // Tree anchors (GetTreesInRadius)
  // ---------------------------------------------------------------------

  /** A tree found by the query: its tree-map texel and the face root's
      height at the texel's heightmap position. The world-space anchor
      built from them is not modelled. */
  datatype TreeAnchor = TreeAnchor(x: int, y: int, height: Option<real>)

  /** The texel rectangle [xmin, xmax) x [ymin, ymax) that is scanned. */
  datatype Window = Window(xmin: int, xmax: int, ymin: int, ymax: int)

  /** floor(clamp(0, size, c - r)) and ceil(clamp(0, size, c + r)) on each
      axis. */
  function ScanWindow(w: nat, h: nat, cx: real, cy: real, r: real): (win: Window)
    ensures 0 <= win.xmin <= w && 0 <= win.xmax <= w
    ensures 0 <= win.ymin <= h && 0 <= win.ymax <= h
    ensures r >= 0.0 ==> win.xmin <= win.xmax && win.ymin <= win.ymax
  {
    Window(Clamp(0.0, w as real, cx - r).Floor, Ceil(Clamp(0.0, w as real, cx + r)),
           Clamp(0.0, h as real, cy - r).Floor, Ceil(Clamp(0.0, h as real, cy + r)))
  }

  /** Texel (x, y) is a tree within the radius: not farther than r2 in
      squared distance from the centre, and its first channel is 0. */
  predicate TreeHit(img: Image, cx: real, cy: real, r2: real, x: int, y: int)
  {
    (x as real - cx) * (x as real - cx) + (y as real - cy) * (y as real - cy) <= r2 &&
    ByteAt(img, (y * img.width + x) * 4) == Some(0)
  }

  /** The parameters of one query, after the projection. */
  datatype Query = Query(cx: real, cy: real, r2: real, win: Window)

  function AnchorAt(height: HeightField, x: int, y: int): TreeAnchor
  {
    TreeAnchor(x, y, height(x as real * SizeRatio, y as real * SizeRatio))
  }

  /** The anchors of row y for x in [xmin, xe). */
  function RowTrees(img: Image, height: HeightField, q: Query, y: int, xe: int): (r: seq<TreeAnchor>)
    decreases xe - q.win.xmin
  {
    if xe <= q.win.xmin then []
    else
      RowTrees(img, height, q, y, xe - 1) +
      (if TreeHit(img, q.cx, q.cy, q.r2, xe - 1, y) then [AnchorAt(height, xe - 1, y)] else [])
  }

  /** The anchors of rows [ymin, ye), row by row. */
  function WindowTrees(img: Image, height: HeightField, q: Query, ye: int): (r: seq<TreeAnchor>)
    decreases ye - q.win.ymin
  {
    if ye <= q.win.ymin then []
    else WindowTrees(img, height, q, ye - 1) + RowTrees(img, height, q, ye - 1, q.win.xmax)
  }

  /** One more texel of a row, with the squared distances computed apart. */
  lemma RowTreesStep(img: Image, height: HeightField, q: Query, y: int, x: int, dx: real, dy: real)
    requires q.win.xmin <= x
    requires dx == x as real - q.cx && dy == y as real - q.cy
    ensures RowTrees(img, height, q, y, x + 1) == RowTrees(img, height, q, y, x) +
      (if dx * dx + dy * dy <= q.r2 && ByteAt(img, (y * img.width + x) * 4) == Some(0)
       then [AnchorAt(height, x, y)] else [])
  {
  }

  /** Row-major order of texels. */
  predicate Before(a: TreeAnchor, b: TreeAnchor)
  {
    a.y < b.y || (a.y == b.y && a.x < b.x)
  }

  predicate RowMajor(s: seq<TreeAnchor>)
  {
    forall i, j | 0 <= i < j < |s| :: Before(s[i], s[j])
  }

  /** Everything in a row: a hit at x in [xmin, xe), with its height, once,
      left to right. */
  lemma {:induction false} RowTreesExact(img: Image, height: HeightField, q: Query, y: int, xe: int)
    ensures RowMajor(RowTrees(img, height, q, y, xe))
    ensures forall t | t in RowTrees(img, height, q, y, xe) ::
      t.y == y && q.win.xmin <= t.x < xe && t == AnchorAt(height, t.x, y)
    ensures forall x | q.win.xmin <= x < xe ::
      (TreeHit(img, q.cx, q.cy, q.r2, x, y) <==> AnchorAt(height, x, y) in RowTrees(img, height, q, y, xe))
    decreases xe - q.win.xmin
  {
    if xe > q.win.xmin {
      RowTreesExact(img, height, q, y, xe - 1);
    }
  }

  /** Everything in the window: exactly the hits in it, each once, in
      row-major order. */
  lemma {:induction false} WindowTreesExact(img: Image, height: HeightField, q: Query, ye: int)
    ensures RowMajor(WindowTrees(img, height, q, ye))
    ensures forall t | t in WindowTrees(img, height, q, ye) ::
      q.win.ymin <= t.y < ye && q.win.xmin <= t.x < q.win.xmax &&
      TreeHit(img, q.cx, q.cy, q.r2, t.x, t.y) && t == AnchorAt(height, t.x, t.y)
    ensures forall x, y | q.win.xmin <= x < q.win.xmax && q.win.ymin <= y < ye ::
      (TreeHit(img, q.cx, q.cy, q.r2, x, y) <==> AnchorAt(height, x, y) in WindowTrees(img, height, q, ye))
    decreases ye - q.win.ymin
  {
    if ye > q.win.ymin {
      var prev := WindowTrees(img, height, q, ye - 1);
      var row := RowTrees(img, height, q, ye - 1, q.win.xmax);
      WindowTreesExact(img, height, q, ye - 1);
      RowTreesExact(img, height, q, ye - 1, q.win.xmax);
      forall x, y | q.win.xmin <= x < q.win.xmax && q.win.ymin <= y < ye
        ensures TreeHit(img, q.cx, q.cy, q.r2, x, y) <==> AnchorAt(height, x, y) in prev + row
      {
        if y < ye - 1 {
          assert AnchorAt(height, x, y) !in row;
        } else {
          assert AnchorAt(height, x, y) !in prev;
        }
      }
      forall i, j | 0 <= i < j < |prev + row|
        ensures Before((prev + row)[i], (prev + row)[j])
      {
        if i < |prev| && |prev| <= j {
          assert (prev + row)[i] in prev;
          assert (prev + row)[j] in row;
        }
      }
    }
  }

  /** The query of GetTreesInRadius at face coordinates (fx, fy): centre and
      radius in tree-map texels, and the window clamped to the tree map. */
  function QueryAt(treeMap: Image, fx: real, fy: real, radius: real): Query
  {
    var scaledRadius := radius / SizeRatio;
    var cx := fx / SizeRatio;
    var cy := fy / SizeRatio;
    Query(cx, cy, scaledRadius * scaledRadius,
          ScanWindow(treeMap.width, treeMap.height, cx, cy, scaledRadius))
  }

  /** A tree-map texel exactly on the right end of the disc passes the
      distance test but lies outside the half-open window, so it is never
      reported: at centre (0, 0) and radius 1 texel, texel (1, 0). */
  lemma RightmostTexelOfDiscNotScanned(treeMap: Image)
    requires treeMap.width >= 2 && treeMap.height >= 1
    ensures var q := QueryAt(treeMap, 0.0, 0.0, SizeRatio);
      (1.0 - q.cx) * (1.0 - q.cx) + (0.0 - q.cy) * (0.0 - q.cy) <= q.r2 && q.win.xmax == 1
  {
  }

  // ---------------------------------------------------------------------
  // The planet
  // ---------------------------------------------------------------------

  /** The inner loop of GetTreesInRadius: one row of the window, appended
      to the trees found so far. */
  method ScanRow(treeImage: Image, faceHeight: HeightField, q: Query, y: int, yd: real, ghost dy: real,
                 above: seq<TreeAnchor>)
    returns (trees: seq<TreeAnchor>)
    requires dy == y as real - q.cy && yd == dy * dy
    ensures trees == above + RowTrees(treeImage, faceHeight, q, y, q.win.xmax)
  {
    trees := above;
    var x := q.win.xmin;
    while x < q.win.xmax
      invariant x == q.win.xmin || q.win.xmin <= x <= q.win.xmax
      invariant trees == above + RowTrees(treeImage, faceHeight, q, y, x)
      decreases q.win.xmax - x
    {
      var xd := x as real - q.cx;
      RowTreesStep(treeImage, faceHeight, q, y, x, xd, dy);
      xd := xd * xd;
      if xd + yd > q.r2 {
        x := x + 1;
        continue;
      }
      if ByteAt(treeImage, (y * treeImage.width + x) * 4) == Some(0) {
        var height := faceHeight(x as real * SizeRatio, y as real * SizeRatio);
        trees := trees + [TreeAnchor(x, y, height)];
      }
      x := x + 1;
    }
  }

  /** The outer loop of GetTreesInRadius: the rows of the window, top to
      bottom. */
  method ScanRows(treeImage: Image, faceHeight: HeightField, q: Query) returns (trees: seq<TreeAnchor>)
    ensures trees == WindowTrees(treeImage, faceHeight, q, q.win.ymax)
  {
    trees := [];
    var y := q.win.ymin;
    while y < q.win.ymax
      invariant y == q.win.ymin || q.win.ymin <= y <= q.win.ymax
      invariant trees == WindowTrees(treeImage, faceHeight, q, y)
      decreases q.win.ymax - y
    {
      var yd := y as real - q.cy;
      ghost var dy := yd;
      yd := yd * yd;
      trees := ScanRow(treeImage, faceHeight, q, y, yd, dy, trees);
      y := y + 1;
    }
  }

  class Terrain {
    /** app.GetHeightMap(i), i = 0, 1. */
    const heightMaps: seq<Image>
    const tileCount: int
    /** face_anchors[i].children[0]: the quadtree root of face i. */
    const faces: seq<Node>
    /** gauss_coeffs, and the exponential it was computed with. */
    const exp: real -> real
    const kernel: seq<real>

    /** Six roots covering whole faces, face i with cube face index i and
        mirrored exactly for i >= 3; the kernel is the normalised one. */
    ghost predicate FaceRoots()
    {
      |heightMaps| >= 2 && |faces| == FaceCount &&
      (forall i | 0 <= i < FaceCount ::
        faces[i].x == 0 && faces[i].y == 0 && faces[i].w == tileCount && faces[i].tileCount == tileCount &&
        faces[i].cubeFaceIdx == i && faces[i].isBack == (i >= 3)) &&
      (forall t :: exp(t) > 0.0) && kernel == Kernel(exp)
    }

    /** init: one root node (0, 0, TILE_COUNT) per face, built in order. */
    constructor (tileCount: int, exp: real -> real, cache: BoundingBoxCache)
      requires cache.Valid() && Fits(cache.heightMaps, tileCount)
      requires forall t :: exp(t) > 0.0
      modifies cache
      ensures FaceRoots() && heightMaps == cache.heightMaps && this.tileCount == tileCount
      ensures forall i | 0 <= i < FaceCount ::
        fresh(faces[i]) && faces[i].Valid() && faces[i].subQuads == [] && faces[i].drawTile == null
      ensures cache.Valid()
    {
      var roots: seq<Node> := [];
      var i := 0;
      while i < FaceCount
        invariant 0 <= i <= FaceCount && |roots| == i
        invariant cache.Valid()
        invariant forall j | 0 <= j < i ::
          roots[j].x == 0 && roots[j].y == 0 && roots[j].w == tileCount && roots[j].tileCount == tileCount &&
          roots[j].cubeFaceIdx == j && roots[j].isBack == (j >= 3)
        invariant forall j | 0 <= j < i ::
          fresh(roots[j]) && roots[j].Valid() && roots[j].subQuads == [] && roots[j].drawTile == null
      {
        var isBack := i >= 3;
        assert Placed(cache.heightMaps[CubeFaceIdxToHeightmapIdx(i)], 0, 0, tileCount);
        var face := new Node(0, 0, tileCount, isBack, i, tileCount, cache);
        roots := roots + [face];
        i := i + 1;
      }
      var coeffs := GaussCoeffs(exp);
      this.heightMaps := cache.heightMaps;
      this.tileCount := tileCount;
      this.faces := roots;
      this.exp := exp;
      this.kernel := coeffs[..];
    }

    /** Get2DCoordinatesOnFace. */
    method Get2DCoordinatesOnFace(dots: seq<real>, locals: seq<Vec3>) returns (r: Option<(real, real)>)
      requires |dots| == FaceCount && |locals| == FaceCount
      ensures r == FaceCoordinates(dots, locals)
      ensures r.Some? <==> locals[FaceOf(dots)].y != 0.0
    {
      var faceIdx := FindFaceIndexForUnitVector(dots);
      r := ProjectOntoFace(locals[faceIdx]);
    }

    /** The height under a point: the bilinear height of the chosen face's
        root at the face coordinates, by the same steps as
        Get2DCoordinatesOnFace. */
    method GetHeightAt(dots: seq<real>, locals: seq<Vec3>) returns (h: Option<real>)
      requires FaceRoots() && |dots| == FaceCount && |locals| == FaceCount
      ensures FaceCoordinates(dots, locals).None? ==> h.None?
      ensures FaceCoordinates(dots, locals).Some? ==>
        h == HeightAt(heightMaps[CubeFaceIdxToHeightmapIdx(FaceOf(dots))],
                      FaceCoordinates(dots, locals).value.0, FaceCoordinates(dots, locals).value.1)
    {
      var faceIdx := FindFaceIndexForUnitVector(dots);
      var p := ProjectOntoFace(locals[faceIdx]);
      if p.None? {
        return None;
      }
      h := NodeHeightAt(heightMaps, faces[faceIdx].cubeFaceIdx, p.value.0, p.value.1);
    }

    /** GetSmoothedHeightAt: the kernel-weighted sum of the nine heights
        around the face coordinates, accumulated in cursor order. */
    method GetSmoothedHeightAt(dots: seq<real>, locals: seq<Vec3>) returns (h: Option<real>)
      requires FaceRoots() && |dots| == FaceCount && |locals| == FaceCount
      ensures FaceCoordinates(dots, locals).None? ==> h.None?
      ensures FaceCoordinates(dots, locals).Some? ==>
        h == WeightedSum(Kernel(exp), Samples(FaceHeight(heightMaps, FaceOf(dots)),
                         FaceCoordinates(dots, locals).value.0, FaceCoordinates(dots, locals).value.1))
    {
      var faceIdx := FindFaceIndexForUnitVector(dots);
      var p := ProjectOntoFace(locals[faceIdx]);
      if p.None? {
        return None;
      }
      h := SmoothedSum(FaceHeight(heightMaps, faces[faceIdx].cubeFaceIdx), p.value.0, p.value.1);
    }

    /** The accumulation loop of GetSmoothedHeightAt around (xSamplePos,
        ySamplePos), sampling the face root's `height`. */
    method SmoothedSum(height: HeightField, xSamplePos: real, ySamplePos: real) returns (h: Option<real>)
      requires |kernel| == KernelWidth * KernelWidth
      ensures h == WeightedSum(kernel, Samples(height, xSamplePos, ySamplePos))
    {
      ghost var samples := Samples(height, xSamplePos, ySamplePos);
      var range := KernelWidth / 2;
      var smoothed: Option<real> := Some(0.0);
      var j := -range;
      var cursor := 0;
      while j <= range
        invariant -1 <= j <= 2 && cursor == 3 * (j + 1)
        invariant smoothed == WeightedSum(kernel[..cursor], samples[..cursor])
      {
        var k := -range;
        while k <= range
          invariant -1 <= k <= 2 && cursor == 3 * (j + 1) + (k + 1)
          invariant smoothed == WeightedSum(kernel[..cursor], samples[..cursor])
        {
          var sample := height(xSamplePos + SampleDelta * j as real, ySamplePos + SampleDelta * k as real);
          SamplesAt(height, xSamplePos, ySamplePos, cursor, j, k);
          WeightedSumStep(kernel, samples, cursor);
          smoothed := Accumulate(smoothed, kernel[cursor], sample);
          k := k + 1;
          cursor := cursor + 1;
        }
        j := j + 1;
      }
      assert kernel[..9] == kernel && samples[..9] == samples;
      h := smoothed;
    }

    /** The trees of GetTreesInRadius around the face coordinates of a
        point. The tree map consulted is always app.GetTreeMap(0), whatever
        the face. */
    function TreesInRadius(dots: seq<real>, locals: seq<Vec3>, treeMaps: seq<Image>, radius: real): seq<TreeAnchor>
      requires FaceRoots() && |dots| == FaceCount && |locals| == FaceCount && |treeMaps| >= 1
    {
      var coords := FaceCoordinates(dots, locals);
      if coords.None? then []
      else
        var q := QueryAt(treeMaps[0], coords.value.0, coords.value.1, radius);
        WindowTrees(treeMaps[0], FaceHeight(heightMaps, FaceOf(dots)), q, q.win.ymax)
    }

    /** GetTreesInRadius: scan the clamped window row by row, skip texels
        outside the disc, and report each tree texel with the height under
        it. */
    method GetTreesInRadius(dots: seq<real>, locals: seq<Vec3>, treeMaps: seq<Image>, radius: real)
      returns (trees: seq<TreeAnchor>)
      requires FaceRoots() && |dots| == FaceCount && |locals| == FaceCount && |treeMaps| >= 1
      ensures trees == TreesInRadius(dots, locals, treeMaps, radius)
    {
      var faceCoords := Get2DCoordinatesOnFace(dots, locals);
      var faceIdx := FindFaceIndexForUnitVector(dots);
      var treeImage := treeMaps[0];
      trees := [];
      if faceCoords.None? {
        return;
      }
      var q := QueryAt(treeImage, faceCoords.value.0, faceCoords.value.1, radius);
      var faceHeight := FaceHeight(heightMaps, faces[faceIdx].cubeFaceIdx);
      trees := ScanRows(treeImage, faceHeight, q);
    }
  }

  /** The trees of a query are exactly the tree texels of the window that
      lie within the radius, each once, in row-major order, each with the
      chosen face's height at its heightmap position. */
  lemma TreesInRadiusExact(t: Terrain, dots: seq<real>, locals: seq<Vec3>, treeMaps: seq<Image>, radius: real)
    requires t.FaceRoots() && |dots| == FaceCount && |locals| == FaceCount && |treeMaps| >= 1
    requires FaceCoordinates(dots, locals).Some?
    ensures var c := FaceCoordinates(dots, locals).value;
      var q := QueryAt(treeMaps[0], c.0, c.1, radius);
      var trees := t.TreesInRadius(dots, locals, treeMaps, radius);
      RowMajor(trees) &&
      (forall a | a in trees :: q.win.ymin <= a.y < q.win.ymax && q.win.xmin <= a.x < q.win.xmax &&
        TreeHit(treeMaps[0], q.cx, q.cy, q.r2, a.x, a.y) &&
        a.height == HeightAt(t.heightMaps[CubeFaceIdxToHeightmapIdx(FaceOf(dots))], a.x as real * SizeRatio, a.y as real * SizeRatio)) &&
      (forall x, y | q.win.xmin <= x < q.win.xmax && q.win.ymin <= y < q.win.ymax ::
        TreeHit(treeMaps[0], q.cx, q.cy, q.r2, x, y) <==> AnchorAt(FaceHeight(t.heightMaps, FaceOf(dots)), x, y) in trees)
  {
    var c := FaceCoordinates(dots, locals).value;
    var q := QueryAt(treeMaps[0], c.0, c.1, radius);
    var h := FaceHeight(t.heightMaps, FaceOf(dots));
    var trees := WindowTrees(treeMaps[0], h, q, q.win.ymax);
    assert t.TreesInRadius(dots, locals, treeMaps, radius) == trees;
    WindowTreesExact(treeMaps[0], h, q, q.win.ymax);
    forall a | a in trees
      ensures a.height == HeightAt(t.heightMaps[CubeFaceIdxToHeightmapIdx(FaceOf(dots))],
                                   a.x as real * SizeRatio, a.y as real * SizeRatio)
    {
      assert a == AnchorAt(h, a.x, a.y);
    }
  }
}
