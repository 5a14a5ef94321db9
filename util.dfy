/** The application-independent helpers of src/util.js, and the few pieces of
    JavaScript number semantics (int32 wrap-around, truncating `%`, `1 << n`)
    that the terrain code relies on. */
module Util {
  import opened Constants

  datatype Option<T> = None | Some(value: T)

  // ---------------------------------------------------------------------
  // JavaScript number semantics
  // ---------------------------------------------------------------------

  const Two31: int := 0x8000_0000
  const Two32: int := 0x1_0000_0000

  /** ECMAScript ToInt32 on an integral value: wrap into [-2^31, 2^31). */
  function ToInt32(n: int): (r: int)
    ensures -Two31 <= r < Two31
    ensures (r - n) % Two32 == 0
    ensures -Two31 <= n < Two31 ==> r == n
  {
    var m := n % Two32;
    if m >= Two31 then m - Two32 else m
  }

  /** Two integers congruent modulo 2^32 wrap to the same int32. */
  lemma ToInt32Congruent(a: int, b: int)
    requires (a - b) % Two32 == 0
    ensures ToInt32(a) == ToInt32(b)
  {
    var k := (a - b) / Two32;
    assert a == b + k * Two32;
    ModAddMultiple(b, k);
  }

  lemma ModAddMultiple(b: int, k: int)
    ensures (b + k * Two32) % Two32 == b % Two32
  {
  }

  /** JavaScript's `%` on integers: the remainder takes the dividend's sign.
      With the range, the congruence fixes the value: a - r is a multiple of
      b, and r lies in (-b, 0] for a negative dividend. */
  function JsRem(a: int, b: int): (r: int)
    requires b > 0
    ensures 0 <= a ==> 0 <= r < b && r == a % b
    ensures a < 0 ==> -b < r <= 0
    ensures (a - r) % b == 0
  {
    RemCongruent(a, b);
    if a >= 0 then a % b else -((-a) % b)
  }

  /** Both branches of JsRem leave a multiple of b behind. */
  lemma RemCongruent(a: int, b: int)
    requires b > 0
    ensures (a - a % b) % b == 0
    ensures (a + (-a) % b) % b == 0
  {
    var q, p := a / b, (-a) / b;
    assert a - a % b == q * b;
    MultipleOf(a - a % b, q, b);
    assert -a - (-a) % b == p * b;
    NegMultiple(p, b);
    MultipleOf(a + (-a) % b, -p, b);
  }

  lemma NegMultiple(p: int, b: int)
    ensures -(p * b) == (-p) * b
  {
  }

  /** A multiple n = k * b of b leaves no remainder. */
  lemma MultipleOf(n: int, k: int, b: int)
    requires b > 0 && n == k * b
    ensures n % b == 0
  {
    var q, r := n / b, n % b;
    assert n == q * b + r && 0 <= r < b;
    assert (k - q) * b == r;
    if k - q >= 1 {
      MulAtLeast(k - q, b);
    } else if k - q <= -1 {
      MulAtLeast(q - k, b);
    }
  }

  /** A positive multiple of a positive b is at least b. */
  lemma MulAtLeast(a: int, b: int)
    requires 1 <= a && 0 < b
    ensures a * b >= b
  {
    assert a * b == (a - 1) * b + b;
    assert (a - 1) * b >= 0;
  }

  /** Math.ceil on a real. */
  function Ceil(x: real): (r: int)
    ensures r as real >= x && (r - 1) as real < x
  {
    -((-x).Floor)
  }

  /** JavaScript's `x | 0`: truncate toward zero, then wrap to int32. */
  function TruncToInt32(x: real): (r: int)
    ensures -Two31 <= r < Two31
    ensures 0.0 <= x < Two31 as real ==> r == x.Floor
  {
    ToInt32(if x >= 0.0 then x.Floor else -((-x).Floor))
  }

  function Pow2(k: nat): (r: int)
    ensures r >= 1
  {
    if k == 0 then 1 else 2 * Pow2(k - 1)
  }

  /** JavaScript's `1 << n`: the shift count is taken modulo 32 and the
      result is an int32. */
  function ShiftLeftOne(n: int): (r: int)
    ensures -Two31 <= r < Two31
    ensures 0 <= n < 31 ==> r == Pow2(n)
  {
    if 0 <= n < 31 then
      Pow2Increasing(n, 31);
      Pow2Of31();
      ToInt32(Pow2(n % 32))
    else
      ToInt32(Pow2(n % 32))
  }

  lemma {:induction false} Pow2Increasing(i: nat, j: nat)
    requires i < j
    ensures Pow2(i) < Pow2(j)
  {
    if i + 1 < j {
      Pow2Increasing(i, j - 1);
    }
  }

  lemma {:induction false} Pow2Add(a: nat, b: nat)
    ensures Pow2(a + b) == Pow2(a) * Pow2(b)
  {
    if a > 0 {
      Pow2Add(a - 1, b);
    }
  }

  lemma Pow2Of31()
    ensures Pow2(31) == Two31
  {
    assert Pow2(8) == 256;
    Pow2Add(8, 8);
    Pow2Add(16, 8);
    Pow2Add(24, 7);
    assert Pow2(7) == 128;
  }

  /** Tile widths are powers of two. */
  predicate IsPow2(n: int)
    decreases if n > 0 then n else 0
  {
    n == 1 || (n > 1 && n % 2 == 0 && IsPow2(n / 2))
  }

  /** log2 of a power of two, exact (the source computes it as
      Math.log(w) / Math.log(2)). */
  function Log2(n: int): (k: nat)
    requires IsPow2(n)
    ensures Pow2(k) == n
    decreases if n > 0 then n else 0
  {
    if n == 1 then 0 else 1 + Log2(n / 2)
  }

  lemma {:induction false} Log2OfPow2(k: nat)
    ensures IsPow2(Pow2(k)) && Log2(Pow2(k)) == k
  {
    if k > 0 {
      Log2OfPow2(k - 1);
      assert Pow2(k) / 2 == Pow2(k - 1);
    }
  }

  /** The smallest k with n <= 2^k: for an integer n >= 1 this is the k for
      which Math.floor(m - Math.log(n) / Math.log(2)) == m - k, whatever the
      integer m (for a power of two log2 is exact, otherwise it lies strictly
      between k - 1 and k). */
  function CeilLog2(n: int): (k: nat)
    requires n >= 1
    ensures n <= Pow2(k)
    ensures k > 0 ==> Pow2(k - 1) < n
    decreases n
  {
    if n == 1 then 0 else 1 + CeilLog2((n + 1) / 2)
  }

  /** On powers of two the rounded-up log2 is the exact one. */
  lemma CeilLog2OfPow2(n: int)
    requires IsPow2(n)
    ensures CeilLog2(n) == Log2(n)
  {
    var k, c := Log2(n), CeilLog2(n);
    if c < k {
      Pow2Increasing(c, k);
    } else if k < c {
      Pow2Increasing(k, c - 1);
    }
  }

  // ---------------------------------------------------------------------
  // Scalar helpers
  // ---------------------------------------------------------------------

  /** Math.min / Math.max on reals (NaN is not modelled). */
  function Min(a: real, b: real): (r: real)
    ensures r <= a && r <= b && (r == a || r == b)
  {
    if b < a then b else a
  }

  function Max(a: real, b: real): (r: real)
    ensures r >= a && r >= b && (r == a || r == b)
  {
    if b > a then b else a
  }

  /** lerp(a, b, f) = a + (b - a) * f. */
  function Lerp(a: real, b: real, f: real): (r: real)
    ensures f == 0.0 ==> r == a
    ensures f == 1.0 ==> r == b
    ensures 0.0 <= f <= 1.0 ==> Min(a, b) <= r <= Max(a, b)
  {
    LerpBetween(a, b, f);
    a + (b - a) * f
  }

  lemma LerpBetween(a: real, b: real, f: real)
    ensures 0.0 <= f <= 1.0 && a <= b ==> a <= a + (b - a) * f <= b
    ensures 0.0 <= f <= 1.0 && b <= a ==> b <= a + (b - a) * f <= a
  {
    if 0.0 <= f <= 1.0 {
      MulNonNegative(if a <= b then b - a else a - b, f);
      MulNonNegative(if a <= b then b - a else a - b, 1.0 - f);
    }
  }

  lemma MulNonNegative(x: real, y: real)
    requires 0.0 <= x && 0.0 <= y
    ensures 0.0 <= x * y
  {
  }

  /** clamp(xmin, xmax, x) = Math.min(xmax, Math.max(xmin, x)). */
  function Clamp(xmin: real, xmax: real, x: real): (r: real)
    ensures xmin <= xmax ==> xmin <= r <= xmax
    ensures xmin <= x <= xmax ==> r == x
    ensures r <= xmax
    ensures x <= xmin <= xmax ==> r == xmin
    ensures xmax <= x ==> r == xmax
  {
    Min(xmax, Max(xmin, x))
  }

  lemma ClampMonotone(xmin: real, xmax: real, x1: real, x2: real)
    requires x1 <= x2
    ensures Clamp(xmin, xmax, x1) <= Clamp(xmin, xmax, x2)
  {
  }

  /** saturate(x) = Math.min(1, Math.max(0, x)). */
  function Saturate(x: real): (r: real)
    ensures 0.0 <= r <= 1.0
    ensures 0.0 <= x <= 1.0 ==> r == x
    ensures x <= 0.0 ==> r == 0.0
    ensures 1.0 <= x ==> r == 1.0
  {
    Min(1.0, Max(0.0, x))
  }

  lemma SaturateIdempotent(x: real)
    ensures Saturate(Saturate(x)) == Saturate(x)
    ensures Saturate(x) == Clamp(0.0, 1.0, x)
  {
  }

  // ---------------------------------------------------------------------
  // Continuous level of detail
  // ---------------------------------------------------------------------

  /** A function is monotone on the positive reals (Math.log(x) / Math.log(2)
      is; the model takes log2 as such an abstract function). */
  ghost predicate MonotoneOnPositives(f: real -> real)
  {
    forall a: real, b: real :: 0.0 < a <= b ==> f(a) <= f(b)
  }

  /** The shape shared by every copy of calc_clod: the log2 of the scaled
      squared distance, halved, attenuated, clamped to [0, CountLodLevels-1]. */
  function Clod(sqDistance: real, distanceScale: real, lodAttenuation: real, log2: real -> real): (r: real)
    ensures 0.0 <= r <= (CountLodLevels - 1) as real
  {
    Clamp(0.0, (CountLodLevels - 1) as real, log2(sqDistance * distanceScale) * 0.5 * lodAttenuation)
  }

  /** calc_clod of src/util.js: sq_distance is divided by 64*64. */
  function CalcClod(sqDistance: real, lodAttenuation: real, log2: real -> real): (r: real)
    ensures 0.0 <= r <= (CountLodLevels - 1) as real
    ensures r == Clod(sqDistance, 1.0 / (64.0 * 64.0), lodAttenuation, log2)
  {
    var logDistance := log2(sqDistance / (64.0 * 64.0)) * 0.5 * lodAttenuation;
    assert sqDistance / (64.0 * 64.0) == sqDistance * (1.0 / (64.0 * 64.0));
    Clamp(0.0, (CountLodLevels - 1) as real, logDistance)
  }

  /** The copy of calc_clod in src/app.js: a different distance constant,
      and the clamp written as Math.max(0, Math.min(..)). */
  function AppCalcClod(sqDistance: real, lodAttenuation: real, log2: real -> real): (r: real)
    ensures 0.0 <= r <= (CountLodLevels - 1) as real
    ensures r == Clod(sqDistance, 3.0 / (16.0 * 16.0), lodAttenuation, log2)
  {
    var logDistance := log2(sqDistance * 3.0 / (16.0 * 16.0)) * 0.5 * lodAttenuation;
    assert sqDistance * 3.0 / (16.0 * 16.0) == sqDistance * (3.0 / (16.0 * 16.0));
    Max(0.0, Min((CountLodLevels - 1) as real, logDistance))
  }

  /** The CLOD is non-decreasing in the distance, whatever the positive
      distance constant, as long as the attenuation is not negative. */
  lemma ClodMonotone(d1: real, d2: real, distanceScale: real, lodAttenuation: real, log2: real -> real)
    requires 0.0 < d1 <= d2 && 0.0 < distanceScale && 0.0 <= lodAttenuation
    requires MonotoneOnPositives(log2)
    ensures Clod(d1, distanceScale, lodAttenuation, log2) <= Clod(d2, distanceScale, lodAttenuation, log2)
  {
    var s1, s2 := d1 * distanceScale, d2 * distanceScale;
    assert 0.0 < s1 <= s2;
    var l1, l2 := log2(s1), log2(s2);
    assert l1 <= l2;
    var k := 0.5 * lodAttenuation;
    assert l1 * 0.5 * lodAttenuation == l1 * k && l2 * 0.5 * lodAttenuation == l2 * k;
    assert (l2 - l1) * k >= 0.0;
    ClampMonotone(0.0, (CountLodLevels - 1) as real, l1 * k, l2 * k);
  }

  lemma CalcClodMonotone(d1: real, d2: real, lodAttenuation: real, log2: real -> real)
    requires 0.0 < d1 <= d2 && 0.0 <= lodAttenuation
    requires MonotoneOnPositives(log2)
    ensures CalcClod(d1, lodAttenuation, log2) <= CalcClod(d2, lodAttenuation, log2)
    ensures AppCalcClod(d1, lodAttenuation, log2) <= AppCalcClod(d2, lodAttenuation, log2)
  {
    ClodMonotone(d1, d2, 1.0 / (64.0 * 64.0), lodAttenuation, log2);
    ClodMonotone(d1, d2, 3.0 / (16.0 * 16.0), lodAttenuation, log2);
  }

  // ---------------------------------------------------------------------
  // Interpolation and geometry
  // ---------------------------------------------------------------------

  /** Catmull-Rom style cubic through p1 (at x = 0) and p2 (at x = 1). */
  function CubicInterp1d(p0: real, p1: real, p2: real, p3: real, x: real): (r: real)
    ensures x == 0.0 ==> r == p1
    ensures x == 1.0 ==> r == p2
  {
    p1 + 0.5 * x * (p2 - p0 + x * (2.0 * p0 - 5.0 * p1 + 4.0 * p2 - p3 + x * (3.0 * (p1 - p2) + p3 - p0)))
  }

  datatype Vec3 = Vec3(x: real, y: real, z: real)

  function Sub(a: Vec3, b: Vec3): Vec3
  {
    Vec3(a.x - b.x, a.y - b.y, a.z - b.z)
  }

  function Dot(a: Vec3, b: Vec3): real
  {
    a.x * b.x + a.y * b.y + a.z * b.z
  }

  /** vec3.lerp(p0, p1, u). */
  function Lerp3(p0: Vec3, p1: Vec3, u: real): Vec3
  {
    Vec3(Lerp(p0.x, p1.x, u), Lerp(p0.y, p1.y, u), Lerp(p0.z, p1.z, u))
  }

  /** The parameter u of the point p0 + u (p1 - p0) of a line that is
      closest to p; None (JavaScript's null) when the line is degenerate. */
  function FindClosestPoint(p0: Vec3, p1: Vec3, p: Vec3): (u: Option<real>)
    ensures u.None? <==> Dot(Sub(p1, p0), Sub(p1, p0)) < 0.0001
    ensures u.Some? ==> Dot(Sub(p, Lerp3(p0, p1, u.value)), Sub(p1, p0)) == 0.0
  {
    var d0, d1, d2 := p1.x - p0.x, p1.y - p0.y, p1.z - p0.z;
    var denom := d0 * d0 + d1 * d1 + d2 * d2;
    if denom < 0.0001 then None
    else
      var n0, n1, n2 := p.x - p0.x, p.y - p0.y, p.z - p0.z;
      var nom := n0 * d0 + n1 * d1 + n2 * d2;
      ClosestIsOrthogonal(p0, p1, p, nom / denom);
      Some(nom / denom)
  }

  lemma ClosestIsOrthogonal(p0: Vec3, p1: Vec3, p: Vec3, u: real)
    requires Dot(Sub(p1, p0), Sub(p1, p0)) >= 0.0001
    requires u == Dot(Sub(p, p0), Sub(p1, p0)) / Dot(Sub(p1, p0), Sub(p1, p0))
    ensures Dot(Sub(p, Lerp3(p0, p1, u)), Sub(p1, p0)) == 0.0
  {
    var d := Sub(p1, p0);
    var n := Sub(p, p0);
    LerpResidual(p0, p1, p, u);
    ResidualDot(n, d, u);
    QuotientCancels(Dot(n, d), Dot(d, d), u);
  }

  lemma QuotientCancels(a: real, b: real, u: real)
    requires b != 0.0 && u == a / b
    ensures a - u * b == 0.0
  {
  }

  lemma LerpResidual(p0: Vec3, p1: Vec3, p: Vec3, u: real)
    ensures var d, n := Sub(p1, p0), Sub(p, p0);
      Sub(p, Lerp3(p0, p1, u)) == Vec3(n.x - u * d.x, n.y - u * d.y, n.z - u * d.z)
  {
    assert Lerp(p0.x, p1.x, u) == p0.x + (p1.x - p0.x) * u;
    assert Lerp(p0.y, p1.y, u) == p0.y + (p1.y - p0.y) * u;
    assert Lerp(p0.z, p1.z, u) == p0.z + (p1.z - p0.z) * u;
  }

  /** (n - u d) . d == n . d - u (d . d) */
  lemma ResidualDot(n: Vec3, d: Vec3, u: real)
    ensures Dot(Vec3(n.x - u * d.x, n.y - u * d.y, n.z - u * d.z), d) == Dot(n, d) - u * Dot(d, d)
  {
    assert (n.x - u * d.x) * d.x == n.x * d.x - u * (d.x * d.x);
    assert (n.y - u * d.y) * d.y == n.y * d.y - u * (d.y * d.y);
    assert (n.z - u * d.z) * d.z == n.z * d.z - u * (d.z * d.z);
  }

  // ---------------------------------------------------------------------
  // string_hash: Java's String.hashCode on UTF-16 code units
  // ---------------------------------------------------------------------

  /** A JavaScript string is a sequence of UTF-16 code units. */
  newtype CodeUnit = c: int | 0 <= c < 0x1_0000

  /** One step of the loop as written: ((hash << 5) - hash) + char, then
      `hash & hash` to convert back to an int32. */
  function HashStep(hash: int, c: CodeUnit): int
  {
    ToInt32(ToInt32(ToInt32(hash) * 32) - hash + c as int)
  }

  /** The value of string_hash: the loop's steps folded over the string. */
  function StringHashOf(s: seq<CodeUnit>): int
  {
    if |s| == 0 then 0 else HashStep(StringHashOf(s[..|s| - 1]), s[|s| - 1])
  }

  /** Java's String.hashCode before truncation: sum of s[i] * 31^(n-1-i). */
  function PolyHash(s: seq<CodeUnit>): int
  {
    if |s| == 0 then 0 else 31 * PolyHash(s[..|s| - 1]) + s[|s| - 1] as int
  }

  /** The shift-and-subtract step is 31 * hash + char wrapped to int32. */
  lemma HashStepIsTimes31(hash: int, c: CodeUnit)
    requires -Two31 <= hash < Two31
    ensures HashStep(hash, c) == ToInt32(31 * hash + c as int)
  {
    var shifted := ToInt32(hash * 32);
    assert (shifted - hash * 32) % Two32 == 0;
    assert (shifted - hash + c as int) - (31 * hash + c as int) == shifted - hash * 32;
    ToInt32Congruent(shifted - hash + c as int, 31 * hash + c as int);
  }

  /** string_hash computes Java's String.hashCode: the polynomial hash
      reduced to int32. */
  lemma {:induction false} StringHashIsJavaHashCode(s: seq<CodeUnit>)
    ensures StringHashOf(s) == ToInt32(PolyHash(s))
  {
    if |s| > 0 {
      var prefix, c := s[..|s| - 1], s[|s| - 1];
      StringHashIsJavaHashCode(prefix);
      var h := StringHashOf(prefix);
      HashStepIsTimes31(h, c);
      assert (h - PolyHash(prefix)) % Two32 == 0;
      assert (31 * h + c as int) - (31 * PolyHash(prefix) + c as int) == 31 * (h - PolyHash(prefix));
      MultipleOfTwo32(h - PolyHash(prefix), 31);
      ToInt32Congruent(31 * h + c as int, 31 * PolyHash(prefix) + c as int);
    }
  }

  lemma MultipleOfTwo32(a: int, m: int)
    requires a % Two32 == 0
    ensures (m * a) % Two32 == 0
  {
    var k := a / Two32;
    assert a == k * Two32;
    assert m * a == (m * k) * Two32;
  }

  /** string_hash(s) as the loop computes it. */
  method StringHash(s: seq<CodeUnit>) returns (hash: int)
    ensures hash == StringHashOf(s)
    ensures hash == ToInt32(PolyHash(s))
    ensures -Two31 <= hash < Two31
    ensures s == [] ==> hash == 0
  {
    hash := 0;
    if |s| == 0 {
      return;
    }
    for i := 0 to |s|
      invariant hash == StringHashOf(s[..i])
    {
      assert s[..i + 1][..i] == s[..i];
      hash := HashStep(hash, s[i]);
    }
    assert s[..|s|] == s;
    StringHashIsJavaHashCode(s);
  }

  // ---------------------------------------------------------------------
  // Heightmap selection
  // ---------------------------------------------------------------------

  /** The cube face that carries the desert heightmap. */
  const DesertIdx: int := 1

  /** Every face but the desert face shares heightmap 0. */
  function CubeFaceIdxToHeightmapIdx(cubeFaceIdx: int): (r: nat)
    ensures r <= 1
    ensures r == 1 <==> cubeFaceIdx == DesertIdx
  {
    if cubeFaceIdx == DesertIdx then 1 else 0
  }
}
