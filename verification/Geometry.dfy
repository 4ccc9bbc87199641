/**
 * Points, and the navmesh query as an oracle: arbitrary functions stand for Detour and for the square root and
 * arc tangent. Coordinates are reals. A query error is `None`.
 */
module Geometry {
  import opened Results

  type PolyRef = nat

  datatype Vec3 = Vec3(x: real, y: real, z: real)

  datatype Nav = Nav(
    nearest: (Vec3, Vec3) -> Option<(PolyRef, Vec3)>,
    raycast: (PolyRef, Vec3, Vec3) -> Option<real>,
    closest: (PolyRef, Vec3) -> Option<Vec3>,
    wall: (PolyRef, Vec3, real) -> Option<(real, Vec3)>,
    sqrt: real -> real,
    atan2: (real, real) -> real)

  /** `f32::consts::PI` */
  const PI: real := 3.1415927410125732421875

  ghost predicate IsSqrt(sqrt: real -> real) {
    forall x :: x >= 0.0 ==> sqrt(x) >= 0.0 && sqrt(x) * sqrt(x) == x
  }

  ghost predicate AtanInRange(atan2: (real, real) -> real) { forall y, x :: -PI <= atan2(y, x) <= PI }

  function Abs(x: real): real { if x < 0.0 then -x else x }

  function MaxR(a: real, b: real): real { if a < b then b else a }

  function MinR(a: real, b: real): real { if b < a then b else a }

  /** `x.ceil()` */
  function Ceil(x: real): int { -(-x).Floor }

  /** `x.ceil() as usize`: negative values become 0. */
  function CeilUsize(x: real): nat { if Ceil(x) < 0 then 0 else Ceil(x) }

  function SquaredDistance(a: Vec3, b: Vec3): real {
    (a.x - b.x) * (a.x - b.x) + (a.y - b.y) * (a.y - b.y) + (a.z - b.z) * (a.z - b.z)
  }

  function Distance(nav: Nav, a: Vec3, b: Vec3): real { nav.sqrt(SquaredDistance(a, b)) }

  function Distance2D(nav: Nav, a: Vec3, b: Vec3): real {
    nav.sqrt((a.x - b.x) * (a.x - b.x) + (a.y - b.y) * (a.y - b.y))
  }

  /** The point at parameter `t` of the segment from `a` to `b`. */
  function Lerp(a: Vec3, b: Vec3, t: real): Vec3 {
    Vec3(a.x + (b.x - a.x) * t, a.y + (b.y - a.y) * t, a.z + (b.z - a.z) * t)
  }

  const HEIGHT_EXTENT: real := 5.0

  /** Vertical search range of a segment, clamped to [2, 5]. */
  function SegmentZExtent(a: Vec3, b: Vec3): real { MinR(MaxR(Abs(a.z - b.z) + 1.0, 2.0), 5.0) }

  /** Length of a path: the sum of its segment lengths. */
  function PathDistance(nav: Nav, w: seq<Vec3>): real {
    if |w| < 2 then 0.0 else Distance(nav, w[0], w[1]) + PathDistance(nav, w[1..])
  }

  lemma {:induction false} PathDistanceSnoc(nav: Nav, w: seq<Vec3>, p: Vec3)
    requires w != []
    ensures PathDistance(nav, w + [p]) == PathDistance(nav, w) + Distance(nav, w[|w| - 1], p)
    decreases |w|
  {
    if |w| > 1 {
      PathDistanceSnoc(nav, w[1..], p);
      assert (w + [p])[1..] == w[1..] + [p];
    }
  }

  lemma SquareRootUnique(x: real, y: real)
    requires x >= 0.0 && y >= 0.0 && x * x == y * y
    ensures x == y
  {
    assert (x - y) * (x + y) == 0.0;
    if x + y != 0.0 { assert x - y == 0.0; }
  }

  lemma LerpSquared(a: Vec3, b: Vec3, s: real, t: real)
    ensures SquaredDistance(Lerp(a, b, s), Lerp(a, b, t)) == (t - s) * (t - s) * SquaredDistance(a, b)
  {
    hide Lerp;
    var p, q := Lerp(a, b, s), Lerp(a, b, t);
    LerpDifferences(a, b, s, t);
    SumScales(p.x - q.x, p.y - q.y, p.z - q.z, t - s, a.x - b.x, a.y - b.y, a.z - b.z);
  }

  lemma LerpDifferences(a: Vec3, b: Vec3, s: real, t: real)
    ensures var p, q := Lerp(a, b, s), Lerp(a, b, t);
            && p.x - q.x == (t - s) * (a.x - b.x)
            && p.y - q.y == (t - s) * (a.y - b.y)
            && p.z - q.z == (t - s) * (a.z - b.z)
  {
    ScaledDifference(a.x, b.x, s, t);
    ScaledDifference(a.y, b.y, s, t);
    ScaledDifference(a.z, b.z, s, t);
  }

  lemma SumScales(dx: real, dy: real, dz: real, k: real, x: real, y: real, z: real)
    requires dx == k * x && dy == k * y && dz == k * z
    ensures dx * dx + dy * dy + dz * dz == k * k * (x * x + y * y + z * z)
  {
    SquaresScale(x, y, z, k);
  }

  lemma RootScales(sqrt: real -> real, k: real, square: real, scaledSquare: real)
    requires IsSqrt(sqrt) && k >= 0.0 && square >= 0.0 && scaledSquare == k * k * square >= 0.0
    ensures sqrt(scaledSquare) == k * sqrt(square)
  {
    var root, scaled := sqrt(square), sqrt(scaledSquare);
    ProductOfRoots(k, root, square);
    SquareRootUnique(scaled, k * root);
  }

  /** Two points of a segment are as far apart as their parameters, scaled by its length. */
  lemma LerpDistance(nav: Nav, a: Vec3, b: Vec3, s: real, t: real)
    requires IsSqrt(nav.sqrt) && s <= t
    ensures Distance(nav, Lerp(a, b, s), Lerp(a, b, t)) == (t - s) * Distance(nav, a, b)
  {
    hide Lerp, IsSqrt;
    var p, q := Lerp(a, b, s), Lerp(a, b, t);
    LerpSquared(a, b, s, t);
    SumOfSquares(a.x - b.x, a.y - b.y, a.z - b.z);
    SumOfSquares(p.x - q.x, p.y - q.y, p.z - q.z);
    RootScales(nav.sqrt, t - s, SquaredDistance(a, b), SquaredDistance(p, q));
  }

  lemma ScaledDifference(a: real, b: real, s: real, t: real)
    ensures (a + (b - a) * s) - (a + (b - a) * t) == (t - s) * (a - b)
  {
    assert (b - a) * s - (b - a) * t == (b - a) * (s - t);
    assert (b - a) * (s - t) == (t - s) * (a - b);
  }

  lemma SquaresScale(x: real, y: real, z: real, k: real)
    ensures (k * x) * (k * x) + (k * y) * (k * y) + (k * z) * (k * z) == k * k * (x * x + y * y + z * z)
  {
    assert (k * x) * (k * x) == k * k * (x * x);
    assert (k * y) * (k * y) == k * k * (y * y);
    assert (k * z) * (k * z) == k * k * (z * z);
  }

  lemma SumOfSquares(x: real, y: real, z: real)
    ensures x * x + y * y + z * z >= 0.0
  {
  }

  lemma ProductOfRoots(k: real, root: real, square: real)
    requires k >= 0.0 && root >= 0.0 && root * root == square
    ensures k * root >= 0.0 && (k * root) * (k * root) == k * k * square
  {
    assert (k * root) * (k * root) == k * k * (root * root);
  }
}
