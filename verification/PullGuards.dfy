/** What the guards of string pulling measure, in terms of geometry. */
module PullGuards {
  import opened Results
  import opened Geometry
  import opened StringPull

  // Deviation: the distance from the nearest point of the segment

  lemma ProductGrows(x: real, y: real, k: real)
    requires x < y && k > 0.0
    ensures x * k < y * k
  {
    assert (y - x) * k > 0.0;
  }

  lemma SquaresGrow(x: real, y: real)
    requires 0.0 <= x < y
    ensures x * x < y * y
  {
    ProductGrows(x, y, y);
    assert (y - x) * x >= 0.0;
  }

  lemma RootsOrdered(sqrt: real -> real, x: real, y: real)
    requires IsSqrt(sqrt) && 0.0 <= x <= y
    ensures sqrt(x) <= sqrt(y)
  {
    var r, s := sqrt(x), sqrt(y);
    if s < r { SquaresGrow(s, r); }
  }

  /** How far `p` reaches along the segment from `a` to `b`, times its length. */
  function Along(p: Vec3, a: Vec3, b: Vec3): real {
    (p.x - a.x) * (b.x - a.x) + (p.y - a.y) * (b.y - a.y) + (p.z - a.z) * (b.z - a.z)
  }

  function Product(x: real, y: real): real { x * y }

  /** One coordinate of the squared distance from the point `q` at parameter `t`. */
  lemma Coordinate(p: real, a: real, b: real, t: real, q: real)
    requires q == a + (b - a) * t
    ensures Product(p - q, p - q) ==
            Product(p - a, p - a) - Product(2.0 * t, Product(p - a, b - a)) + Product(t * t, Product(b - a, b - a))
  {
    SquareOfDifference(p - a, b - a, t);
    assert p - q == (p - a) - (b - a) * t;
  }

  lemma SquareOfDifference(u: real, d: real, t: real)
    ensures (u - d * t) * (u - d * t) == u * u - 2.0 * t * (u * d) + t * t * (d * d)
  {
    var v := d * t;
    assert (u - v) * (u - v) == u * u - 2.0 * (u * v) + v * v;
    assert u * v == t * (u * d) && v * v == t * t * (d * d);
  }

  lemma SquaredIs(p: Vec3, q: Vec3)
    ensures SquaredDistance(p, q) ==
            Product(p.x - q.x, p.x - q.x) + Product(p.y - q.y, p.y - q.y) + Product(p.z - q.z, p.z - q.z)
  {
  }

  lemma AlongIs(p: Vec3, a: Vec3, b: Vec3)
    ensures Along(p, a, b) ==
            Product(p.x - a.x, b.x - a.x) + Product(p.y - a.y, b.y - a.y) + Product(p.z - a.z, b.z - a.z)
  {
  }

  lemma Distribute(k: real, x: real, y: real, z: real, sum: real)
    requires sum == x + y + z
    ensures Product(k, x) + Product(k, y) + Product(k, z) == Product(k, sum)
  {
  }

  /** The squared distance from the points of a segment is a parabola in the parameter. */
  lemma Parabola(p: Vec3, a: Vec3, b: Vec3, t: real)
    ensures SquaredDistance(p, Lerp(a, b, t)) ==
            SquaredDistance(p, a) - Product(2.0 * t, Along(p, a, b)) + Product(t * t, SquaredDistance(b, a))
  {
    hide SquaredDistance, Along, Product;
    var q := Lerp(a, b, t);
    Coordinate(p.x, a.x, b.x, t, q.x);
    Coordinate(p.y, a.y, b.y, t, q.y);
    Coordinate(p.z, a.z, b.z, t, q.z);
    SquaredIs(p, q);
    SquaredIs(p, a);
    SquaredIs(b, a);
    AlongIs(p, a, b);
    Distribute(2.0 * t, Product(p.x - a.x, b.x - a.x), Product(p.y - a.y, b.y - a.y), Product(p.z - a.z, b.z - a.z),
               Along(p, a, b));
    Distribute(t * t, Product(b.x - a.x, b.x - a.x), Product(b.y - a.y, b.y - a.y), Product(b.z - a.z, b.z - a.z),
               SquaredDistance(b, a));
  }

  /** The clamped vertex is where a parabola is least on [0, 1]. */
  lemma VertexIsLeast(c: real, m: real, s: real, t: real)
    requires c > 0.0 && s == Clamp01(m / c) && 0.0 <= t <= 1.0
    ensures -2.0 * s * m + s * s * c <= -2.0 * t * m + t * t * c
  {
    var v := m / c;
    assert m == v * c;
    var gap := (t - s) * (c * (t + s) - 2.0 * m);
    assert gap == (t - s) * (c * (t + s)) - (t - s) * (2.0 * m);
    assert (t - s) * (c * (t + s)) == t * t * c - s * s * c by { Squares(t, s, c); }
    assert c * (t + s) - 2.0 * m == c * (t + s - 2.0 * v) by { Factor(c, t + s, v); }
    var slope := t + s - 2.0 * v;
    if v < 0.0 {
      assert s == 0.0 && slope > 0.0;
      Signs(c, t, slope);
    } else if v > 1.0 {
      assert s == 1.0 && slope < 0.0;
      Signs(c, 1.0 - t, -slope);
      assert (t - s) * (c * slope) == (1.0 - t) * (c * -slope) by { Flip(1.0 - t, c, slope); }
    } else {
      assert s == v && slope == t - s;
      SquareIsNoNegative(t - s, c);
    }
    assert gap >= 0.0;
  }

  lemma Squares(t: real, s: real, c: real)
    ensures (t - s) * (c * (t + s)) == t * t * c - s * s * c
  {
    assert (t - s) * (t + s) == t * t - s * s;
    assert (t - s) * (c * (t + s)) == c * ((t - s) * (t + s));
  }

  lemma Factor(c: real, x: real, v: real)
    ensures c * x - 2.0 * (v * c) == c * (x - 2.0 * v)
  {
  }

  lemma Signs(c: real, x: real, y: real)
    requires c > 0.0 && x >= 0.0 && y > 0.0
    ensures x * (c * y) >= 0.0
  {
    assert c * y > 0.0;
  }

  lemma Flip(x: real, c: real, y: real)
    ensures -x * (c * y) == x * (c * -y)
  {
    assert c * -y == -(c * y);
  }

  lemma SquareIsNoNegative(x: real, c: real)
    requires c > 0.0
    ensures x * (c * x) >= 0.0
  {
    assert x * x >= 0.0;
    assert x * (c * x) == c * (x * x);
  }

  /** The deviation of a point is its distance from the nearest point of the segment, its end points included. */
  lemma DeviationIsDistance(nav: Nav, p: Vec3, a: Vec3, b: Vec3, t: real) returns (s: real)
    requires IsSqrt(nav.sqrt) && SquaredDistance(b, a) >= 0.0001 && 0.0 <= t <= 1.0
    ensures 0.0 <= s <= 1.0 && PointDeviation(nav, p, a, b) == Distance(nav, p, Lerp(a, b, s))
    ensures PointDeviation(nav, p, a, b) <= Distance(nav, p, Lerp(a, b, t))
  {
    hide PointDeviation, Lerp, SquaredDistance, Along, IsSqrt;
    s := Clamp01(Along(p, a, b) / SquaredDistance(b, a));
    Nearest(nav, p, a, b);
    NoFarther(p, a, b, s, t);
    NoNegative(p, Lerp(a, b, s));
    RootsOrdered(nav.sqrt, SquaredDistance(p, Lerp(a, b, s)), SquaredDistance(p, Lerp(a, b, t)));
  }

  lemma NoFarther(p: Vec3, a: Vec3, b: Vec3, s: real, t: real)
    requires SquaredDistance(b, a) > 0.0 && s == Clamp01(Along(p, a, b) / SquaredDistance(b, a)) && 0.0 <= t <= 1.0
    ensures SquaredDistance(p, Lerp(a, b, s)) <= SquaredDistance(p, Lerp(a, b, t))
  {
    hide Lerp, SquaredDistance, Along;
    Parabola(p, a, b, s);
    Parabola(p, a, b, t);
    var c, m := SquaredDistance(b, a), Along(p, a, b);
    VertexIsLeast(c, m, s, t);
    assert -2.0 * s * m == -(2.0 * s * m) && -2.0 * t * m == -(2.0 * t * m);
  }

  lemma NoNegative(p: Vec3, q: Vec3)
    ensures SquaredDistance(p, q) >= 0.0
  {
    SumOfSquares(p.x - q.x, p.y - q.y, p.z - q.z);
  }

  lemma Nearest(nav: Nav, p: Vec3, a: Vec3, b: Vec3)
    requires SquaredDistance(b, a) >= 0.0001
    ensures PointDeviation(nav, p, a, b) ==
            Distance(nav, p, Lerp(a, b, Clamp01(Along(p, a, b) / SquaredDistance(b, a))))
  {
    hide Lerp, Distance, Clamp01;
  }

  /** Of a segment that is a point up to rounding only that point counts. */
  lemma DeviationFromPoint(nav: Nav, p: Vec3, a: Vec3, b: Vec3)
    requires SquaredDistance(b, a) < 0.0001
    ensures PointDeviation(nav, p, a, b) == Distance(nav, p, a)
  {
  }

  // Heading: the angle between successive directions, the short way round

  /** The turn is the least of all angles that lead from one heading to the next. */
  lemma TurnIsShortest(nav: Nav, prev: Vec3, curr: Vec3, next: Vec3, k: int) returns (n: int)
    requires AtanInRange(nav.atan2)
    ensures var h1 := nav.atan2(curr.y - prev.y, curr.x - prev.x);
            var h2 := nav.atan2(next.y - curr.y, next.x - curr.x);
            var turn := TurnAt(nav, prev, curr, next);
            && 0.0 <= turn <= PI && turn <= Abs(h2 - h1 + 2.0 * PI * k as real)
            && turn == Abs(h2 - h1 + 2.0 * PI * n as real)
  {
    var h1 := nav.atan2(curr.y - prev.y, curr.x - prev.x);
    var h2 := nav.atan2(next.y - curr.y, next.x - curr.x);
    n := if Abs(h2 - h1) <= PI then 0 else if h2 > h1 then -1 else 1;
    assert -PI <= h1 <= PI && -PI <= h2 <= PI;
    Turns(h2 - h1, k);
  }

  lemma Turns(x: real, k: int)
    requires -2.0 * PI <= x <= 2.0 * PI
    ensures (if Abs(x) <= PI then Abs(x) else 2.0 * PI - Abs(x)) <= Abs(x + 2.0 * PI * k as real)
  {
    if k >= 2 { assert k as real >= 2.0; } else if k <= -2 { assert k as real <= -2.0; }
  }

  /** Turns add up: the change from `a` to `c` is that up to `b`, the turn at `b`, and that from there on. */
  lemma {:induction false} HeadingSplits(nav: Nav, w: seq<Vec3>, a: nat, b: nat, c: nat)
    requires a < b < c < |w|
    ensures HeadingChange(nav, w, a, c) ==
            HeadingChange(nav, w, a, b) + TurnAt(nav, w[b - 1], w[b], w[b + 1]) + HeadingChange(nav, w, b, c)
    ensures HeadingChange(nav, w, a, a + 1) == 0.0
    decreases c - b
  {
    hide TurnAt;
    if b + 1 < c { HeadingSplits(nav, w, a, b, c - 1); }
  }

  // Walls: how densely a line is sampled

  /** Neighbouring samples of a line, its ends included, are at most one unit apart; at least one is inside. */
  lemma SamplesAreDense(nav: Nav, a: Vec3, b: Vec3, i: nat)
    requires IsSqrt(nav.sqrt) && i < WallSteps(nav, a, b)
    ensures var steps := WallSteps(nav, a, b);
            && steps >= 2
            && Distance(nav, Lerp(a, b, i as real / steps as real), Lerp(a, b, (i + 1) as real / steps as real)) <= 1.0
  {
    hide Lerp, Distance, IsSqrt;
    var n := WallSteps(nav, a, b);
    var s, t := i as real / n as real, (i + 1) as real / n as real;
    assert t - s == 1.0 / n as real > 0.0;
    LerpDistance(nav, a, b, s, t);
    assert Distance(nav, a, b) <= n as real;
    Share(Distance(nav, a, b), n as real);
  }

  lemma Share(d: real, n: real)
    requires n > 0.0 && d <= n
    ensures 1.0 / n * d <= 1.0
  {
    assert 1.0 / n * d == d / n <= n / n == 1.0;
  }
}
