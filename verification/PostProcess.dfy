/** Densification: long segments get intermediate points projected to the navmesh. */
module PostProcess {
  import opened Results
  import opened Geometry

  const MAX_SEGMENT_LENGTH: real := 3.0

  /** The projected point at parameter `t` of a segment, if both queries answer. */
  function Snap(nav: Nav, a: Vec3, b: Vec3, t: real): seq<Vec3> {
    var mid := Lerp(a, b, t);
    match nav.nearest(mid, Vec3(HEIGHT_EXTENT, HEIGHT_EXTENT, SegmentZExtent(a, b)))
    case None => []
    case Some((poly, _)) => (match nav.closest(poly, mid) case None => [] case Some(snapped) => [snapped])
  }

  /** The points inserted for the split indices 1 up to, not including, `j`. */
  function MidsUpTo(nav: Nav, a: Vec3, b: Vec3, splits: nat, j: nat): seq<Vec3>
    requires j <= splits
  {
    if j <= 1 then [] else MidsUpTo(nav, a, b, splits, j - 1) + Snap(nav, a, b, (j - 1) as real / splits as real)
  }

  /** `usize::MAX`, to which the cast of an infinite quotient saturates. */
  const USIZE_MAX: nat := 0xFFFF_FFFF_FFFF_FFFF

  function SplitCount(dist: real, maxSegment: real): nat {
    if maxSegment == 0.0 then USIZE_MAX else CeilUsize(dist / maxSegment)
  }

  function Splits(nav: Nav, a: Vec3, b: Vec3, maxSegment: real): nat { SplitCount(Distance(nav, a, b), maxSegment) }

  function Mids(nav: Nav, a: Vec3, b: Vec3, maxSegment: real): seq<Vec3>
  {
    if Distance(nav, a, b) > maxSegment then
      MidsUpTo(nav, a, b, Splits(nav, a, b, maxSegment), Splits(nav, a, b, maxSegment))
    else []
  }

  /** The densified path up to and including waypoint `i`. */
  function Densified(nav: Nav, w: seq<Vec3>, maxSegment: real, i: nat): seq<Vec3>
    requires i < |w|
  {
    if i == 0 then [w[0]]
    else Densified(nav, w, maxSegment, i - 1) + (Mids(nav, w[i - 1], w[i], maxSegment) + [w[i]])
  }

  method DensifySegments(nav: Nav, w: seq<Vec3>, maxSegment: real) returns (result: seq<Vec3>)
    ensures result == if w == [] then [] else Densified(nav, w, maxSegment, |w| - 1)
  {
    hide Densified, Mids, Distance, SplitCount;
    if |w| < 2 {
      if w != [] { DensifiedStart(nav, w, maxSegment); }
      return w;
    }
    result := [w[0]];
    DensifiedStart(nav, w, maxSegment);
    for i := 0 to |w| - 1
      invariant result == Densified(nav, w, maxSegment, i)
    {
      var a, b := w[i], w[i + 1];
      var dist := Distance(nav, a, b);
      MidsCases(nav, a, b, maxSegment);
      ghost var before := result;
      if dist > maxSegment {
        result := InsertMids(nav, a, b, SplitCount(dist, maxSegment), result);
      } else {
        assert result + [] == result;
      }
      result := result + [b];
      DensifiedStep(nav, w, maxSegment, i, before);
    }
  }

  /** The inner loop: one projected point per split. */
  method InsertMids(nav: Nav, a: Vec3, b: Vec3, splits: nat, before: seq<Vec3>) returns (result: seq<Vec3>)
    ensures result == before + MidsUpTo(nav, a, b, splits, splits)
  {
    hide Snap;
    result := before;
    if splits > 0 {
      for j := 1 to splits
        invariant result == before + MidsUpTo(nav, a, b, splits, j)
      {
        ghost var soFar := MidsUpTo(nav, a, b, splits, j);
        var point := Snap(nav, a, b, j as real / splits as real);
        assert (before + soFar) + point == before + (soFar + point);
        result := result + point;
      }
    }
  }

  lemma DensifiedStart(nav: Nav, w: seq<Vec3>, maxSegment: real)
    requires w != []
    ensures Densified(nav, w, maxSegment, 0) == [w[0]] && (|w| == 1 ==> [w[0]] == w)
  {
  }

  lemma MidsCases(nav: Nav, a: Vec3, b: Vec3, maxSegment: real)
    ensures var n := SplitCount(Distance(nav, a, b), maxSegment);
            Mids(nav, a, b, maxSegment) == if Distance(nav, a, b) > maxSegment then MidsUpTo(nav, a, b, n, n) else []
  {
  }

  lemma DensifiedStep(nav: Nav, w: seq<Vec3>, maxSegment: real, i: nat, before: seq<Vec3>)
    requires i + 1 < |w| && before == Densified(nav, w, maxSegment, i)
    ensures Densified(nav, w, maxSegment, i + 1) == (before + Mids(nav, w[i], w[i + 1], maxSegment)) + [w[i + 1]]
  {
    hide Mids;
    assert before + (Mids(nav, w[i], w[i + 1], maxSegment) + [w[i + 1]])
        == (before + Mids(nav, w[i], w[i + 1], maxSegment)) + [w[i + 1]];
  }

  lemma {:induction false} DensifiedEnds(nav: Nav, w: seq<Vec3>, maxSegment: real, i: nat)
    requires i < |w|
    ensures var r := Densified(nav, w, maxSegment, i); r != [] && r[0] == w[0] && r[|r| - 1] == w[i]
    decreases i
  {
    if i > 0 { DensifiedEnds(nav, w, maxSegment, i - 1); }
  }

  /** `a` sits inside `b` at the increasing positions `at`. */
  ghost predicate Embedded(a: seq<Vec3>, b: seq<Vec3>, at: seq<nat>) {
    && |at| == |a|
    && (forall i :: 0 <= i < |at| ==> at[i] < |b| && b[at[i]] == a[i])
    && forall i, j :: 0 <= i < j < |at| ==> at[i] < at[j]
  }

  /** Densifying keeps every waypoint, in order. */
  lemma {:induction false} DensifiedKeeps(nav: Nav, w: seq<Vec3>, maxSegment: real, i: nat) returns (at: seq<nat>)
    requires i < |w|
    ensures Embedded(w[..i + 1], Densified(nav, w, maxSegment, i), at)
    decreases i
  {
    hide Mids;
    if i == 0 {
      at := [0];
    } else {
      var before := DensifiedKeeps(nav, w, maxSegment, i - 1);
      var last := |Densified(nav, w, maxSegment, i)| - 1;
      at := before + [last];
      assert w[..i + 1] == w[..i] + [w[i]];
    }
  }

  /** `q` is the projection of the point at parameter `j / n` of the segment to its nearest polygon. */
  ghost predicate Projected(nav: Nav, a: Vec3, b: Vec3, j: nat, n: nat, q: Vec3) {
    && 1 <= j < n
    && var p := Lerp(a, b, j as real / n as real);
       var found := nav.nearest(p, Vec3(5.0, 5.0, SegmentZExtent(a, b)));
       found.Some? && nav.closest(found.value.0, p) == Some(q)
  }

  /** What is inserted into a segment are the projections of its split points that exist, and nothing else. */
  lemma {:induction false} MidsAreProjected(nav: Nav, a: Vec3, b: Vec3, splits: nat, upto: nat, q: Vec3)
    requires upto <= splits
    ensures q in MidsUpTo(nav, a, b, splits, upto) <==> exists j :: 1 <= j < upto && Projected(nav, a, b, j, splits, q)
    decreases upto
  {
    hide Lerp;
    if upto > 1 {
      MidsAreProjected(nav, a, b, splits, upto - 1, q);
      SnapIs(nav, a, b, upto - 1, splits, q);
    }
  }

  lemma SnapIs(nav: Nav, a: Vec3, b: Vec3, j: nat, n: nat, q: Vec3)
    requires 1 <= j < n
    ensures q in Snap(nav, a, b, j as real / n as real) <==> Projected(nav, a, b, j, n, q)
  {
    hide Lerp;
  }

  /** The projection returns the midpoint itself. */
  ghost predicate FaithfulProjection(nav: Nav, a: Vec3, b: Vec3) {
    forall t :: 0.0 < t < 1.0 ==> Snap(nav, a, b, t) == [Lerp(a, b, t)]
  }

  ghost predicate GapsWithin(nav: Nav, w: seq<Vec3>, limit: real) {
    forall i, j :: 0 <= i < j < |w| && j == i + 1 ==> Distance(nav, w[i], w[j]) <= limit
  }

  lemma {:induction false} MidsAreEven(nav: Nav, a: Vec3, b: Vec3, splits: nat, j: nat)
    requires FaithfulProjection(nav, a, b) && 1 <= j <= splits
    ensures |MidsUpTo(nav, a, b, splits, j)| == j - 1
    ensures forall i :: 0 <= i < j - 1 ==>
              MidsUpTo(nav, a, b, splits, j)[i] == Lerp(a, b, (i + 1) as real / splits as real)
    decreases j
  {
    hide Snap, Lerp;
    if j > 1 {
      MidsAreEven(nav, a, b, splits, j - 1);
      ProperFraction(j - 1, splits);
    }
  }

  lemma ProperFraction(j: nat, n: nat)
    requires 0 < j < n
    ensures 0.0 < j as real / n as real < 1.0
  {
  }

  lemma EvenStep(nav: Nav, a: Vec3, b: Vec3, splits: nat, i: nat, maxSegment: real)
    requires IsSqrt(nav.sqrt) && maxSegment > 0.0 && splits > 0
    requires Distance(nav, a, b) <= maxSegment * splits as real
    ensures Distance(nav, Lerp(a, b, i as real / splits as real), Lerp(a, b, (i + 1) as real / splits as real))
            <= maxSegment
  {
    hide Lerp, Distance, IsSqrt;
    var n := splits as real;
    var s, t := i as real / n, (i + 1) as real / n;
    assert t - s == 1.0 / n by { FractionStep(i, splits); }
    assert t - s > 0.0;
    LerpDistance(nav, a, b, s, t);
    ShareOf(Distance(nav, a, b), n, maxSegment);
  }

  lemma FractionStep(i: nat, n: nat)
    requires n > 0
    ensures (i + 1) as real / n as real - i as real / n as real == 1.0 / n as real
    ensures 1.0 / n as real > 0.0
  {
  }

  lemma ShareOf(d: real, n: real, limit: real)
    requires n > 0.0 && d <= limit * n
    ensures 1.0 / n * d <= limit
  {
    assert 1.0 / n * d == d / n;
    assert d / n <= limit * n / n == limit;
  }

  lemma SplitsCover(nav: Nav, a: Vec3, b: Vec3, maxSegment: real)
    requires maxSegment > 0.0 && Distance(nav, a, b) > maxSegment
    ensures Splits(nav, a, b, maxSegment) >= 2
    ensures Distance(nav, a, b) <= maxSegment * Splits(nav, a, b, maxSegment) as real
  {
    hide Distance;
    var d := Distance(nav, a, b);
    var q := d / maxSegment;
    assert q * maxSegment == d;
    assert q > 1.0;
    assert Ceil(q) as real >= q;
    var n := Splits(nav, a, b, maxSegment);
    assert n as real >= q;
    Scale(q, n as real, maxSegment);
  }

  /** One split less would leave a gap above the limit. */
  lemma SplitsFewest(nav: Nav, a: Vec3, b: Vec3, maxSegment: real)
    requires maxSegment > 0.0 && Distance(nav, a, b) > maxSegment
    ensures maxSegment * (Splits(nav, a, b, maxSegment) - 1) as real < Distance(nav, a, b)
  {
    hide Distance;
    var d := Distance(nav, a, b);
    var q := d / maxSegment;
    Quotient(d, maxSegment);
    CeilBelow(q);
    StrictScale((Splits(nav, a, b, maxSegment) - 1) as real, q, maxSegment);
  }

  lemma Quotient(d: real, k: real)
    requires k > 0.0 && d > k
    ensures d / k * k == d && d / k > 1.0
  {
  }

  lemma CeilBelow(q: real)
    requires q > 1.0
    ensures CeilUsize(q) >= 1 && (CeilUsize(q) - 1) as real < q
  {
  }

  lemma StrictScale(x: real, y: real, k: real)
    requires x < y && k > 0.0
    ensures k * x < y * k
  {
    assert (y - x) * k > 0.0;
    assert (y - x) * k == y * k - k * x;
  }

  lemma Scale(x: real, y: real, k: real)
    requires x <= y && k > 0.0
    ensures x * k <= k * y
  {
    assert (y - x) * k >= 0.0;
    assert (y - x) * k == k * y - x * k;
  }

  lemma LerpEnds(a: Vec3, b: Vec3, n: nat)
    requires n > 0
    ensures Lerp(a, b, 0 as real / n as real) == a && Lerp(a, b, n as real / n as real) == b
  {
    hide Lerp;
    Ratios(n as real);
    LerpAtEnds(a, b);
  }

  lemma Ratios(x: real)
    requires x > 0.0
    ensures 0.0 / x == 0.0 && x / x == 1.0
  {
  }

  lemma LerpAtEnds(a: Vec3, b: Vec3)
    ensures Lerp(a, b, 0.0) == a && Lerp(a, b, 1.0) == b
  {
  }

  /** One densified segment has no gap above the limit. */
  lemma SegmentGaps(nav: Nav, a: Vec3, b: Vec3, maxSegment: real)
    requires IsSqrt(nav.sqrt) && maxSegment > 0.0 && FaithfulProjection(nav, a, b)
    ensures GapsWithin(nav, [a] + (Mids(nav, a, b, maxSegment) + [b]), maxSegment)
  {
    hide Lerp, Distance, IsSqrt, MidsUpTo, Snap, Splits;
    var s := [a] + (Mids(nav, a, b, maxSegment) + [b]);
    if Distance(nav, a, b) > maxSegment {
      var n := Splits(nav, a, b, maxSegment);
      SplitsCover(nav, a, b, maxSegment);
      MidsAreEven(nav, a, b, n, n);
      LerpEnds(a, b, n);
      forall i | 0 <= i <= n ensures s[i] == Lerp(a, b, i as real / n as real) {}
      forall i, j | 0 <= i < j < |s| && j == i + 1 ensures Distance(nav, s[i], s[j]) <= maxSegment {
        EvenStep(nav, a, b, n, i, maxSegment);
      }
    }
  }

  /** When projections return the midpoints themselves, no gap of the densified path exceeds the limit. */
  lemma {:induction false} DensifiedGaps(nav: Nav, w: seq<Vec3>, maxSegment: real, i: nat)
    requires IsSqrt(nav.sqrt) && maxSegment > 0.0 && i < |w|
    requires forall k, l :: 0 <= k < l < |w| && l == k + 1 ==> FaithfulProjection(nav, w[k], w[l])
    ensures GapsWithin(nav, Densified(nav, w, maxSegment, i), maxSegment)
    decreases i
  {
    hide Mids, Distance, IsSqrt, FaithfulProjection;
    if i > 0 {
      DensifiedGaps(nav, w, maxSegment, i - 1);
      DensifiedEnds(nav, w, maxSegment, i - 1);
      SegmentGaps(nav, w[i - 1], w[i], maxSegment);
      JoinGaps(nav, Densified(nav, w, maxSegment, i - 1), Mids(nav, w[i - 1], w[i], maxSegment) + [w[i]], maxSegment);
    }
  }

  lemma JoinGaps(nav: Nav, a: seq<Vec3>, b: seq<Vec3>, limit: real)
    requires a != [] && GapsWithin(nav, a, limit) && GapsWithin(nav, [a[|a| - 1]] + b, limit)
    ensures GapsWithin(nav, a + b, limit)
  {
    hide Distance;
    var c, d := a + b, [a[|a| - 1]] + b;
    forall i, j | 0 <= i < j < |c| && j == i + 1 ensures Distance(nav, c[i], c[j]) <= limit {
      if j >= |a| {
        var k := i - (|a| - 1);
        assert c[i] == d[k] && c[j] == d[k + 1];
      }
    }
  }
}
