/** Wall clearance: offset points where a path comes too close to a wall. */
module WallClearance {
  import opened Results
  import opened Geometry

  // Sample parameters of a segment

  /** `start`, `start + spacing`, ... below `limit`. */
  function Steps(start: real, spacing: real, limit: real): seq<real>
    requires spacing > 0.0
    decreases if start < limit then ((limit - start) / spacing).Floor + 1 else 0
  {
    if start < limit then
      StepsShrink(start, spacing, limit);
      [start] + Steps(start + spacing, spacing, limit)
    else []
  }

  lemma StepsShrink(start: real, spacing: real, limit: real)
    requires spacing > 0.0 && start < limit
    ensures ((limit - (start + spacing)) / spacing).Floor == ((limit - start) / spacing).Floor - 1
    ensures ((limit - start) / spacing).Floor >= 0
  {
    var q := (limit - start) / spacing;
    assert q * spacing == limit - start;
    assert limit - (start + spacing) == (q - 1.0) * spacing;
    DivideBack(limit - (start + spacing), q - 1.0, spacing);
    var next := (limit - (start + spacing)) / spacing;
    assert next == q - 1.0;
    assert next.Floor == q.Floor - 1 by { FloorLess(q); }
    assert q > 0.0;
  }

  lemma FloorLess(q: real)
    ensures (q - 1.0).Floor == q.Floor - 1
  {
  }

  lemma DivideBack(x: real, y: real, k: real)
    requires k > 0.0 && x == y * k
    ensures x / k == y
  {
  }

  /** The sample number `i` of a loop. */
  function StepAt(start: real, spacing: real, i: nat): real { start + i as real * spacing }

  lemma OneStepOn(start: real, spacing: real, i: nat)
    ensures StepAt(start + spacing, spacing, i) == StepAt(start, spacing, i + 1)
    ensures StepAt(start, spacing, 0) == start
  {
    assert (i + 1) as real * spacing == i as real * spacing + spacing;
  }

  lemma StepsUnfold(start: real, spacing: real, limit: real)
    requires spacing > 0.0
    ensures Steps(start, spacing, limit) ==
            if start < limit then [start] + Steps(start + spacing, spacing, limit) else []
  {
  }

  /** A sampling loop visits the multiples of its spacing from its start on that are below its limit. */
  lemma {:induction false} StepsAre(start: real, spacing: real, limit: real)
    requires spacing > 0.0
    ensures var ts := Steps(start, spacing, limit);
            && (forall i :: 0 <= i < |ts| ==> ts[i] == StepAt(start, spacing, i) < limit)
            && StepAt(start, spacing, |ts|) >= limit
    decreases if start < limit then ((limit - start) / spacing).Floor + 1 else 0
  {
    hide Steps, StepAt;
    StepsUnfold(start, spacing, limit);
    OneStepOn(start, spacing, 0);
    if start < limit {
      StepsShrink(start, spacing, limit);
      StepsAre(start + spacing, spacing, limit);
      var rest, ts := Steps(start + spacing, spacing, limit), Steps(start, spacing, limit);
      forall i | 0 <= i < |ts| ensures ts[i] == StepAt(start, spacing, i) < limit {
        if i > 0 {
          assert ts[i] == rest[i - 1];
          OneStepOn(start, spacing, i - 1);
        }
      }
      OneStepOn(start, spacing, |rest|);
    }
  }

  datatype Spacing = Spacing(dense: real, normal: real, zone: real)

  function SpacingOf(clearance: real, segLen: real): Spacing
    requires segLen > 0.0
  {
    Spacing(0.5 / segLen, MaxR(clearance, 1.0) / segLen, MinR(clearance / segLen, 0.3))
  }

  /** Dense near the start, normal in the middle, dense near the end. */
  function SampleTs(s: Spacing): seq<real>
    requires s.dense > 0.0 && s.normal > 0.0
  {
    Steps(s.dense, s.dense, MinR(s.zone, 0.5))
      + Steps(MaxR(s.zone, s.normal), s.normal, 1.0 - s.zone)
      + Steps(MaxR(1.0 - s.zone, 0.5), s.dense, 1.0 - s.dense * 0.5)
  }

  method CollectSamples(clearance: real, segLen: real) returns (ts: seq<real>)
    requires clearance > 0.0 && segLen >= 0.01
    ensures SpacingPositive(SpacingOf(clearance, segLen))
    ensures ts == SampleTs(SpacingOf(clearance, segLen))
  {
    SpacingIsPositive(clearance, segLen);
    var denseZone := MinR(clearance / segLen, 0.3);
    var dense := 0.5 / segLen;
    var normal := MaxR(clearance, 1.0) / segLen;
    var first := CollectSteps(dense, dense, denseZone, 0.5);
    var middle := CollectSteps(MaxR(denseZone, normal), normal, 1.0 - denseZone, 1.0 - denseZone);
    var last := CollectSteps(MaxR(1.0 - denseZone, 0.5), dense, 1.0 - dense * 0.5, 1.0 - dense * 0.5);
    ts := first + middle + last;
  }

  /** One sampling loop; it ends because every turn moves on by the spacing. */
  method CollectSteps(start: real, spacing: real, limit: real, bound: real) returns (ts: seq<real>)
    requires spacing > 0.0
    ensures ts == Steps(start, spacing, MinR(limit, bound))
  {
    ts := [];
    var t := start;
    ghost var upto := MinR(limit, bound);
    while t < limit && t < bound
      invariant Steps(start, spacing, upto) == ts + Steps(t, spacing, upto)
      decreases if t < upto then ((upto - t) / spacing).Floor + 1 else 0
    {
      StepsShrink(t, spacing, upto);
      ts := ts + [t];
      t := t + spacing;
    }
  }

  ghost predicate SpacingPositive(s: Spacing) { s.dense > 0.0 && s.normal > 0.0 && 0.0 < s.zone <= 0.3 }

  lemma SpacingIsPositive(clearance: real, segLen: real)
    requires clearance > 0.0 && segLen > 0.0
    ensures SpacingPositive(SpacingOf(clearance, segLen))
  {
    assert clearance / segLen > 0.0 && 0.5 / segLen > 0.0 && MaxR(clearance, 1.0) / segLen > 0.0;
  }

  /** Strictly increasing values in [lo, hi). */
  ghost predicate Rising(ts: seq<real>, lo: real, hi: real) {
    && (forall i :: 0 <= i < |ts| ==> lo <= ts[i] < hi)
    && (forall i, j :: 0 <= i < j < |ts| ==> ts[i] < ts[j])
  }

  lemma {:induction false} StepsRise(start: real, spacing: real, limit: real, lo: real, hi: real)
    requires spacing > 0.0 && lo <= start && limit <= hi
    ensures Rising(Steps(start, spacing, limit), lo, hi)
    decreases if start < limit then ((limit - start) / spacing).Floor + 1 else 0
  {
    if start < limit {
      StepsShrink(start, spacing, limit);
      StepsRise(start + spacing, spacing, limit, start + spacing, hi);
      var rest := Steps(start + spacing, spacing, limit);
      var all := Steps(start, spacing, limit);
      assert forall i :: 0 < i < |all| ==> all[i] == rest[i - 1];
    }
  }

  lemma RisingConcat(a: seq<real>, b: seq<real>, lo: real, mid: real, hi: real)
    requires Rising(a, lo, mid) && Rising(b, mid, hi) && lo <= mid <= hi
    ensures Rising(a + b, lo, hi)
  {
  }

  /** The sample parameters are strictly increasing and strictly inside the segment. */
  lemma SamplesInside(s: Spacing)
    requires SpacingPositive(s)
    ensures forall i :: 0 <= i < |SampleTs(s)| ==> 0.0 < SampleTs(s)[i] < 1.0
    ensures forall i, j :: 0 <= i < j < |SampleTs(s)| ==> SampleTs(s)[i] < SampleTs(s)[j]
  {
    hide Steps;
    var first := Steps(s.dense, s.dense, MinR(s.zone, 0.5));
    var middle := Steps(MaxR(s.zone, s.normal), s.normal, 1.0 - s.zone);
    var last := Steps(MaxR(1.0 - s.zone, 0.5), s.dense, 1.0 - s.dense * 0.5);
    var lo := MinR(s.dense, s.zone);
    StepsRise(s.dense, s.dense, MinR(s.zone, 0.5), lo, s.zone);
    StepsRise(MaxR(s.zone, s.normal), s.normal, 1.0 - s.zone, s.zone, 1.0 - s.zone);
    StepsRise(MaxR(1.0 - s.zone, 0.5), s.dense, 1.0 - s.dense * 0.5, 1.0 - s.zone, 1.0);
    RisingConcat(first, middle, lo, s.zone, 1.0 - s.zone);
    RisingConcat(first + middle, last, lo, 1.0 - s.zone, 1.0);
  }

  // Pushing points away from walls

  predicate CheckReachable(nav: Nav, fromPoly: PolyRef, fromPos: Vec3, toPoly: PolyRef, toPos: Vec3) {
    && nav.raycast(fromPoly, fromPos, toPos).Some? && nav.raycast(fromPoly, fromPos, toPos).value >= 1.0
    && nav.raycast(toPoly, toPos, fromPos).Some? && nav.raycast(toPoly, toPos, fromPos).value >= 1.0
  }

  function SegExtents(a: Vec3, b: Vec3): Vec3 { Vec3(HEIGHT_EXTENT, HEIGHT_EXTENT, SegmentZExtent(a, b)) }

  function SnapExtents(a: Vec3, b: Vec3, clearance: real): Vec3 {
    Vec3(clearance * 0.5, clearance * 0.5, SegmentZExtent(a, b))
  }

  /** Where a surface point is pushed: along the normal of the wall by what it lacks in clearance. */
  function PushTarget(surface: Vec3, hit: (real, Vec3), clearance: real): Vec3 {
    var distance := clearance - hit.0;
    Vec3(surface.x + hit.1.x * distance, surface.y + hit.1.y * distance, surface.z)
  }

  /**
   * Off a straight wall at distance `hit.0` with the horizontal unit normal `hit.1`, the target has exactly the
   * clearance, and it is pushed no further than what was lacking.
   */
  lemma PushClears(surface: Vec3, hit: (real, Vec3), clearance: real)
    requires hit.1.x * hit.1.x + hit.1.y * hit.1.y == 1.0
    ensures var c := PushTarget(surface, hit, clearance);
            && c.z == surface.z
            && hit.0 + (c.x - surface.x) * hit.1.x + (c.y - surface.y) * hit.1.y == clearance
            && SquaredDistance(c, surface) == (clearance - hit.0) * (clearance - hit.0)
  {
    var d, c := clearance - hit.0, PushTarget(surface, hit, clearance);
    var x, y := hit.1.x, hit.1.y;
    assert c.x - surface.x == x * d && c.y - surface.y == y * d && c.z - surface.z == 0.0;
    UnitScaled(x, y, d);
  }

  lemma UnitScaled(x: real, y: real, d: real)
    requires x * x + y * y == 1.0
    ensures (x * d) * x + (y * d) * y == d
    ensures (x * d) * (x * d) + (y * d) * (y * d) + 0.0 * 0.0 == d * d
  {
    var s := x * x + y * y;
    assert (x * d) * x + (y * d) * y == s * d by { Collect(x, y, d); }
    assert (x * d) * (x * d) + (y * d) * (y * d) == s * (d * d) by { Collect(x, y, d * d); }
  }

  lemma Collect(x: real, y: real, k: real)
    ensures (x * x) * k + (y * y) * k == (x * x + y * y) * k
  {
  }

  /** A surface point pushed off the wall, with its polygon, when the push snaps nearby and is reachable. */
  function Pushed(nav: Nav, poly: PolyRef, surface: Vec3, hit: (real, Vec3), clearance: real, snap: Vec3):
    Option<(PolyRef, Vec3)>
  {
    var candidate := PushTarget(surface, hit, clearance);
    match nav.nearest(candidate, snap)
    case None => None
    case Some((snapPoly, snapped)) =>
      if Distance2D(nav, snapped, candidate) < clearance && CheckReachable(nav, poly, surface, snapPoly, snapped)
      then Some((snapPoly, snapped)) else None
  }

  /** The offset point inserted for one sample, if any. */
  function Offset(nav: Nav, a: Vec3, b: Vec3, clearance: real, t: real): seq<Vec3> {
    match nav.nearest(Lerp(a, b, t), SegExtents(a, b))
    case None => []
    case Some((poly, surface)) =>
      match nav.wall(poly, surface, clearance * 2.0)
      case None => []
      case Some(hit) =>
        if hit.0 >= clearance then [] else
        match Pushed(nav, poly, surface, hit, clearance, SnapExtents(a, b, clearance))
        case None => []
        case Some((_, snapped)) => [snapped]
  }

  function Offsets(nav: Nav, a: Vec3, b: Vec3, clearance: real, ts: seq<real>): seq<Vec3> {
    if ts == [] then []
    else Offsets(nav, a, b, clearance, ts[..|ts| - 1]) + Offset(nav, a, b, clearance, ts[|ts| - 1])
  }

  /** An intermediate waypoint, moved when the push is safe and not closer to another wall. */
  function TryPushFromWall(nav: Nav, wp: Vec3, clearance: real, snap: Vec3, zExtent: real): Vec3 {
    match nav.nearest(wp, Vec3(HEIGHT_EXTENT, HEIGHT_EXTENT, zExtent))
    case None => wp
    case Some((poly, surface)) =>
      match nav.wall(poly, surface, clearance * 2.0)
      case None => wp
      case Some(hit) =>
        if hit.0 >= clearance then wp else
        match Pushed(nav, poly, surface, hit, clearance, snap)
        case None => wp
        case Some((snapPoly, snapped)) =>
          match nav.wall(snapPoly, snapped, clearance * 2.0)
          case None => wp
          case Some(again) => if again.0 >= hit.0 then snapped else wp
  }

  /** The raycasts between two points are clear both ways. */
  predicate MutuallyVisible(nav: Nav, p: PolyRef, a: Vec3, q: PolyRef, b: Vec3) {
    var there, back := nav.raycast(p, a, b), nav.raycast(q, b, a);
    there.Some? && there.value >= 1.0 && back.Some? && back.value >= 1.0
  }

  /** From the surface point, too close to a wall, the push leads to `q` nearby, which can be reached and left. */
  ghost predicate PushLeads(nav: Nav, poly: PolyRef, surface: Vec3, hit: (real, Vec3), clearance: real, snap: Vec3,
                            qp: PolyRef, q: Vec3)
  {
    var c := PushTarget(surface, hit, clearance);
    && hit.0 < clearance && nav.nearest(c, snap) == Some((qp, q))
    && Distance2D(nav, q, c) < clearance && MutuallyVisible(nav, poly, surface, qp, q)
  }

  /** The sample at `t` is on the navmesh, near a wall, and pushed to `q`. */
  ghost predicate SamplePushed(nav: Nav, a: Vec3, b: Vec3, clearance: real, t: real, q: Vec3) {
    exists poly, surface, hit, qp ::
      && nav.nearest(Lerp(a, b, t), Vec3(5.0, 5.0, SegmentZExtent(a, b))) == Some((poly, surface))
      && nav.wall(poly, surface, clearance * 2.0) == Some(hit)
      && PushLeads(nav, poly, surface, hit, clearance, SnapExtents(a, b, clearance), qp, q)
  }

  /** A sample inserts a point exactly if it is pushed there. */
  lemma OffsetIff(nav: Nav, a: Vec3, b: Vec3, clearance: real, t: real)
    ensures forall q :: Offset(nav, a, b, clearance, t) == [q] <==> SamplePushed(nav, a, b, clearance, t, q)
    ensures |Offset(nav, a, b, clearance, t)| <= 1
  {
    hide PushTarget, Distance2D, Lerp;
    forall q | Offset(nav, a, b, clearance, t) == [q] ensures SamplePushed(nav, a, b, clearance, t, q) {
      var (poly, surface) := nav.nearest(Lerp(a, b, t), SegExtents(a, b)).value;
      var hit := nav.wall(poly, surface, clearance * 2.0).value;
      var (qp, snapped) := Pushed(nav, poly, surface, hit, clearance, SnapExtents(a, b, clearance)).value;
      assert PushLeads(nav, poly, surface, hit, clearance, SnapExtents(a, b, clearance), qp, q);
    }
  }

  /** The waypoint `b` is near a wall and pushed to `q`, which is no closer to any wall. */
  ghost predicate WaypointPushed(nav: Nav, a: Vec3, b: Vec3, clearance: real, q: Vec3) {
    exists poly, surface, hit, qp, again ::
      && nav.nearest(b, Vec3(5.0, 5.0, SegmentZExtent(a, b))) == Some((poly, surface))
      && nav.wall(poly, surface, clearance * 2.0) == Some(hit)
      && PushLeads(nav, poly, surface, hit, clearance, SnapExtents(a, b, clearance), qp, q)
      && nav.wall(qp, q, clearance * 2.0) == Some(again) && again.0 >= hit.0
  }

  /** A waypoint moves to where it is pushed, and stays if it is not. */
  lemma WaypointMoves(nav: Nav, a: Vec3, b: Vec3, clearance: real)
    ensures var q := MovedWaypoint(nav, a, b, clearance); q == b || WaypointPushed(nav, a, b, clearance, q)
    ensures forall q :: WaypointPushed(nav, a, b, clearance, q) ==> MovedWaypoint(nav, a, b, clearance) == q
  {
    hide PushTarget, Distance2D;
    var q := MovedWaypoint(nav, a, b, clearance);
    if q != b {
      var (poly, surface) := nav.nearest(b, Vec3(HEIGHT_EXTENT, HEIGHT_EXTENT, SegmentZExtent(a, b))).value;
      var hit := nav.wall(poly, surface, clearance * 2.0).value;
      var (qp, snapped) := Pushed(nav, poly, surface, hit, clearance, SnapExtents(a, b, clearance)).value;
      assert PushLeads(nav, poly, surface, hit, clearance, SnapExtents(a, b, clearance), qp, q);
    }
  }

  /** The points inserted along one segment. */
  function SegmentOffsets(nav: Nav, a: Vec3, b: Vec3, clearance: real): seq<Vec3>
    requires clearance > 0.0
  {
    var segLen := Distance2D(nav, a, b);
    if segLen < 0.01 then [] else
    SpacingIsPositive(clearance, segLen);
    Offsets(nav, a, b, clearance, SampleTs(SpacingOf(clearance, segLen)))
  }

  function MovedWaypoint(nav: Nav, a: Vec3, b: Vec3, clearance: real): Vec3 {
    TryPushFromWall(nav, b, clearance, SnapExtents(a, b, clearance), SegmentZExtent(a, b))
  }

  /** The cleared path before the end point is added, for the first `i` segments. */
  function ClearedUpTo(nav: Nav, w: seq<Vec3>, clearance: real, i: nat): seq<Vec3>
    requires clearance > 0.0 && i < |w|
  {
    if i == 0 then [w[0]] else
    ClearedUpTo(nav, w, clearance, i - 1) + SegmentOffsets(nav, w[i - 1], w[i], clearance)
      + (if i < |w| - 1 then [MovedWaypoint(nav, w[i - 1], w[i], clearance)] else [])
  }

  function Cleared(nav: Nav, w: seq<Vec3>, clearance: real): seq<Vec3> {
    if |w| < 2 || clearance <= 0.0 then w else ClearedUpTo(nav, w, clearance, |w| - 1) + [w[|w| - 1]]
  }

  method ApplyWallClearance(nav: Nav, w: seq<Vec3>, clearance: real) returns (result: seq<Vec3>)
    ensures result == Cleared(nav, w, clearance)
  {
    hide Offsets, MovedWaypoint, SampleTs, SpacingOf, Distance2D, ClearedUpTo, SegmentOffsets;
    if |w| < 2 || clearance <= 0.0 { return w; }
    result := [w[0]];
    ClearedStart(nav, w, clearance);
    for i := 0 to |w| - 1
      invariant result == ClearedUpTo(nav, w, clearance, i)
    {
      var a, b := w[i], w[i + 1];
      var segLen := Distance2D(nav, a, b);
      ghost var before := result;
      OffsetsOfSegment(nav, a, b, clearance);
      if segLen >= 0.01 {
        var ts := CollectSamples(clearance, segLen);
        result := AddOffsets(nav, a, b, clearance, ts, result);
      } else {
        assert result + [] == result;
      }
      ClearedStep(nav, w, clearance, i, before);
      if i + 1 < |w| - 1 { result := result + [MovedWaypoint(nav, a, b, clearance)]; }
    }
    result := result + [w[|w| - 1]];
  }

  lemma ClearedStart(nav: Nav, w: seq<Vec3>, clearance: real)
    requires clearance > 0.0 && w != []
    ensures ClearedUpTo(nav, w, clearance, 0) == [w[0]]
  {
  }

  lemma OffsetsOfSegment(nav: Nav, a: Vec3, b: Vec3, clearance: real)
    requires clearance > 0.0
    ensures SegmentOffsets(nav, a, b, clearance) ==
            if Distance2D(nav, a, b) >= 0.01 then
              Offsets(nav, a, b, clearance, SampleTs(SpacingOf(clearance, Distance2D(nav, a, b)))) else []
  {
    hide Offsets, SampleTs, SpacingOf;
  }

  lemma ClearedStep(nav: Nav, w: seq<Vec3>, clearance: real, i: nat, before: seq<Vec3>)
    requires clearance > 0.0 && i + 1 < |w| && before == ClearedUpTo(nav, w, clearance, i)
    ensures ClearedUpTo(nav, w, clearance, i + 1) ==
            var offsets := before + SegmentOffsets(nav, w[i], w[i + 1], clearance);
            if i + 1 < |w| - 1 then offsets + [MovedWaypoint(nav, w[i], w[i + 1], clearance)] else offsets
  {
    hide SegmentOffsets, MovedWaypoint;
    var offsets := before + SegmentOffsets(nav, w[i], w[i + 1], clearance);
    assert offsets + [] == offsets;
  }

  method AddOffsets(nav: Nav, a: Vec3, b: Vec3, clearance: real, ts: seq<real>, before: seq<Vec3>)
    returns (result: seq<Vec3>)
    ensures result == before + Offsets(nav, a, b, clearance, ts)
  {
    hide Offset;
    result := before;
    assert ts[..0] == [];
    for k := 0 to |ts|
      invariant result == before + Offsets(nav, a, b, clearance, ts[..k])
    {
      assert ts[..k + 1][..k] == ts[..k];
      result := result + Offset(nav, a, b, clearance, ts[k]);
    }
    assert ts[..|ts|] == ts;
  }

  /** Clearance never moves the ends, whatever the oracle answers. */
  lemma ClearedKeepsEnds(nav: Nav, w: seq<Vec3>, clearance: real)
    requires w != []
    ensures var r := Cleared(nav, w, clearance); r != [] && r[0] == w[0] && r[|r| - 1] == w[|w| - 1]
  {
    if |w| >= 2 && clearance > 0.0 { ClearedStarts(nav, w, clearance, |w| - 1); }
  }

  lemma {:induction false} ClearedStarts(nav: Nav, w: seq<Vec3>, clearance: real, i: nat)
    requires clearance > 0.0 && i < |w|
    ensures ClearedUpTo(nav, w, clearance, i) != [] && ClearedUpTo(nav, w, clearance, i)[0] == w[0]
    decreases i
  {
    hide SegmentOffsets, MovedWaypoint;
    if i > 0 { ClearedStarts(nav, w, clearance, i - 1); }
  }
}
