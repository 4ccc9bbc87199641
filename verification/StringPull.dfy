/** String pulling: skipping waypoints that a straight, clear and gentle line can replace. */
module StringPull {
  import opened Results
  import opened Geometry

  const MAX_STRING_PULL_DEVIATION: real := 1.5
  const MAX_HEADING_CHANGE: real := 0.524
  const DEFAULT_WALL_DISTANCE: real := 0.6

  datatype Limits = Limits(deviation: real, heading: real, wallDistance: real)

  // Deviation

  function Clamp01(t: real): real { if t < 0.0 then 0.0 else if t > 1.0 then 1.0 else t }

  /** Distance of `p` from the segment `a`-`b`; a degenerate segment counts as the point `a`. */
  function PointDeviation(nav: Nav, p: Vec3, a: Vec3, b: Vec3): real {
    var abx, aby, abz := b.x - a.x, b.y - a.y, b.z - a.z;
    var squared := abx * abx + aby * aby + abz * abz;
    if squared < 0.0001 then Distance(nav, p, a) else
    var t := Clamp01(((p.x - a.x) * abx + (p.y - a.y) * aby + (p.z - a.z) * abz) / squared);
    Distance(nav, p, Lerp(a, b, t))
  }

  ghost predicate Deviates(nav: Nav, w: seq<Vec3>, from: nat, upto: nat, limit: real)
    requires from <= upto < |w|
  {
    exists k :: from < k < upto && PointDeviation(nav, w[k], w[from], w[upto]) > limit
  }

  method MaxDeviation(nav: Nav, w: seq<Vec3>, from: nat, upto: nat) returns (dev: real)
    requires from <= upto < |w|
    ensures dev >= 0.0 && forall k :: from < k < upto ==> PointDeviation(nav, w[k], w[from], w[upto]) <= dev
    ensures dev == 0.0 || exists k :: from < k < upto && PointDeviation(nav, w[k], w[from], w[upto]) == dev
  {
    if upto <= from + 1 { return 0.0; }
    dev := 0.0;
    for k := from + 1 to upto
      invariant dev >= 0.0 && forall i :: from < i < k ==> PointDeviation(nav, w[i], w[from], w[upto]) <= dev
      invariant dev == 0.0 || exists i :: from < i < k && PointDeviation(nav, w[i], w[from], w[upto]) == dev
    {
      dev := MaxR(dev, PointDeviation(nav, w[k], w[from], w[upto]));
    }
  }

  // Heading

  /** Absolute turn at `curr`, the short way round. */
  function TurnAt(nav: Nav, prev: Vec3, curr: Vec3, next: Vec3): real {
    var h1 := nav.atan2(curr.y - prev.y, curr.x - prev.x);
    var h2 := nav.atan2(next.y - curr.y, next.x - curr.x);
    var delta := Abs(h2 - h1);
    if delta > PI then 2.0 * PI - delta else delta
  }

  function HeadingChange(nav: Nav, w: seq<Vec3>, from: nat, upto: nat): real
    requires from <= upto < |w|
    decreases upto - from
  {
    if upto <= from + 1 then 0.0
    else HeadingChange(nav, w, from, upto - 1) + TurnAt(nav, w[upto - 2], w[upto - 1], w[upto])
  }

  method CumulativeHeadingChange(nav: Nav, w: seq<Vec3>, from: nat, upto: nat) returns (total: real)
    requires from <= upto < |w|
    ensures total == HeadingChange(nav, w, from, upto)
  {
    if upto <= from + 1 { return 0.0; }
    total := 0.0;
    for i := from + 1 to upto
      invariant total == HeadingChange(nav, w, from, i)
    {
      total := total + TurnAt(nav, w[i - 1], w[i], w[i + 1]);
    }
  }

  /** Looking further never lowers the cumulative turn. */
  lemma {:induction false} HeadingGrows(nav: Nav, w: seq<Vec3>, from: nat, near: nat, far: nat)
    requires AtanInRange(nav.atan2) && from <= near <= far < |w|
    ensures HeadingChange(nav, w, from, near) <= HeadingChange(nav, w, from, far)
    decreases far - near
  {
    if near < far { HeadingGrows(nav, w, from, near, far - 1); }
  }

  // Walls

  function WallSteps(nav: Nav, a: Vec3, b: Vec3): nat {
    var n := CeilUsize(Distance(nav, a, b));
    if n < 2 then 2 else n
  }

  predicate SampleNearWall(nav: Nav, a: Vec3, b: Vec3, i: nat, steps: nat, threshold: real)
    requires steps > 0
  {
    var extents := Vec3(HEIGHT_EXTENT, HEIGHT_EXTENT, SegmentZExtent(a, b));
    match nav.nearest(Lerp(a, b, i as real / steps as real), extents)
    case None => false
    case Some((poly, surface)) =>
      match nav.wall(poly, surface, threshold * 2.0)
      case None => false
      case Some((distance, _)) => distance < threshold
  }

  /** Some sample of the line is closer to a wall than the threshold. */
  ghost predicate NearWall(nav: Nav, a: Vec3, b: Vec3, threshold: real) {
    var steps := WallSteps(nav, a, b);
    Distance(nav, a, b) >= 0.5 && exists i :: 1 <= i < steps && SampleNearWall(nav, a, b, i, steps, threshold)
  }

  method ShortcutNearWall(nav: Nav, a: Vec3, b: Vec3, threshold: real) returns (near: bool)
    ensures near <==> NearWall(nav, a, b, threshold)
  {
    var dist := Distance(nav, a, b);
    if dist < 0.5 { return false; }
    var steps := WallSteps(nav, a, b);
    for i := 1 to steps
      invariant forall k :: 1 <= k < i ==> !SampleNearWall(nav, a, b, k, steps, threshold)
    {
      if SampleNearWall(nav, a, b, i, steps, threshold) { return true; }
    }
    near := false;
  }

  // The scan from one waypoint

  datatype Check = TakeIt | PassOver | StopHere

  ghost predicate TooClose(nav: Nav, lim: Limits, a: Vec3, b: Vec3) {
    lim.wallDistance > 0.0 && NearWall(nav, a, b, lim.wallDistance)
  }

  /**
   * What the scan from waypoint `c` does at target `t`. A turn over the limit stops it, or with `lenient` is only
   * passed over.
   */
  ghost function CheckTarget(nav: Nav, lim: Limits, w: seq<Vec3>, poly: PolyRef, c: nat, t: nat, lenient: bool): Check
    requires c < t < |w|
  {
    match nav.raycast(poly, w[c], w[t])
    case None => StopHere
    case Some(hit) =>
      if hit < 1.0 then StopHere
      else if lim.deviation < 0.0 || Deviates(nav, w, c, t, lim.deviation) then PassOver
      else if HeadingChange(nav, w, c, t) > lim.heading then (if lenient then PassOver else StopHere)
      else if TooClose(nav, lim, w[c], w[t]) then StopHere
      else TakeIt
  }

  /** The target the scan settles on when it stands at `t` and `best` is the last one taken. */
  ghost function Furthest(nav: Nav, lim: Limits, w: seq<Vec3>, poly: PolyRef, c: nat, t: nat, best: nat,
                          lenient: bool): (f: nat)
    requires c < best < t <= |w|
    ensures best <= f < |w|
    decreases |w| - t
  {
    if t == |w| then best else
    match CheckTarget(nav, lim, w, poly, c, t, lenient)
    case StopHere => best
    case PassOver => Furthest(nav, lim, w, poly, c, t + 1, best, lenient)
    case TakeIt => Furthest(nav, lim, w, poly, c, t + 1, t, lenient)
  }

  /** The straight line from `a` to `b` is clear. */
  predicate Clear(nav: Nav, w: seq<Vec3>, poly: PolyRef, a: nat, b: nat)
    requires a < b < |w|
  {
    nav.raycast(poly, w[a], w[b]).Some? && nav.raycast(poly, w[a], w[b]).value >= 1.0
  }

  /** No waypoint between `a` and `b` is farther from the line than the limit, which is no negative number. */
  ghost predicate Straight(nav: Nav, lim: Limits, w: seq<Vec3>, a: nat, b: nat)
    requires a < b < |w|
  {
    lim.deviation >= 0.0 && forall k :: a < k < b ==> PointDeviation(nav, w[k], w[a], w[b]) <= lim.deviation
  }

  /** All guards hold for replacing the waypoints between `a` and `b` by a straight line. */
  ghost predicate Shortcut(nav: Nav, lim: Limits, w: seq<Vec3>, poly: PolyRef, a: nat, b: nat)
    requires a < b < |w|
  {
    && Clear(nav, w, poly, a, b) && Straight(nav, lim, w, a, b)
    && HeadingChange(nav, w, a, b) <= lim.heading && !TooClose(nav, lim, w[a], w[b])
  }

  /** The scan from `a` ends at `u`: the line is blocked, or straight enough but turning too much or near a wall. */
  ghost predicate Stops(nav: Nav, lim: Limits, w: seq<Vec3>, poly: PolyRef, a: nat, u: nat)
    requires a < u < |w|
  {
    || !Clear(nav, w, poly, a, u)
    || (Straight(nav, lim, w, a, u) && (HeadingChange(nav, w, a, u) > lim.heading || TooClose(nav, lim, w[a], w[u])))
  }

  /** Nothing stops the scan up to `f`, and every shortcut beyond `f` lies behind a stop. */
  ghost predicate LastBeforeStop(nav: Nav, lim: Limits, w: seq<Vec3>, poly: PolyRef, c: nat, t: nat, f: nat)
    requires c < t && c < f < |w|
  {
    && (forall u :: t <= u <= f ==> !Stops(nav, lim, w, poly, c, u))
    && (forall v :: t <= v < |w| && f < v && Shortcut(nav, lim, w, poly, c, v) ==>
          exists u :: t <= u < v && f < u && Stops(nav, lim, w, poly, c, u))
  }

  lemma CheckKinds(nav: Nav, lim: Limits, w: seq<Vec3>, poly: PolyRef, c: nat, t: nat)
    requires c < t < |w|
    ensures CheckTarget(nav, lim, w, poly, c, t, false).TakeIt? <==> Shortcut(nav, lim, w, poly, c, t)
    ensures CheckTarget(nav, lim, w, poly, c, t, false).StopHere? <==> Stops(nav, lim, w, poly, c, t)
  {
    hide PointDeviation, HeadingChange, TooClose;
  }

  lemma {:induction false} FurthestIsShortcut(nav: Nav, lim: Limits, w: seq<Vec3>, poly: PolyRef, c: nat, t: nat,
                                              best: nat)
    requires c < best < t <= |w|
    ensures var f := Furthest(nav, lim, w, poly, c, t, best, false);
            f == best || (t <= f && Shortcut(nav, lim, w, poly, c, f))
    decreases |w| - t
  {
    hide Shortcut, Stops;
    if t < |w| {
      CheckKinds(nav, lim, w, poly, c, t);
      match CheckTarget(nav, lim, w, poly, c, t, false)
      case StopHere =>
      case PassOver => FurthestIsShortcut(nav, lim, w, poly, c, t + 1, best);
      case TakeIt => FurthestIsShortcut(nav, lim, w, poly, c, t + 1, t);
    }
  }

  /** The scan settles on the last shortcut in front of the first stop. */
  lemma {:induction false} FurthestIsLast(nav: Nav, lim: Limits, w: seq<Vec3>, poly: PolyRef, c: nat, t: nat,
                                          best: nat)
    requires c < best < t <= |w|
    ensures LastBeforeStop(nav, lim, w, poly, c, t, Furthest(nav, lim, w, poly, c, t, best, false))
    decreases |w| - t
  {
    hide Shortcut, Stops, CheckTarget;
    if t < |w| {
      CheckKinds(nav, lim, w, poly, c, t);
      var f := Furthest(nav, lim, w, poly, c, t, best, false);
      match CheckTarget(nav, lim, w, poly, c, t, false)
      case StopHere =>
      case PassOver => FurthestIsLast(nav, lim, w, poly, c, t + 1, best);
      case TakeIt => FurthestIsLast(nav, lim, w, poly, c, t + 1, t);
    }
  }

  /** Once the turn is over the limit the lenient scan takes nothing more. */
  lemma {:induction false} NothingAfterTurn(nav: Nav, lim: Limits, w: seq<Vec3>, poly: PolyRef, c: nat, t: nat,
                                            best: nat, over: nat)
    requires AtanInRange(nav.atan2) && c < best < t <= |w| && c < over <= t && over < |w|
    requires HeadingChange(nav, w, c, over) > lim.heading
    ensures Furthest(nav, lim, w, poly, c, t, best, true) == best
    decreases |w| - t
  {
    if t < |w| {
      HeadingGrows(nav, w, c, over, t);
      if CheckTarget(nav, lim, w, poly, c, t, true).PassOver? {
        NothingAfterTurn(nav, lim, w, poly, c, t + 1, best, over);
      }
    }
  }

  /** Stopping at the first turn over the limit loses nothing. */
  lemma {:induction false} BreakLosesNothing(nav: Nav, lim: Limits, w: seq<Vec3>, poly: PolyRef, c: nat, t: nat,
                                             best: nat)
    requires AtanInRange(nav.atan2) && c < best < t <= |w|
    ensures Furthest(nav, lim, w, poly, c, t, best, false) == Furthest(nav, lim, w, poly, c, t, best, true)
    decreases |w| - t
  {
    if t < |w| {
      match CheckTarget(nav, lim, w, poly, c, t, true)
      case StopHere =>
      case TakeIt => BreakLosesNothing(nav, lim, w, poly, c, t + 1, t);
      case PassOver =>
        if CheckTarget(nav, lim, w, poly, c, t, false).StopHere? {
          NothingAfterTurn(nav, lim, w, poly, c, t + 1, best, t);
        } else {
          BreakLosesNothing(nav, lim, w, poly, c, t + 1, best);
        }
    }
  }

  // The whole path

  const SEARCH_EXTENTS: Vec3 := Vec3(10.0, 10.0, 10.0)

  /** The waypoint kept after waypoint `c`. */
  ghost function NextKept(nav: Nav, lim: Limits, w: seq<Vec3>, c: nat): (f: nat)
    requires c + 1 < |w|
    ensures c < f < |w|
  {
    match nav.nearest(w[c], SEARCH_EXTENTS)
    case None => c + 1
    case Some((poly, _)) => Furthest(nav, lim, w, poly, c, c + 2, c + 1, false)
  }

  /** Indices of the waypoints kept from waypoint `c` on. */
  ghost function KeptFrom(nav: Nav, lim: Limits, w: seq<Vec3>, c: nat): (ks: seq<nat>)
    requires c < |w|
    ensures ks != [] && ks[0] == c && forall i :: 0 <= i < |ks| ==> ks[i] < |w|
    decreases |w| - c
  {
    if c + 1 == |w| then [c] else [c] + KeptFrom(nav, lim, w, NextKept(nav, lim, w, c))
  }

  ghost function Pick(w: seq<Vec3>, ks: seq<nat>): seq<Vec3>
    requires forall i :: 0 <= i < |ks| ==> ks[i] < |w|
  {
    if ks == [] then [] else Pick(w, ks[..|ks| - 1]) + [w[ks[|ks| - 1]]]
  }

  /**
   * One step of the result: a neighbour, or a shortcut that passes every guard. If the waypoint is on the navmesh,
   * it is the last shortcut in front of the first stop.
   */
  ghost predicate GoodStep(nav: Nav, lim: Limits, w: seq<Vec3>, a: nat, b: nat) {
    && a < b < |w|
    && match nav.nearest(w[a], SEARCH_EXTENTS)
       case None => b == a + 1
       case Some((poly, _)) =>
         && (b == a + 1 || Shortcut(nav, lim, w, poly, a, b))
         && LastBeforeStop(nav, lim, w, poly, a, a + 2, b)
  }

  /** Strictly increasing indices from first to last waypoint, each step good. */
  ghost predicate GoodIndices(nav: Nav, lim: Limits, w: seq<Vec3>, ks: seq<nat>) {
    && ks != [] && ks[|ks| - 1] + 1 == |w|
    && forall i, j :: 0 <= i < j < |ks| && j == i + 1 ==> GoodStep(nav, lim, w, ks[i], ks[j])
  }

  lemma {:induction false} KeptIsGood(nav: Nav, lim: Limits, w: seq<Vec3>, c: nat)
    requires c < |w|
    ensures GoodIndices(nav, lim, w, KeptFrom(nav, lim, w, c))
    decreases |w| - c
  {
    if c + 1 < |w| {
      var next := NextKept(nav, lim, w, c);
      var found := nav.nearest(w[c], SEARCH_EXTENTS);
      if found.Some? {
        FurthestIsShortcut(nav, lim, w, found.value.0, c, c + 2, c + 1);
        FurthestIsLast(nav, lim, w, found.value.0, c, c + 2, c + 1);
      }
      KeptIsGood(nav, lim, w, next);
      var ks, rest := KeptFrom(nav, lim, w, c), KeptFrom(nav, lim, w, next);
      forall i, j | 0 <= i < j < |ks| && j == i + 1 ensures GoodStep(nav, lim, w, ks[i], ks[j]) {
        if i > 0 { assert ks[i] == rest[i - 1] && ks[j] == rest[j - 1]; }
      }
    }
  }

  method ScanFrom(nav: Nav, lim: Limits, w: seq<Vec3>, poly: PolyRef, c: nat) returns (furthest: nat)
    requires c + 1 < |w|
    ensures furthest == Furthest(nav, lim, w, poly, c, c + 2, c + 1, false)
  {
    hide HeadingChange, PointDeviation, NearWall;
    furthest := c + 1;
    ghost var settled := Furthest(nav, lim, w, poly, c, c + 2, c + 1, false);
    for t := c + 2 to |w|
      invariant c < furthest < t && settled == Furthest(nav, lim, w, poly, c, t, furthest, false)
    {
      var hit := nav.raycast(poly, w[c], w[t]);
      if hit.None? || hit.value < 1.0 { break; }
      var dev := MaxDeviation(nav, w, c, t);
      if dev > lim.deviation { continue; }
      var turn := CumulativeHeadingChange(nav, w, c, t);
      if turn > lim.heading { break; }
      if lim.wallDistance > 0.0 {
        var near := ShortcutNearWall(nav, w[c], w[t], lim.wallDistance);
        if near { break; }
      }
      furthest := t;
    }
  }

  /** The pulled path: the waypoints at good indices from the first to the last. */
  method StringPullPath(nav: Nav, lim: Limits, w: seq<Vec3>) returns (result: seq<Vec3>)
    ensures |w| <= 2 ==> result == w
    ensures |w| > 2 ==> result == Pick(w, KeptFrom(nav, lim, w, 0))
  {
    if |w| <= 2 { return w; }
    hide NextKept, KeptFrom, Pick, Pulled;
    result := [w[0]];
    var current := 0;
    ghost var before: seq<nat> := [];
    PulledStart(nav, lim, w);
    while current < |w| - 1
      invariant current < |w| && Pulled(nav, lim, w, before, current, result)
      decreases |w| - current
    {
      var next := PullStep(nav, lim, w, current);
      PulledStep(nav, lim, w, before, current, result);
      result := result + [w[next]];
      before := before + [current];
      current := next;
    }
    PulledEnd(nav, lim, w, before, current, result);
  }

  /** `result` holds the waypoints kept up to `current`, those before it at the indices `before`. */
  ghost predicate Pulled(nav: Nav, lim: Limits, w: seq<Vec3>, before: seq<nat>, current: nat, result: seq<Vec3>) {
    && current < |w| && (forall i :: 0 <= i < |before| ==> before[i] < |w|)
    && KeptFrom(nav, lim, w, 0) == before + KeptFrom(nav, lim, w, current)
    && result == Pick(w, before + [current])
  }

  lemma PulledStart(nav: Nav, lim: Limits, w: seq<Vec3>)
    requires w != []
    ensures Pulled(nav, lim, w, [], 0, [w[0]])
  {
    hide KeptFrom;
    var none: seq<nat> := [];
    PickSnoc(w, none, 0);
    assert none + [0] == [0] && none + KeptFrom(nav, lim, w, 0) == KeptFrom(nav, lim, w, 0);
  }

  lemma PulledStep(nav: Nav, lim: Limits, w: seq<Vec3>, before: seq<nat>, current: nat, result: seq<Vec3>)
    requires Pulled(nav, lim, w, before, current, result) && current + 1 < |w|
    ensures var next := NextKept(nav, lim, w, current);
            Pulled(nav, lim, w, before + [current], next, result + [w[next]])
  {
    hide KeptFrom, NextKept, Pick;
    var next := NextKept(nav, lim, w, current);
    KeptStep(nav, lim, w, current);
    var kept := before + [current];
    assert before + ([current] + KeptFrom(nav, lim, w, next)) == kept + KeptFrom(nav, lim, w, next);
    assert forall i :: 0 <= i < |kept| ==> kept[i] < |w|;
    PickSnoc(w, kept, next);
  }

  lemma PulledEnd(nav: Nav, lim: Limits, w: seq<Vec3>, before: seq<nat>, current: nat, result: seq<Vec3>)
    requires Pulled(nav, lim, w, before, current, result) && current + 1 == |w|
    ensures result == Pick(w, KeptFrom(nav, lim, w, 0))
  {
    KeptEnd(nav, lim, w, current);
  }

  lemma PickSnoc(w: seq<Vec3>, ks: seq<nat>, k: nat)
    requires k < |w| && forall i :: 0 <= i < |ks| ==> ks[i] < |w|
    ensures Pick(w, ks + [k]) == Pick(w, ks) + [w[k]] && Pick(w, []) == []
  {
    assert (ks + [k])[..|ks|] == ks;
  }

  lemma KeptStep(nav: Nav, lim: Limits, w: seq<Vec3>, c: nat)
    requires c + 1 < |w|
    ensures KeptFrom(nav, lim, w, c) == [c] + KeptFrom(nav, lim, w, NextKept(nav, lim, w, c))
  {
  }

  lemma KeptEnd(nav: Nav, lim: Limits, w: seq<Vec3>, c: nat)
    requires c + 1 == |w|
    ensures KeptFrom(nav, lim, w, c) == [c]
  {
  }

  method PullStep(nav: Nav, lim: Limits, w: seq<Vec3>, current: nat) returns (next: nat)
    requires current + 1 < |w|
    ensures next == NextKept(nav, lim, w, current)
  {
    var found := nav.nearest(w[current], SEARCH_EXTENTS);
    if found.None? { return current + 1; }
    next := ScanFrom(nav, lim, w, found.value.0, current);
  }

  lemma {:induction false} PickAt(w: seq<Vec3>, ks: seq<nat>)
    requires forall i :: 0 <= i < |ks| ==> ks[i] < |w|
    ensures |Pick(w, ks)| == |ks| && forall i :: 0 <= i < |ks| ==> Pick(w, ks)[i] == w[ks[i]]
    decreases |ks|
  {
    if ks != [] { PickAt(w, ks[..|ks| - 1]); }
  }

  /** For any oracle, pulling keeps a subsequence from first to last, each step the last shortcut that can be seen. */
  lemma PulledPath(nav: Nav, lim: Limits, w: seq<Vec3>) returns (ks: seq<nat>)
    requires w != []
    ensures ks != [] && ks[0] == 0 && GoodIndices(nav, lim, w, ks)
    ensures var result := Pick(w, KeptFrom(nav, lim, w, 0));
            |result| == |ks| && forall i :: 0 <= i < |ks| ==> ks[i] < |w| && result[i] == w[ks[i]]
  {
    ks := KeptFrom(nav, lim, w, 0);
    KeptIsGood(nav, lim, w, 0);
    PickAt(w, ks);
  }
}
