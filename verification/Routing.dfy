/** Multi-stop routes: consecutive legs joined into one path, and the visit order of the TSP route. */
module Routing {
  import opened Results
  import opened Geometry
  import opened Tsp

  datatype PathResult = PathResult(waypoints: seq<Vec3>, distance: real, partial: bool)

  datatype RouteError = LegFailed(what: string) | InvalidParams

  datatype MultiStopResult = MultiStopResult(waypoints: seq<Vec3>, totalDistance: real, legDistances: seq<real>,
                                             legBoundaries: seq<nat>, partial: bool)

  type Finder = (Vec3, Vec3) -> Result<PathResult, RouteError>

  /** The part of a leg that is appended to what the earlier legs gave. */
  function Appended(before: seq<Vec3>, leg: seq<Vec3>): seq<Vec3> {
    if before == [] || leg == [] then leg else leg[1..]
  }

  /** All legs in one path, the point shared by neighbours kept once. */
  function Joined(legs: seq<PathResult>): seq<Vec3> {
    if legs == [] then [] else
    var before := Joined(legs[..|legs| - 1]);
    before + Appended(before, legs[|legs| - 1].waypoints)
  }

  function Boundaries(legs: seq<PathResult>): (bs: seq<nat>)
    ensures |bs| == |legs| + 1
  {
    if legs == [] then [0] else Boundaries(legs[..|legs| - 1]) + [|Joined(legs)|]
  }

  function Distances(legs: seq<PathResult>): (ds: seq<real>)
    ensures |ds| == |legs| && forall i :: 0 <= i < |ds| ==> ds[i] == legs[i].distance
  {
    seq(|legs|, i requires 0 <= i < |legs| => legs[i].distance)
  }

  function Total(legs: seq<PathResult>): real {
    if legs == [] then 0.0 else Total(legs[..|legs| - 1]) + legs[|legs| - 1].distance
  }

  function Route(legs: seq<PathResult>): MultiStopResult {
    MultiStopResult(Joined(legs), Total(legs), Distances(legs), Boundaries(legs),
                    exists i :: 0 <= i < |legs| && legs[i].partial)
  }

  /** The legs between the first stops up to number `k`, or the first failure. */
  function Legs(find: Finder, stops: seq<Vec3>, k: nat): (r: Result<seq<PathResult>, RouteError>)
    requires k < |stops|
    ensures r.Ok? ==> |r.value| == k
  {
    if k == 0 then Ok([]) else
    match Legs(find, stops, k - 1)
    case Err(e) => Err(e)
    case Ok(legs) =>
      match find(stops[k - 1], stops[k])
      case Err(e) => Err(e)
      case Ok(leg) => Ok(legs + [leg])
  }

  lemma {:induction false} LegsFailEarly(find: Finder, stops: seq<Vec3>, j: nat, k: nat)
    requires j <= k < |stops| && Legs(find, stops, j).Err?
    ensures Legs(find, stops, k) == Legs(find, stops, j)
    decreases k
  {
    if j < k { LegsFailEarly(find, stops, j, k - 1); }
  }

  /** The legs are found one by one from each stop to the next. */
  ghost predicate LegsFound(find: Finder, stops: seq<Vec3>, legs: seq<PathResult>) {
    |legs| < |stops| && forall i :: 0 <= i < |legs| ==> find(stops[i], stops[i + 1]) == Ok(legs[i])
  }

  /** Leg `i` fails and the legs before it do not. */
  ghost predicate FailsFirst(find: Finder, stops: seq<Vec3>, i: nat, e: RouteError) {
    && i + 1 < |stops| && find(stops[i], stops[i + 1]) == Err(e)
    && forall j :: 0 <= j < i ==> find(stops[j], stops[j + 1]).Ok?
  }

  lemma OneMoreLeg(find: Finder, stops: seq<Vec3>, legs: seq<PathResult>)
    requires |legs| + 1 < |stops| && LegsFound(find, stops, legs)
    ensures match find(stops[|legs|], stops[|legs| + 1])
            case Ok(leg) => LegsFound(find, stops, legs + [leg])
            case Err(e) => FailsFirst(find, stops, |legs|, e)
  {
    forall j | 0 <= j < |legs| ensures find(stops[j], stops[j + 1]).Ok? {
      assert find(stops[j], stops[j + 1]) == Ok(legs[j]);
    }
  }

  /** The legs are those from each stop to the next, and the failure is that of the first leg that fails. */
  lemma {:induction false} LegsMeaning(find: Finder, stops: seq<Vec3>, k: nat) returns (i: nat)
    requires k < |stops|
    ensures Legs(find, stops, k).Ok? ==> LegsFound(find, stops, Legs(find, stops, k).value)
    ensures Legs(find, stops, k).Err? ==> i < k && FailsFirst(find, stops, i, Legs(find, stops, k).error)
    decreases k
  {
    hide LegsFound, FailsFirst;
    i := 0;
    if k == 0 {
      NoLegs(find, stops);
    } else {
      i := LegsMeaning(find, stops, k - 1);
      if Legs(find, stops, k - 1).Ok? {
        OneMoreLeg(find, stops, Legs(find, stops, k - 1).value);
        i := k - 1;
      }
    }
  }

  lemma NoLegs(find: Finder, stops: seq<Vec3>)
    requires stops != []
    ensures LegsFound(find, stops, [])
  {
  }

  /** When every leg is found, the route is partial exactly if some leg is, and it lists their distances in order. */
  lemma RouteFlags(find: Finder, stops: seq<Vec3>)
    requires stops != [] && forall i :: 0 <= i < |stops| - 1 ==> find(stops[i], stops[i + 1]).Ok?
    ensures Legs(find, stops, |stops| - 1).Ok?
    ensures var r := Route(Legs(find, stops, |stops| - 1).value);
            && (r.partial <==> exists i :: 0 <= i < |stops| - 1 && find(stops[i], stops[i + 1]).value.partial)
            && |r.legDistances| == |stops| - 1
            && forall i :: 0 <= i < |stops| - 1 ==> r.legDistances[i] == find(stops[i], stops[i + 1]).value.distance
  {
    hide Legs, Joined, Boundaries, Total;
    var k := LegsMeaning(find, stops, |stops| - 1);
    var legs := Legs(find, stops, |stops| - 1).value;
    assert LegsFound(find, stops, legs);
    if i :| 0 <= i < |legs| && legs[i].partial {
      assert find(stops[i], stops[i + 1]) == Ok(legs[i]);
    }
    if i :| 0 <= i < |stops| - 1 && find(stops[i], stops[i + 1]).value.partial {
      assert find(stops[i], stops[i + 1]) == Ok(legs[i]);
    }
  }

  method PathfindLegs(find: Finder, stops: seq<Vec3>) returns (r: Result<MultiStopResult, RouteError>)
    requires stops != []
    ensures match Legs(find, stops, |stops| - 1)
            case Err(e) => r == Err(e)
            case Ok(legs) => r == Ok(Route(legs))
  {
    var result := MultiStopResult([], 0.0, [], [0], false);
    ghost var legs: seq<PathResult> := [];
    hide Route, Joined, Boundaries, Total, Distances, Legs, Extend;
    RouteEmpty();
    LegsStart(find, stops);
    for i := 0 to |stops| - 1
      invariant Legs(find, stops, i) == Ok(legs)
      invariant result == Route(legs)
    {
      var found := find(stops[i], stops[i + 1]);
      LegsStep(find, stops, i);
      if found.Err? {
        LegsFailEarly(find, stops, i + 1, |stops| - 1);
        return Err(found.error);
      }
      RouteSnoc(legs, found.value);
      result := AppendLeg(result, found.value);
      legs := legs + [found.value];
    }
    r := Ok(result);
  }

  function Extend(r: MultiStopResult, leg: PathResult): MultiStopResult {
    var waypoints := r.waypoints + Appended(r.waypoints, leg.waypoints);
    MultiStopResult(waypoints, r.totalDistance + leg.distance, r.legDistances + [leg.distance],
                    r.legBoundaries + [|waypoints|], r.partial || leg.partial)
  }

  /** The loop body: one more leg, its first point dropped when there is one already. */
  method AppendLeg(before: MultiStopResult, leg: PathResult) returns (r: MultiStopResult)
    ensures r == Extend(before, leg)
  {
    r := before;
    if leg.partial { r := r.(partial := true); }
    r := r.(legDistances := r.legDistances + [leg.distance], totalDistance := r.totalDistance + leg.distance);
    if r.waypoints == [] {
      r := r.(waypoints := r.waypoints + leg.waypoints);
    } else if leg.waypoints != [] {
      r := r.(waypoints := r.waypoints + leg.waypoints[1..]);
    }
    r := r.(legBoundaries := r.legBoundaries + [|r.waypoints|]);
  }

  lemma LegsStart(find: Finder, stops: seq<Vec3>)
    requires stops != []
    ensures Legs(find, stops, 0) == Ok([])
  {
  }

  lemma LegsStep(find: Finder, stops: seq<Vec3>, k: nat)
    requires k + 1 < |stops| && Legs(find, stops, k).Ok?
    ensures Legs(find, stops, k + 1) ==
            match find(stops[k], stops[k + 1])
            case Err(e) => Err(e)
            case Ok(leg) => Ok(Legs(find, stops, k).value + [leg])
  {
  }

  lemma RouteEmpty()
    ensures Route([]) == MultiStopResult([], 0.0, [], [0], false)
  {
  }

  lemma RouteSnoc(legs: seq<PathResult>, leg: PathResult)
    ensures Route(legs + [leg]) == Extend(Route(legs), leg)
  {
    var more := legs + [leg];
    assert more[..|legs|] == legs;
    assert forall i :: 0 <= i < |legs| ==> more[i] == legs[i];
    assert more[|legs|] == leg;
  }

  // Nothing is lost

  ghost predicate NonEmpty(legs: seq<PathResult>) { forall i :: 0 <= i < |legs| ==> legs[i].waypoints != [] }

  /** Each leg starts where the one before it ended. */
  ghost predicate Linked(legs: seq<PathResult>) {
    && NonEmpty(legs)
    && forall i, j :: 0 <= i < j < |legs| && j == i + 1 ==>
         legs[j].waypoints[0] == legs[i].waypoints[|legs[i].waypoints| - 1]
  }

  lemma {:induction false} BoundaryIs(legs: seq<PathResult>, k: nat)
    requires k <= |legs|
    ensures Boundaries(legs)[k] == |Joined(legs[..k])|
    decreases |legs|
  {
    if k == |legs| {
      assert legs[..k] == legs;
      if legs != [] { assert |Boundaries(legs[..|legs| - 1])| == |legs|; }
    } else {
      BoundaryIs(legs[..|legs| - 1], k);
      assert legs[..|legs| - 1][..k] == legs[..k];
    }
  }

  lemma {:induction false} JoinedPrefix(legs: seq<PathResult>, k: nat)
    requires k <= |legs|
    ensures Joined(legs[..k]) <= Joined(legs)
    decreases |legs|
  {
    if k == |legs| { assert legs[..k] == legs; } else {
      JoinedPrefix(legs[..|legs| - 1], k);
      assert legs[..|legs| - 1][..k] == legs[..k];
    }
  }

  lemma JoinedStep(legs: seq<PathResult>, k: nat)
    requires k < |legs|
    ensures var before := Joined(legs[..k]); Joined(legs[..k + 1]) == before + Appended(before, legs[k].waypoints)
  {
    assert legs[..k + 1][..k] == legs[..k];
  }

  lemma LegNonEmpty(legs: seq<PathResult>, k: nat)
    requires NonEmpty(legs) && k < |legs|
    ensures legs[k].waypoints != []
  {
  }

  lemma PrefixEmptyIff(legs: seq<PathResult>, k: nat)
    requires NonEmpty(legs) && k <= |legs|
    ensures Joined(legs[..k]) == [] <==> k == 0
  {
    hide Joined;
    JoinedNonEmpty(legs[..k]);
  }

  lemma SliceOfPrefix<T>(a: seq<T>, b: seq<T>, all: seq<T>)
    requires a + b <= all
    ensures all[|a|..|a| + |b|] == b
  {
    assert all[..|a| + |b|] == a + b;
    assert all[|a|..|a| + |b|] == all[..|a| + |b|][|a|..];
  }

  /** Boundaries start at 0, never decrease, and end at the number of waypoints; each slice is its leg. */
  lemma BoundariesCutLegs(legs: seq<PathResult>, k: nat)
    requires NonEmpty(legs) && k < |legs|
    ensures var bs := Boundaries(legs);
            && bs[0] == 0 && bs[k] <= bs[k + 1] <= bs[|legs|] == |Joined(legs)|
            && Joined(legs)[bs[k]..bs[k + 1]] == if k == 0 then legs[0].waypoints else legs[k].waypoints[1..]
  {
    hide Joined, Boundaries, NonEmpty;
    assert legs[k].waypoints != [] by { LegNonEmpty(legs, k); }
    BoundaryIs(legs, 0);
    BoundaryIs(legs, k);
    BoundaryIs(legs, k + 1);
    BoundaryIs(legs, |legs|);
    JoinedPrefix(legs, k + 1);
    JoinedStep(legs, k);
    assert legs[..|legs|] == legs;
    PrefixEmptyIff(legs, k);
    PrefixEmptyIff(legs, 0);
    var before := Joined(legs[..k]);
    SliceOfPrefix(before, Appended(before, legs[k].waypoints), Joined(legs));
  }

  lemma {:induction false} JoinedNonEmpty(legs: seq<PathResult>)
    requires NonEmpty(legs)
    ensures Joined(legs) == [] <==> legs == []
    decreases |legs|
  {
  }

  lemma {:induction false} JoinedEnds(legs: seq<PathResult>)
    requires Linked(legs) && legs != []
    ensures Joined(legs) != []
    ensures var last := legs[|legs| - 1].waypoints; Joined(legs)[|Joined(legs)| - 1] == last[|last| - 1]
    decreases |legs|
  {
    if |legs| > 1 {
      var init := legs[..|legs| - 1];
      assert forall i :: 0 <= i < |init| ==> init[i] == legs[i];
      JoinedEnds(init);
    } else {
      assert legs[..0] == [];
    }
  }

  /** Leg `k` of a route, read off its waypoints and boundaries. */
  function Recover(r: MultiStopResult, k: nat): seq<Vec3> {
    if k + 1 >= |r.legBoundaries| then [] else
    var lo, hi := r.legBoundaries[k], r.legBoundaries[k + 1];
    if lo > hi || hi > |r.waypoints| then []
    else (if lo == 0 then [] else [r.waypoints[lo - 1]]) + r.waypoints[lo..hi]
  }

  /** The point before the slice of a leg is where the leg starts. */
  lemma LegStartShown(legs: seq<PathResult>, k: nat)
    requires Linked(legs) && 0 < k < |legs| && legs[k].waypoints != []
    ensures 0 < Boundaries(legs)[k] <= |Joined(legs)|
    ensures Joined(legs)[Boundaries(legs)[k] - 1] == legs[k].waypoints[0]
  {
    hide Joined, Boundaries, Linked, NonEmpty;
    LinkedParts(legs, k);
    RecoverBound(legs, k);
    BoundaryIs(legs, k);
    JoinedPrefix(legs, k);
    PrefixLinked(legs, k);
    JoinedEnds(legs[..k]);
    assert legs[..k][k - 1] == legs[k - 1];
  }

  lemma RecoverSlice(r: MultiStopResult, k: nat, leg: seq<Vec3>)
    requires k + 1 < |r.legBoundaries| && leg != []
    requires r.legBoundaries[k] <= r.legBoundaries[k + 1] <= |r.waypoints|
    requires var slice := r.waypoints[r.legBoundaries[k]..r.legBoundaries[k + 1]];
             if r.legBoundaries[k] == 0 then slice == leg
             else slice == leg[1..] && r.waypoints[r.legBoundaries[k] - 1] == leg[0]
    ensures Recover(r, k) == leg
  {
    assert leg == [leg[0]] + leg[1..];
  }

  /** From linked legs every leg can be read off the route. */
  lemma LegsRecoverable(legs: seq<PathResult>, k: nat)
    requires Linked(legs) && k < |legs|
    ensures Recover(Route(legs), k) == legs[k].waypoints
  {
    hide Joined, Boundaries, Total, Distances, Linked, NonEmpty, Recover;
    LinkedParts(legs, k);
    BoundariesCutLegs(legs, k);
    BoundariesInside(legs, k);
    if k > 0 { LegStartShown(legs, k); }
    RecoverSlice(Route(legs), k, legs[k].waypoints);
  }

  lemma LinkedParts(legs: seq<PathResult>, k: nat)
    requires Linked(legs) && k < |legs|
    ensures NonEmpty(legs) && legs[k].waypoints != []
    ensures k > 0 ==> var last := legs[k - 1].waypoints; last != [] && legs[k].waypoints[0] == last[|last| - 1]
  {
  }

  lemma PrefixLinked(legs: seq<PathResult>, k: nat)
    requires Linked(legs) && k <= |legs|
    ensures Linked(legs[..k])
  {
    assert forall i :: 0 <= i < k ==> legs[..k][i] == legs[i];
  }

  lemma RecoverBound(legs: seq<PathResult>, k: nat)
    requires NonEmpty(legs) && 0 < k <= |legs|
    ensures Boundaries(legs)[k] > 0
  {
    BoundaryIs(legs, k);
    JoinedNonEmpty(legs[..k]);
  }

  lemma BoundariesInside(legs: seq<PathResult>, k: nat)
    requires NonEmpty(legs) && k < |legs|
    ensures Boundaries(legs)[k] <= Boundaries(legs)[k + 1] <= |Joined(legs)|
    ensures Boundaries(legs)[1] <= |Joined(legs)|
  {
    hide Joined, Boundaries, NonEmpty;
    BoundariesCutLegs(legs, k);
    BoundariesCutLegs(legs, 0);
  }

  function LegLengths(nav: Nav, legs: seq<PathResult>): real {
    if legs == [] then 0.0
    else LegLengths(nav, legs[..|legs| - 1]) + PathDistance(nav, legs[|legs| - 1].waypoints)
  }

  lemma {:induction false} JoinDistance(nav: Nav, a: seq<Vec3>, b: seq<Vec3>)
    requires a != [] && b != [] && a[|a| - 1] == b[0]
    ensures PathDistance(nav, a + b[1..]) == PathDistance(nav, a) + PathDistance(nav, b)
    decreases |b|
  {
    if |b| == 1 {
      assert a + b[1..] == a;
    } else {
      var init, p := b[..|b| - 1], b[|b| - 1];
      JoinDistance(nav, a, init);
      assert a + b[1..] == (a + init[1..]) + [p];
      assert b == init + [p];
      var joined := a + init[1..];
      assert joined[|joined| - 1] == init[|init| - 1];
      PathDistanceSnoc(nav, joined, p);
      PathDistanceSnoc(nav, init, p);
    }
  }

  /** The joined path is as long as its legs together. */
  lemma {:induction false} JoinedLength(nav: Nav, legs: seq<PathResult>)
    requires Linked(legs)
    ensures PathDistance(nav, Joined(legs)) == LegLengths(nav, legs)
    decreases |legs|
  {
    hide PathDistance;
    if legs == [] {
      assert PathDistance(nav, []) == 0.0 by { NoDistance(nav); }
    } else {
      var init, last := legs[..|legs| - 1], legs[|legs| - 1].waypoints;
      assert forall i :: 0 <= i < |init| ==> init[i] == legs[i];
      JoinedLength(nav, init);
      if init == [] {
        assert Joined(legs) == last && LegLengths(nav, init) == 0.0;
      } else {
        JoinedEnds(init);
        JoinDistance(nav, Joined(init), last);
      }
    }
  }

  lemma NoDistance(nav: Nav)
    ensures PathDistance(nav, []) == 0.0
  {
  }

  /** When every leg reports its own length, the reported total is the length of the joined path. */
  lemma {:induction false} TotalIsLength(nav: Nav, legs: seq<PathResult>)
    requires Linked(legs) && forall i :: 0 <= i < |legs| ==> legs[i].distance == PathDistance(nav, legs[i].waypoints)
    ensures Route(legs).totalDistance == PathDistance(nav, Route(legs).waypoints)
  {
    JoinedLength(nav, legs);
    TotalIsLegLengths(nav, legs);
  }

  lemma {:induction false} TotalIsLegLengths(nav: Nav, legs: seq<PathResult>)
    requires forall i :: 0 <= i < |legs| ==> legs[i].distance == PathDistance(nav, legs[i].waypoints)
    ensures Total(legs) == LegLengths(nav, legs)
    decreases |legs|
  {
    if legs != [] { TotalIsLegLengths(nav, legs[..|legs| - 1]); }
  }

  // The optimized route

  function Reordered(stops: seq<Vec3>, order: seq<nat>): (r: seq<Vec3>)
    requires Nodes(order, |stops|)
    ensures |r| == |order| && forall i :: 0 <= i < |r| ==> r[i] == stops[order[i]]
  {
    seq(|order|, i requires 0 <= i < |order| => stops[order[i]])
  }

  /**
   * Pairwise distances, a visit order from the first stop that no reversal improves, and the legs in that order.
   * Every stop is visited exactly once when all distances are below `f32::MAX`.
   */
  method TspOptimize(find: Finder, measure: (nat, nat) -> real, stops: seq<Vec3>)
    returns (r: Result<MultiStopResult, RouteError>, ghost order: seq<nat>, ghost d: Matrix)
    requires forall i, j :: 0 <= i < j < |stops| ==> measure(i, j) >= 0.0
    ensures |stops| < 2 ==> r == Err(InvalidParams)
    ensures |stops| >= 2 ==>
              && Metric(d) && |d| == |stops|
              && (forall i, j :: 0 <= i < j < |d| ==> At(d, i, j) == measure(i, j))
              && Nodes(order, |stops|) && order != [] && order[0] == 0 && LocallyOptimal(d, order)
              && match Legs(find, Reordered(stops, order), |order| - 1)
                 case Err(e) => r == Err(e)
                 case Ok(legs) => r == Ok(Route(legs))
    ensures |stops| >= 2 && (forall i, j :: 0 <= i < j < |stops| ==> measure(i, j) < F32_MAX) ==>
              IsTour(order, |stops|)
  {
    hide LocallyOptimal, PathLength, Route, Legs, AllInReach, Greedy, Stuck, Rearranged, IsTour;
    var n := |stops|;
    if n < 2 { return Err(InvalidParams), [], []; }
    var distances := FillMatrix(n, measure);
    var weights := seq(n, _ => 1.0);
    if forall i, j :: 0 <= i < j < n ==> measure(i, j) < F32_MAX { UnitWeights(distances, weights); }
    var visitOrder, _ := SolveTsp(distances, weights);
    r := PathfindLegs(find, Reordered(stops, visitOrder));
    order, d := visitOrder, distances;
  }

  lemma UnitWeights(d: Matrix, w: seq<real>)
    requires Metric(d) && Weights(d, w) && forall j :: 0 <= j < |w| ==> w[j] == 1.0
    requires forall i, j :: 0 <= i < j < |d| ==> At(d, i, j) < F32_MAX
    requires forall i :: 0 <= i < |d| ==> At(d, i, i) == 0.0
    ensures AllInReach(d, w)
  {
    forall a, b | 0 <= a < |d| && 0 <= b < |d| ensures At(d, a, b) < F32_MAX * w[b] {
      assert At(d, a, b) == At(d, b, a);
    }
  }
}
