/** The post-processing pipeline: string pulling, densification, wall clearance. */
module Pathfinding {
  import opened Results
  import opened Geometry
  import opened StringPull
  import opened PostProcess
  import opened WallClearance

  datatype PathOptions = PathOptions(
    optimize: bool,
    stringPullDeviation: Option<real>,
    stringPullHeading: Option<real>,
    stringPullWallDist: Option<real>,
    densifySegmentLength: Option<real>,
    wallClearance: Option<real>)

  function OrElse(o: Option<real>, default: real): real { if o.Some? then o.value else default }

  function LimitsOf(o: PathOptions): Limits {
    Limits(OrElse(o.stringPullDeviation, MAX_STRING_PULL_DEVIATION), OrElse(o.stringPullHeading, MAX_HEADING_CHANGE),
           OrElse(o.stringPullWallDist, DEFAULT_WALL_DISTANCE))
  }

  function SegmentLimit(o: PathOptions): real { OrElse(o.densifySegmentLength, MAX_SEGMENT_LENGTH) }

  /** First and last point of the path are those of the waypoints. */
  ghost predicate SameEnds(path: seq<Vec3>, w: seq<Vec3>) {
    if w == [] then path == [] else path != [] && path[0] == w[0] && path[|path| - 1] == w[|w| - 1]
  }

  /** What string pulling leaves of the waypoints, if it is asked for. */
  ghost function Pulled(nav: Nav, w: seq<Vec3>, o: PathOptions): seq<Vec3> {
    if o.optimize && |w| > 2 then Pick(w, KeptFrom(nav, LimitsOf(o), w, 0)) else w
  }

  /** A missing option takes its default. */
  lemma Defaults(o: PathOptions)
    ensures LimitsOf(o).deviation == if o.stringPullDeviation.Some? then o.stringPullDeviation.value else 1.5
    ensures LimitsOf(o).heading == if o.stringPullHeading.Some? then o.stringPullHeading.value else 0.524
    ensures LimitsOf(o).wallDistance == if o.stringPullWallDist.Some? then o.stringPullWallDist.value else 0.6
    ensures SegmentLimit(o) == if o.densifySegmentLength.Some? then o.densifySegmentLength.value else 3.0
  {
  }

  /**
   * For any oracle the processed path starts and ends exactly where the raw one does; without clearance and with
   * projections that return the points themselves no gap exceeds the segment limit.
   */
  method PostProcessPath(nav: Nav, w: seq<Vec3>, options: PathOptions) returns (result: seq<Vec3>)
    ensures var pulled := Pulled(nav, w, options);
            var dense := if pulled == [] then [] else Densified(nav, pulled, SegmentLimit(options), |pulled| - 1);
            result == if options.wallClearance.Some? && options.wallClearance.value > 0.0
                      then Cleared(nav, dense, options.wallClearance.value) else dense
    ensures SameEnds(result, w)
    ensures (options.wallClearance.None? || options.wallClearance.value <= 0.0)
            && SegmentLimit(options) > 0.0 && IsSqrt(nav.sqrt) && (forall a, b :: FaithfulProjection(nav, a, b))
            ==> GapsWithin(nav, result, SegmentLimit(options))
  {
    hide Densified, Cleared, KeptFrom, Pick, Distance, FaithfulProjection, IsSqrt;
    if options.optimize {
      result := StringPullPath(nav, LimitsOf(options), w);
      PulledEnds(nav, LimitsOf(options), w);
    } else {
      result := w;
    }
    var pulled := result;
    result := DensifySegments(nav, pulled, SegmentLimit(options));
    if pulled != [] { DensifiedEnds(nav, pulled, SegmentLimit(options), |pulled| - 1); }
    if SegmentLimit(options) > 0.0 && IsSqrt(nav.sqrt) && (forall a, b :: FaithfulProjection(nav, a, b)) && pulled != []
    {
      DensifiedGaps(nav, pulled, SegmentLimit(options), |pulled| - 1);
    }
    if options.wallClearance.Some? && options.wallClearance.value > 0.0 {
      var dense := result;
      result := ApplyWallClearance(nav, dense, options.wallClearance.value);
      if dense != [] {
        ClearedKeepsEnds(nav, dense, options.wallClearance.value);
      } else {
        ClearedNothing(nav, options.wallClearance.value);
      }
    }
  }

  lemma ClearedNothing(nav: Nav, clearance: real)
    ensures Cleared(nav, [], clearance) == []
  {
  }

  lemma PulledEnds(nav: Nav, lim: Limits, w: seq<Vec3>)
    ensures w != [] ==> SameEnds(Pick(w, KeptFrom(nav, lim, w, 0)), w)
  {
    if w != [] {
      var ks := PulledPath(nav, lim, w);
      assert ks[|ks| - 1] == |w| - 1;
    }
  }
}
