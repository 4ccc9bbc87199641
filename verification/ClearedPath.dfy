/** What the cleared path is made of, and how densely its segments are sampled. */
module ClearedPath {
  import opened Results
  import opened Geometry
  import opened WallClearance

  // How far apart the samples are

  /** The multiples of the spacing, counted from the start, that are below the limit. */
  ghost predicate Spaced(ts: seq<real>, start: real, spacing: real, limit: real) {
    && (ts == [] <==> start >= limit)
    && (ts != [] ==> ts[0] == start && limit - spacing <= ts[|ts| - 1])
    && (forall i :: 0 <= i < |ts| ==> start <= ts[i] < limit)
    && (forall i, j :: 0 <= i < j < |ts| && j == i + 1 ==> ts[j] == ts[i] + spacing)
  }

  lemma {:induction false} StepsSpaced(start: real, spacing: real, limit: real)
    requires spacing > 0.0
    ensures Spaced(Steps(start, spacing, limit), start, spacing, limit)
    decreases if start < limit then ((limit - start) / spacing).Floor + 1 else 0
  {
    if start < limit {
      StepsShrink(start, spacing, limit);
      StepsSpaced(start + spacing, spacing, limit);
      var ts, rest := Steps(start, spacing, limit), Steps(start + spacing, spacing, limit);
      assert ts == [start] + rest;
      forall i, j | 0 <= i < j < |ts| && j == i + 1 ensures ts[j] == ts[i] + spacing {
        if i > 0 { assert ts[i] == rest[i - 1] && ts[j] == rest[j - 1]; }
      }
    }
  }

  /** Sample number `i` counted from 1, between the start of the segment at 0 and its end at 1. */
  function Mark(ts: seq<real>, i: nat): real
    requires i <= |ts| + 1
  {
    if i == 0 then 0.0 else if i <= |ts| then ts[i - 1] else 1.0
  }

  /** How far the next mark `b` is from mark `a`. */
  ghost predicate Apart(s: Spacing, a: real, b: real) {
    && 0.0 < b - a <= s.normal + s.dense
    && (a < s.zone - s.dense ==> b - a == s.dense)
    && (s.zone <= a && b < 1.0 - s.zone ==> b - a == s.normal)
    && (a >= 1.0 - s.zone ==> b - a <= 1.5 * s.dense)
  }

  lemma MarkIs(f: seq<real>, m: seq<real>, l: seq<real>, i: nat)
    requires i <= |f + m + l| + 1
    ensures Mark(f + m + l, i) ==
            if i == 0 then 0.0 else if i <= |f| then f[i - 1] else if i <= |f + m| then m[i - |f| - 1]
            else if i <= |f + m + l| then l[i - |f + m| - 1] else 1.0
  {
  }

  ghost predicate Parts(s: Spacing, f: seq<real>, m: seq<real>, l: seq<real>) {
    && SpacingPositive(s) && 2.0 * s.dense <= s.normal && s.zone <= s.normal
    && Spaced(f, s.dense, s.dense, s.zone) && Spaced(m, s.normal, s.normal, 1.0 - s.zone)
    && Spaced(l, 1.0 - s.zone, s.dense, 1.0 - s.dense * 0.5)
  }

  lemma NearStart(s: Spacing, f: seq<real>, m: seq<real>, l: seq<real>, i: nat)
    requires Parts(s, f, m, l) && i <= |f|
    ensures Apart(s, Mark(f + m + l, i), Mark(f + m + l, i + 1))
  {
    hide Mark;
    MarkIs(f, m, l, i);
    MarkIs(f, m, l, i + 1);
  }

  lemma InMiddle(s: Spacing, f: seq<real>, m: seq<real>, l: seq<real>, i: nat)
    requires Parts(s, f, m, l) && |f| < i <= |f + m|
    ensures Apart(s, Mark(f + m + l, i), Mark(f + m + l, i + 1))
  {
    hide Mark;
    MarkIs(f, m, l, i);
    MarkIs(f, m, l, i + 1);
    var k := i - |f| - 1;
    if k + 1 < |m| { assert m[k + 1] == m[k] + s.normal; }
  }

  lemma NearEnd(s: Spacing, f: seq<real>, m: seq<real>, l: seq<real>, i: nat)
    requires Parts(s, f, m, l) && |f + m| < i <= |f + m + l|
    ensures Apart(s, Mark(f + m + l, i), Mark(f + m + l, i + 1))
  {
    hide Mark;
    MarkIs(f, m, l, i);
    MarkIs(f, m, l, i + 1);
    var k := i - |f + m| - 1;
    if k + 1 < |l| { assert l[k + 1] == l[k] + s.dense; }
  }

  lemma MarksApart(s: Spacing, i: nat)
    requires SpacingPositive(s) && 2.0 * s.dense <= s.normal && s.zone <= s.normal && i <= |SampleTs(s)|
    ensures Apart(s, Mark(SampleTs(s), i), Mark(SampleTs(s), i + 1))
  {
    hide Steps, Apart, Mark, Spaced;
    var f := Steps(s.dense, s.dense, s.zone);
    var m := Steps(s.normal, s.normal, 1.0 - s.zone);
    var l := Steps(1.0 - s.zone, s.dense, 1.0 - s.dense * 0.5);
    StepsSpaced(s.dense, s.dense, s.zone);
    StepsSpaced(s.normal, s.normal, 1.0 - s.zone);
    StepsSpaced(1.0 - s.zone, s.dense, 1.0 - s.dense * 0.5);
    if i <= |f| { NearStart(s, f, m, l, i); }
    else if i <= |f + m| { InMiddle(s, f, m, l, i); }
    else { NearEnd(s, f, m, l, i); }
  }

  lemma Ratio(x: real, k: real)
    requires k > 0.0
    ensures (x / k) * k == x
  {
  }

  lemma Grows(x: real, y: real, k: real)
    requires k > 0.0
    ensures x <= y <==> x * k <= y * k
  {
    if x <= y { assert (y - x) * k >= 0.0; } else { assert (x - y) * k > 0.0; }
  }

  lemma Quotients(c: real, m: real, k: real)
    requires k > 0.0 && m >= 1.0 && m >= c > 0.0
    ensures (0.5 / k) * k == 0.5 && (m / k) * k == m && (c / k) * k == c
    ensures 2.0 * (0.5 / k) <= m / k && c / k <= m / k
  {
    var d, n, q := 0.5 / k, m / k, c / k;
    Ratio(0.5, k);
    Ratio(m, k);
    Ratio(c, k);
    assert (2.0 * d) * k == 2.0 * (d * k) == 1.0;
    Grows(2.0 * d, n, k);
    Grows(q, n, k);
  }

  lemma Smaller(q: real, k: real)
    requires k > 0.0
    ensures MinR(q, 0.3) * k == MinR(q * k, 0.3 * k)
  {
    Grows(0.3, q, k);
  }

  /**
   * The samples of a segment of length `segLen`, where `half` is the parameter of half a unit of length, `step` that of
   * the clearance, at least one unit, and `zone` that of the clearance, at most three tenths of the segment: the next
   * sample is half a unit away within the zone at the start, hardly more within that at the end, one step in between,
   * and never farther than both together.
   */
  lemma SamplesApart(clearance: real, segLen: real, half: real, step: real, zone: real, i: nat)
    requires clearance > 0.0 && segLen > 0.0 && i <= |SampleTs(SpacingOf(clearance, segLen))|
    requires half * segLen == 0.5 && step * segLen == MaxR(clearance, 1.0)
    requires zone * segLen == MinR(clearance, 0.3 * segLen)
    ensures var ts := SampleTs(SpacingOf(clearance, segLen));
            Apart(Spacing(half, step, zone), Mark(ts, i), Mark(ts, i + 1))
  {
    hide SampleTs, Mark, MinR, MaxR, Apart, SpacingOf;
    var s := SpacingOf(clearance, segLen);
    SpacingIsPositive(clearance, segLen);
    ScaledSpacing(clearance, segLen);
    Same(half, s.dense, segLen);
    Same(step, s.normal, segLen);
    Same(zone, s.zone, segLen);
    MarksApart(s, i);
  }

  lemma ScaledSpacing(clearance: real, segLen: real)
    requires clearance > 0.0 && segLen > 0.0
    ensures var s := SpacingOf(clearance, segLen);
            && 2.0 * s.dense <= s.normal && s.zone <= s.normal
            && s.dense * segLen == 0.5 && s.normal * segLen == MaxR(clearance, 1.0)
            && s.zone * segLen == MinR(clearance, 0.3 * segLen)
  {
    hide MinR;
    var q := clearance / segLen;
    Quotients(clearance, MaxR(clearance, 1.0), segLen);
    Smaller(q, segLen);
    ZoneIsShort(q);
    assert q * segLen == clearance;
  }

  lemma Same(x: real, y: real, k: real)
    requires k > 0.0 && x * k == y * k
    ensures x == y
  {
    Grows(x, y, k);
    Grows(y, x, k);
  }

  lemma ZoneIsShort(q: real)
    ensures MinR(q, 0.3) <= q
  {
  }

  // What is inserted, and where

  ghost predicate Increasing(at: seq<nat>, n: nat) {
    && (forall k :: 0 <= k < |at| ==> at[k] < n)
    && (forall i, j :: 0 <= i < j < |at| ==> at[i] < at[j])
  }

  /** The points of `r` are those the samples `ts` are pushed to; point `k` comes from sample `at[k]`. */
  ghost predicate Pushes(nav: Nav, a: Vec3, b: Vec3, clearance: real, ts: seq<real>, r: seq<Vec3>, at: seq<nat>) {
    && |at| == |r| && Increasing(at, |ts|)
    && (forall k :: 0 <= k < |r| ==> SamplePushed(nav, a, b, clearance, ts[at[k]], r[k]))
    && (forall i, q :: 0 <= i < |ts| && SamplePushed(nav, a, b, clearance, ts[i], q) ==> i in at)
  }

  /** What a segment inserts are the points its samples are pushed to, in the order of the samples. */
  lemma {:induction false} OffsetsInOrder(nav: Nav, a: Vec3, b: Vec3, clearance: real, ts: seq<real>)
    returns (at: seq<nat>)
    ensures Pushes(nav, a, b, clearance, ts, Offsets(nav, a, b, clearance, ts), at)
    decreases |ts|
  {
    hide Offset, SamplePushed, Pushes;
    if ts == [] {
      at := [];
      PushesNothing(nav, a, b, clearance);
    } else {
      var n := |ts| - 1;
      var before := OffsetsInOrder(nav, a, b, clearance, ts[..n]);
      assert ts == ts[..n] + [ts[n]];
      at := PushesNext(nav, a, b, clearance, ts[..n], Offsets(nav, a, b, clearance, ts[..n]), before, ts[n]);
    }
  }

  lemma PushesNothing(nav: Nav, a: Vec3, b: Vec3, clearance: real)
    ensures Pushes(nav, a, b, clearance, [], [], [])
  {
    hide SamplePushed;
  }

  lemma PushesNext(nav: Nav, a: Vec3, b: Vec3, clearance: real, ts: seq<real>, r: seq<Vec3>, at: seq<nat>, t: real)
    returns (to: seq<nat>)
    requires Pushes(nav, a, b, clearance, ts, r, at)
    ensures Pushes(nav, a, b, clearance, ts + [t], r + Offset(nav, a, b, clearance, t), to)
  {
    hide Offset, SamplePushed;
    OffsetIff(nav, a, b, clearance, t);
    var last := Offset(nav, a, b, clearance, t);
    if last == [] {
      to := at;
      assert r + last == r;
      forall i, q | 0 <= i <= |ts| && SamplePushed(nav, a, b, clearance, (ts + [t])[i], q) ensures i in to {
        assert i == |ts| ==> last == [q];
      }
    } else {
      assert last == [last[0]];
      to := at + [|ts|];
      assert to[|at|] == |ts|;
      forall i, q | 0 <= i <= |ts| && SamplePushed(nav, a, b, clearance, (ts + [t])[i], q) ensures i in to {
        if i < |ts| {
          assert i in at;
        }
      }
    }
  }

  /** What is inserted between two neighbouring waypoints. */
  function Inserted(nav: Nav, a: Vec3, b: Vec3, clearance: real): seq<Vec3>
    requires clearance > 0.0
  {
    var segLen := Distance2D(nav, a, b);
    if segLen < 0.01 then [] else Offsets(nav, a, b, clearance, SampleTs(SpacingOf(clearance, segLen)))
  }

  /** What becomes of waypoint `k`: the first and the last one stay. */
  function Kept(nav: Nav, w: seq<Vec3>, clearance: real, k: nat): Vec3
    requires k < |w|
  {
    if 0 < k < |w| - 1 then MovedWaypoint(nav, w[k - 1], w[k], clearance) else w[k]
  }

  ghost predicate Placed(nav: Nav, w: seq<Vec3>, clearance: real, r: seq<Vec3>, at: seq<nat>) {
    |at| <= |w| && forall k :: 0 <= k < |at| ==> at[k] < |r| && r[at[k]] == Kept(nav, w, clearance, k)
  }

  ghost predicate Filled(nav: Nav, w: seq<Vec3>, clearance: real, r: seq<Vec3>, at: seq<nat>)
    requires clearance > 0.0 && |at| <= |w|
  {
    forall i, j :: 0 <= i < j < |at| && j == i + 1 ==>
      at[i] < at[j] < |r| && r[at[i] + 1..at[j]] == Inserted(nav, w[i], w[j], clearance)
  }

  /** Where the waypoints are in the path `r`, which they start and end, and what is between them. */
  ghost predicate Made(nav: Nav, w: seq<Vec3>, clearance: real, r: seq<Vec3>, at: seq<nat>)
    requires clearance > 0.0 && |at| <= |w|
  {
    && at != [] && at[0] == 0 && at[|at| - 1] == |r| - 1
    && Placed(nav, w, clearance, r, at) && Filled(nav, w, clearance, r, at)
  }

  lemma PlacedNext(nav: Nav, w: seq<Vec3>, clearance: real, r: seq<Vec3>, at: seq<nat>, more: seq<Vec3>)
    requires |at| < |w| && Placed(nav, w, clearance, r, at) && r < more
    requires more[|more| - 1] == Kept(nav, w, clearance, |at|)
    ensures Placed(nav, w, clearance, more, at + [|more| - 1])
  {
    hide Kept;
    var to := at + [|more| - 1];
    forall k | 0 <= k < |to| ensures to[k] < |more| && more[to[k]] == Kept(nav, w, clearance, k) {
      if k < |at| { assert to[k] == at[k] && r[at[k]] == more[..|r|][at[k]]; } else { assert to[k] == |more| - 1; }
    }
  }

  lemma FilledNext(nav: Nav, w: seq<Vec3>, clearance: real, r: seq<Vec3>, at: seq<nat>, more: seq<Vec3>)
    requires clearance > 0.0 && 0 < |at| < |w| && Filled(nav, w, clearance, r, at)
    requires at[|at| - 1] == |r| - 1 && r < more
    requires more[|r|..|more| - 1] == Inserted(nav, w[|at| - 1], w[|at|], clearance)
    ensures Filled(nav, w, clearance, more, at + [|more| - 1])
  {
    hide Inserted;
    var to := at + [|more| - 1];
    forall i, j | 0 <= i < j < |to| && j == i + 1
      ensures to[i] < to[j] < |more| && more[to[i] + 1..to[j]] == Inserted(nav, w[i], w[j], clearance)
    {
      if j < |at| { assert more[at[i] + 1..at[j]] == r[at[i] + 1..at[j]]; }
    }
  }

  lemma MadeNext(nav: Nav, w: seq<Vec3>, clearance: real, r: seq<Vec3>, at: seq<nat>, p: Vec3)
    requires clearance > 0.0 && |at| < |w| && Made(nav, w, clearance, r, at)
    requires p == Kept(nav, w, clearance, |at|)
    ensures var more := r + Inserted(nav, w[|at| - 1], w[|at|], clearance) + [p];
            Made(nav, w, clearance, more, at + [|more| - 1])
  {
    hide Inserted, Kept, Placed, Filled;
    var mid := Inserted(nav, w[|at| - 1], w[|at|], clearance);
    var more := r + mid + [p];
    assert r < more && more[|r|..|more| - 1] == mid;
    PlacedNext(nav, w, clearance, r, at, more);
    FilledNext(nav, w, clearance, r, at, more);
  }

  lemma {:induction false} MadeUpTo(nav: Nav, w: seq<Vec3>, clearance: real, i: nat) returns (at: seq<nat>)
    requires clearance > 0.0 && i + 1 < |w|
    ensures |at| == i + 1 && Made(nav, w, clearance, ClearedUpTo(nav, w, clearance, i), at)
    decreases i
  {
    hide Inserted, MovedWaypoint, SegmentOffsets, Made, ClearedUpTo;
    if i == 0 {
      at := [0];
      ClearedStart(nav, w, clearance);
      MadeStart(nav, w, clearance);
    } else {
      var before := ClearedUpTo(nav, w, clearance, i - 1);
      at := MadeUpTo(nav, w, clearance, i - 1);
      ClearedStep(nav, w, clearance, i - 1, before);
      InsertedIs(nav, w[i - 1], w[i], clearance);
      MadeNext(nav, w, clearance, before, at, MovedWaypoint(nav, w[i - 1], w[i], clearance));
      at := at + [|ClearedUpTo(nav, w, clearance, i)| - 1];
    }
  }

  lemma MadeStart(nav: Nav, w: seq<Vec3>, clearance: real)
    requires clearance > 0.0 && w != []
    ensures Made(nav, w, clearance, [w[0]], [0])
  {
    hide MovedWaypoint, Inserted;
  }

  lemma InsertedIs(nav: Nav, a: Vec3, b: Vec3, clearance: real)
    requires clearance > 0.0
    ensures SegmentOffsets(nav, a, b, clearance) == Inserted(nav, a, b, clearance)
  {
    hide Offsets, SampleTs, SpacingOf;
  }

  /**
   * The cleared path is the first waypoint, then for every segment what its samples insert and its end: the waypoint as
   * moved away from the wall, or exactly the last one. Segments shorter than a hundredth insert nothing.
   */
  lemma ClearedIsMade(nav: Nav, w: seq<Vec3>, clearance: real) returns (at: seq<nat>)
    requires clearance > 0.0 && |w| >= 2
    ensures |at| == |w| && Made(nav, w, clearance, Cleared(nav, w, clearance), at)
  {
    hide Inserted, MovedWaypoint, SegmentOffsets, ClearedUpTo, Made;
    var n := |w| - 1;
    var before := ClearedUpTo(nav, w, clearance, n - 1);
    at := MadeUpTo(nav, w, clearance, n - 1);
    MadeNext(nav, w, clearance, before, at, w[n]);
    ClearedStep(nav, w, clearance, n - 1, before);
    InsertedIs(nav, w[n - 1], w[n], clearance);
    at := at + [|Cleared(nav, w, clearance)| - 1];
  }
}
