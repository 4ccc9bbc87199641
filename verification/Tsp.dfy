/** Visit-order solver: greedy nearest neighbour, then 2-opt by in-place reversals. Distances are reals. */
module Tsp {

  /** `f32::MAX`, the cost that no greedy candidate may reach. */
  const F32_MAX: real := 340282346638528859811704183484516925440.0

  const MIN_GAIN: real := 0.01

  type Matrix = seq<seq<real>>

  ghost predicate Square(d: Matrix) { forall i :: 0 <= i < |d| ==> |d[i]| == |d| }

  function At(d: Matrix, a: nat, b: nat): real
    requires Square(d) && a < |d| && b < |d|
  {
    d[a][b]
  }

  ghost predicate Metric(d: Matrix) {
    && Square(d)
    && (forall a, b :: 0 <= a < |d| && 0 <= b < |d| ==> At(d, a, b) == At(d, b, a))
    && (forall a, b :: 0 <= a < |d| && 0 <= b < |d| ==> At(d, a, b) >= 0.0)
  }

  ghost predicate Nodes(o: seq<nat>, n: nat) { forall k :: 0 <= k < |o| ==> o[k] < n }

  ghost predicate Distinct(o: seq<nat>) { forall i, j :: 0 <= i < j < |o| ==> o[i] != o[j] }

  /** Every node of 0..n exactly once. */
  ghost predicate IsTour(o: seq<nat>, n: nat) { |o| == n && Nodes(o, n) && Distinct(o) }

  /** Length of the open path through the nodes. */
  function PathLength(d: Matrix, o: seq<nat>): real
    requires Square(d) && Nodes(o, |d|)
  {
    if |o| < 2 then 0.0 else At(d, o[0], o[1]) + PathLength(d, o[1..])
  }

  lemma {:induction false} PathLengthNonNegative(d: Matrix, o: seq<nat>)
    requires Metric(d) && Nodes(o, |d|)
    ensures PathLength(d, o) >= 0.0
    decreases |o|
  {
    if |o| >= 2 { PathLengthNonNegative(d, o[1..]); }
  }

  lemma {:induction false} PathLengthConcat(d: Matrix, a: seq<nat>, b: seq<nat>)
    requires Square(d) && Nodes(a, |d|) && Nodes(b, |d|) && a != [] && b != []
    ensures Nodes(a + b, |d|)
    ensures PathLength(d, a + b) == PathLength(d, a) + At(d, a[|a| - 1], b[0]) + PathLength(d, b)
    decreases |a|
  {
    assert (a + b)[1..] == a[1..] + b;
    if |a| == 1 {
      assert a[1..] + b == b;
    } else {
      PathLengthConcat(d, a[1..], b);
    }
  }

  function Reversed(s: seq<nat>): (r: seq<nat>)
    ensures |r| == |s| && forall k :: 0 <= k < |s| ==> r[k] == s[|s| - 1 - k]
  {
    if s == [] then [] else Reversed(s[1..]) + [s[0]]
  }

  lemma {:induction false} ReversedLength(d: Matrix, s: seq<nat>)
    requires Metric(d) && Nodes(s, |d|)
    ensures Nodes(Reversed(s), |d|) && PathLength(d, Reversed(s)) == PathLength(d, s)
    decreases |s|
  {
    if |s| >= 2 {
      ReversedLength(d, s[1..]);
      PathLengthConcat(d, Reversed(s[1..]), [s[0]]);
      assert Reversed(s[1..])[|s| - 2] == s[1];
    }
  }

  /** `o` with the nodes of `o[i..j]` in opposite order. */
  function Flip(o: seq<nat>, i: nat, j: nat): (r: seq<nat>)
    requires i <= j <= |o|
    ensures |r| == |o|
  {
    o[..i] + Reversed(o[i..j]) + o[j..]
  }

  /** A sequence that mirrors the range and keeps the rest is the flip. */
  lemma MirrorIsFlip(o: seq<nat>, i: nat, j: nat, r: seq<nat>)
    requires i <= j <= |o| == |r|
    requires forall k :: i <= k < j ==> r[k] == o[i + j - 1 - k]
    requires forall k :: 0 <= k < i || j <= k < |o| ==> r[k] == o[k]
    ensures r == Flip(o, i, j)
  {
    FlipAt(o, i, j);
  }

  lemma FlipAt(o: seq<nat>, i: nat, j: nat)
    requires i <= j <= |o|
    ensures forall k :: 0 <= k < |o| ==> Flip(o, i, j)[k] == if i <= k < j then o[i + j - 1 - k] else o[k]
  {
  }

  lemma {:induction false} ReversedMultiset(s: seq<nat>)
    ensures multiset(Reversed(s)) == multiset(s)
    decreases |s|
  {
    if s != [] {
      ReversedMultiset(s[1..]);
      assert s == [s[0]] + s[1..];
    }
  }

  lemma FlipMultiset(o: seq<nat>, i: nat, j: nat)
    requires i <= j <= |o|
    ensures multiset(Flip(o, i, j)) == multiset(o)
  {
    hide Reversed;
    ReversedMultiset(o[i..j]);
    assert o == o[..i] + o[i..j] + o[j..];
  }

  /** Length of the two edges a flip replaces, and of those it puts in. */
  function OldCost(d: Matrix, o: seq<nat>, i: nat, j: nat): real
    requires Square(d) && Nodes(o, |d|) && 1 <= i < j < |o|
  {
    At(d, o[i - 1], o[i]) + At(d, o[j - 1], o[j])
  }

  function NewCost(d: Matrix, o: seq<nat>, i: nat, j: nat): real
    requires Square(d) && Nodes(o, |d|) && 1 <= i < j < |o|
  {
    At(d, o[i - 1], o[j - 1]) + At(d, o[i], o[j])
  }

  lemma PathLengthSplit(d: Matrix, a: seq<nat>, b: seq<nat>, c: seq<nat>)
    requires Square(d) && Nodes(a, |d|) && Nodes(b, |d|) && Nodes(c, |d|) && a != [] && b != [] && c != []
    ensures Nodes(a + b + c, |d|)
    ensures PathLength(d, a + b + c) == PathLength(d, a) + PathLength(d, b) + PathLength(d, c)
                                        + At(d, a[|a| - 1], b[0]) + At(d, b[|b| - 1], c[0])
  {
    hide PathLength, At;
    PathLengthConcat(d, a, b);
    PathLengthConcat(d, a + b, c);
    assert (a + b)[|a + b| - 1] == b[|b| - 1];
  }

  lemma MiddleReversed(d: Matrix, a: seq<nat>, b: seq<nat>, c: seq<nat>)
    requires Metric(d) && Nodes(a, |d|) && Nodes(b, |d|) && Nodes(c, |d|) && a != [] && b != [] && c != []
    ensures Nodes(a + b + c, |d|) && Nodes(a + Reversed(b) + c, |d|)
    ensures PathLength(d, a + Reversed(b) + c) ==
            PathLength(d, a + b + c) - (At(d, a[|a| - 1], b[0]) + At(d, b[|b| - 1], c[0]))
                                     + (At(d, a[|a| - 1], b[|b| - 1]) + At(d, b[0], c[0]))
  {
    hide PathLength, Reversed, At;
    ReversedLength(d, b);
    PathLengthSplit(d, a, b, c);
    PathLengthSplit(d, a, Reversed(b), c);
  }

  lemma FlipParts(o: seq<nat>, i: nat, j: nat, n: nat)
    requires Nodes(o, n) && 1 <= i < j < |o|
    ensures Nodes(o[..i], n) && Nodes(o[i..j], n) && Nodes(o[j..], n) && o[..i] + o[i..j] + o[j..] == o
    ensures o[..i][i - 1] == o[i - 1] && o[i..j][0] == o[i] && o[i..j][j - i - 1] == o[j - 1] && o[j..][0] == o[j]
  {
  }

  /** The two-edge test of the solver measures exactly how a flip changes the path length. */
  lemma FlipLength(d: Matrix, o: seq<nat>, i: nat, j: nat)
    requires Metric(d) && Nodes(o, |d|) && 1 <= i < j < |o|
    ensures Nodes(Flip(o, i, j), |d|)
    ensures PathLength(d, Flip(o, i, j)) == PathLength(d, o) - OldCost(d, o, i, j) + NewCost(d, o, i, j)
  {
    hide PathLength, Reversed, At, Nodes;
    FlipParts(o, i, j, |d|);
    MiddleReversed(d, o[..i], o[i..j], o[j..]);
  }

  /** No flip shortens the path by more than the minimal gain. */
  ghost predicate LocallyOptimal(d: Matrix, o: seq<nat>)
    requires Metric(d) && Nodes(o, |d|)
  {
    forall i, j :: 1 <= i < j < |o| ==>
      Nodes(Flip(o, i, j), |d|) && PathLength(d, Flip(o, i, j)) >= PathLength(d, o) - MIN_GAIN
  }

  ghost predicate NoGain(d: Matrix, o: seq<nat>, i: nat, j: nat)
    requires Square(d) && Nodes(o, |d|) && 1 <= i < j < |o|
  {
    NewCost(d, o, i, j) >= OldCost(d, o, i, j) - MIN_GAIN
  }

  lemma NoGainIsOptimal(d: Matrix, o: seq<nat>)
    requires Metric(d) && Nodes(o, |d|) && forall i, j :: 1 <= i < j < |o| ==> NoGain(d, o, i, j)
    ensures LocallyOptimal(d, o)
  {
    forall i, j | 1 <= i < j < |o|
      ensures Nodes(Flip(o, i, j), |d|) && PathLength(d, Flip(o, i, j)) >= PathLength(d, o) - MIN_GAIN
    {
      FlipLength(d, o, i, j);
      assert NoGain(d, o, i, j);
    }
  }

  /** `order[i..j].reverse()` */
  method ReverseRange(order: array<nat>, i: nat, j: nat)
    requires i <= j <= order.Length
    modifies order
    ensures order[..] == Flip(old(order[..]), i, j)
  {
    hide Flip;
    ghost var was := order[..];
    var lo, hi := i, j;
    while lo + 1 < hi
      invariant i <= lo <= hi <= j && lo + hi == i + j
      invariant forall k :: i <= k < lo ==> order[k] == was[i + j - 1 - k]
      invariant forall k :: hi <= k < j ==> order[k] == was[i + j - 1 - k]
      invariant forall k :: 0 <= k < i || lo <= k < hi || j <= k < order.Length ==> order[k] == was[k]
    {
      order[lo], order[hi - 1] := order[hi - 1], order[lo];
      lo, hi := lo + 1, hi - 1;
    }
    MirrorIsFlip(was, i, j, order[..]);
  }

  /** Same nodes, same ends. */
  ghost predicate Rearranged(a: seq<nat>, b: seq<nat>) {
    multiset(a) == multiset(b) && |a| == |b| && (a != [] ==> a[0] == b[0] && a[|a| - 1] == b[|b| - 1])
  }

  lemma RearrangedSame(o: seq<nat>)
    ensures Rearranged(o, o)
  {
  }

  lemma RearrangedNodes(a: seq<nat>, b: seq<nat>, n: nat)
    requires multiset(a) == multiset(b) && Nodes(a, n)
    ensures Nodes(b, n)
  {
    forall k | 0 <= k < |b| ensures b[k] < n { assert b[k] in multiset(a); }
  }

  lemma FlipRearranges(o: seq<nat>, i: nat, j: nat)
    requires 1 <= i < j < |o|
    ensures Rearranged(o, Flip(o, i, j))
  {
    FlipMultiset(o, i, j);
    FlipAt(o, i, j);
  }

  lemma CostsRead(d: Matrix, o: seq<nat>, i: nat, j: nat)
    requires Metric(d) && Nodes(o, |d|) && 1 <= i < j < |o|
    ensures Square(d) && forall k :: 0 <= k < |o| ==> o[k] < |d| && |d[o[k]]| == |d|
    ensures OldCost(d, o, i, j) == d[o[i - 1]][o[i]] + d[o[j - 1]][o[j]]
    ensures NewCost(d, o, i, j) == d[o[i - 1]][o[j - 1]] + d[o[i]][o[j]]
    ensures NoGain(d, o, i, j) <==> !(NewCost(d, o, i, j) < OldCost(d, o, i, j) - MIN_GAIN)
  {
  }

  /** Index `k` of an order of `n` stops, read cyclically. */
  function Wrap(k: nat, n: nat): (r: nat)
    requires n > 0
    ensures k < n ==> r == k
  {
    k % n
  }

  /** One accepted or refused reversal. */
  method TryFlip(d: Matrix, order: array<nat>, i: nat, j: nat) returns (flipped: bool)
    requires Metric(d) && Nodes(order[..], |d|) && 1 <= i < j < order.Length
    modifies order
    ensures Nodes(order[..], |d|) && Rearranged(old(order[..]), order[..])
    ensures flipped ==> PathLength(d, order[..]) < PathLength(d, old(order[..])) - MIN_GAIN
    ensures !flipped ==> order[..] == old(order[..]) && NoGain(d, order[..], i, j)
  {
    hide PathLength, Flip, Rearranged, OldCost, NewCost, Metric, Square, Nodes, NoGain, Wrap;
    ghost var o := order[..];
    CostsRead(d, o, i, j);
    var next := Wrap(j, order.Length);
    var oldCost := d[order[i - 1]][order[i]] + d[order[j - 1]][order[next]];
    var newCost := d[order[i - 1]][order[j - 1]] + d[order[i]][order[next]];
    RearrangedSame(o);
    assert oldCost == OldCost(d, o, i, j) && newCost == NewCost(d, o, i, j);
    FlipLength(d, o, i, j);
    FlipRearranges(o, i, j);
    flipped := newCost < oldCost - MIN_GAIN;
    if flipped { ReverseRange(order, i, j); }
  }

  /** Each reversal shortens the path by more than the minimal gain, which bounds their number. */
  method TwoOpt(d: Matrix, order: array<nat>) returns (ghost reversals: nat)
    requires Metric(d) && Nodes(order[..], |d|)
    modifies order
    ensures Nodes(order[..], |d|) && Rearranged(old(order[..]), order[..])
    ensures PathLength(d, order[..]) + MIN_GAIN * reversals as real <= PathLength(d, old(order[..]))
    ensures reversals as real <= 100.0 * PathLength(d, old(order[..]))
    ensures LocallyOptimal(d, order[..])
  {
    hide PathLength, Flip, OldCost, NewCost, At;
    ghost var initial := order[..];
    reversals := 0;
    var improved := true;
    PathLengthNonNegative(d, order[..]);
    while improved
      invariant Nodes(order[..], |d|) && Rearranged(initial, order[..])
      invariant PathLength(d, order[..]) >= 0.0
      invariant PathLength(d, order[..]) + MIN_GAIN * reversals as real <= PathLength(d, initial)
      invariant !improved ==> forall i, j :: 1 <= i < j < order.Length ==> NoGain(d, order[..], i, j)
      decreases (100.0 * PathLength(d, order[..])).Floor, improved
    {
      improved := false;
      ghost var start := order[..];
      var i := 1;
      while i + 1 < order.Length
        invariant 1 <= i
        invariant Nodes(order[..], |d|) && Rearranged(initial, order[..])
        invariant PathLength(d, order[..]) + MIN_GAIN * reversals as real <= PathLength(d, initial)
        invariant !improved ==> order[..] == start && forall a, b :: 1 <= a < i && a < b < order.Length ==>
                                                        NoGain(d, start, a, b)
        invariant improved ==> PathLength(d, order[..]) < PathLength(d, start) - MIN_GAIN
      {
        for j := i + 1 to order.Length
          invariant Nodes(order[..], |d|) && Rearranged(initial, order[..])
          invariant PathLength(d, order[..]) + MIN_GAIN * reversals as real <= PathLength(d, initial)
          invariant !improved ==>
                      && order[..] == start
                      && (forall a, b :: 1 <= a < i && a < b < order.Length ==> NoGain(d, start, a, b))
                      && (forall b :: i < b < j ==> NoGain(d, start, i, b))
          invariant improved ==> PathLength(d, order[..]) < PathLength(d, start) - MIN_GAIN
        {
          var flipped := TryFlip(d, order, i, j);
          if flipped {
            improved := true;
            reversals := reversals + 1;
          }
        }
        i := i + 1;
      }
      PathLengthNonNegative(d, order[..]);
    }
    NoGainIsOptimal(d, order[..]);
  }

  // Nearest neighbour

  ghost predicate Weights(d: Matrix, w: seq<real>) {
    Square(d) && |w| == |d| && forall j :: 0 <= j < |w| ==> w[j] > 0.0
  }

  /**
   * Node `next` is the first unvisited node of least distance over weight after the path `before`, and its distance
   * over weight is below the float maximum; quotients are compared multiplied out.
   */
  ghost predicate Cheapest(d: Matrix, w: seq<real>, before: seq<nat>, next: nat)
    requires Weights(d, w) && before != [] && Nodes(before, |d|)
  {
    var a := before[|before| - 1];
    && next < |d| && next !in before && At(d, a, next) < F32_MAX * w[next]
    && forall j :: 0 <= j < |d| && j !in before ==>
         At(d, a, next) * w[j] <= At(d, a, j) * w[next] && (j < next ==> At(d, a, next) * w[j] < At(d, a, j) * w[next])
  }

  /** No unvisited node can be picked after the path `o`. */
  ghost predicate Stuck(d: Matrix, w: seq<real>, o: seq<nat>)
    requires Weights(d, w) && o != [] && Nodes(o, |d|)
  {
    forall j :: 0 <= j < |d| && j !in o ==> At(d, o[|o| - 1], j) >= F32_MAX * w[j]
  }

  /** Every node can be picked from every other. */
  ghost predicate AllInReach(d: Matrix, w: seq<real>)
    requires Weights(d, w)
  {
    forall a, b :: 0 <= a < |d| && 0 <= b < |d| ==> At(d, a, b) < F32_MAX * w[b]
  }

  ghost predicate Greedy(d: Matrix, w: seq<real>, o: seq<nat>) {
    && Weights(d, w) && o != [] && o[0] == 0 && Nodes(o, |d|) && Distinct(o) && |o| <= |d|
    && forall k :: 1 <= k < |o| ==> Cheapest(d, w, o[..k], o[k])
  }

  /** The quotient that the loop compares. */
  function Cost(d: Matrix, w: seq<real>, a: nat, b: nat): real
    requires Weights(d, w) && a < |d| && b < |d|
  {
    At(d, a, b) / w[b]
  }

  lemma QuotientsCompare(x: real, u: real, y: real, v: real)
    requires u > 0.0 && v > 0.0
    ensures x / u <= y / v <==> x * v <= y * u
  {
    var p, q := x / u, y / v;
    var k := u * v;
    assert k > 0.0;
    assert x * v == p * k && y * u == q * k by {
      assert x == p * u && y == q * v;
      assert (p * u) * v == p * k && (q * v) * u == q * k;
    }
    if p <= q { assert (q - p) * k >= 0.0; } else { assert (p - q) * k > 0.0; }
    assert (q - p) * k == q * k - p * k;
  }

  lemma CostsCompare(d: Matrix, w: seq<real>, a: nat, j: nat, k: nat)
    requires Weights(d, w) && a < |d| && j < |d| && k < |d|
    ensures Cost(d, w, a, j) <= Cost(d, w, a, k) <==> At(d, a, j) * w[k] <= At(d, a, k) * w[j]
    ensures Cost(d, w, a, j) < F32_MAX <==> At(d, a, j) < F32_MAX * w[j]
  {
    QuotientsCompare(At(d, a, j), w[j], At(d, a, k), w[k]);
    QuotientsCompare(F32_MAX, 1.0, At(d, a, j), w[j]);
  }

  /** What the loop found, in terms of distances and weights. */
  lemma PickedIsCheapest(d: Matrix, w: seq<real>, o: seq<nat>, found: bool, best: nat)
    requires Weights(d, w) && o != [] && Nodes(o, |d|)
    requires found ==> best < |d| && best !in o && Cost(d, w, o[|o| - 1], best) < F32_MAX
    requires found ==> forall k :: 0 <= k < |d| && k !in o ==>
               Cost(d, w, o[|o| - 1], best) <= Cost(d, w, o[|o| - 1], k)
    requires found ==> forall k :: 0 <= k < best && k !in o ==>
               Cost(d, w, o[|o| - 1], best) < Cost(d, w, o[|o| - 1], k)
    requires !found ==> forall k :: 0 <= k < |d| && k !in o ==> F32_MAX <= Cost(d, w, o[|o| - 1], k)
    ensures if found then Cheapest(d, w, o, best) else Stuck(d, w, o)
  {
    hide Cost, At;
    var a := o[|o| - 1];
    if found {
      CostsCompare(d, w, a, best, best);
      forall j | 0 <= j < |d| && j !in o
        ensures At(d, a, best) * w[j] <= At(d, a, j) * w[best]
        ensures j < best ==> At(d, a, best) * w[j] < At(d, a, j) * w[best]
      {
        CostsCompare(d, w, a, best, j);
        CostsCompare(d, w, a, j, best);
      }
    } else {
      forall j | 0 <= j < |d| && j !in o ensures At(d, a, j) >= F32_MAX * w[j] { CostsCompare(d, w, a, j, j); }
    }
  }

  method PickNext(d: Matrix, w: seq<real>, visited: array<bool>, ghost o: seq<nat>, current: nat)
    returns (found: bool, best: nat)
    requires Weights(d, w) && o != [] && Nodes(o, |d|) && current == o[|o| - 1] && visited.Length == |d|
    requires forall j :: 0 <= j < |d| ==> (visited[j] <==> j in o)
    ensures if found then Cheapest(d, w, o, best) else Stuck(d, w, o)
  {
    hide Cheapest, Stuck, Cost;
    found, best := false, 0;
    var bestCost := F32_MAX;
    for j := 0 to |d|
      invariant if found then best < j && best !in o && bestCost == Cost(d, w, current, best) < F32_MAX
                else bestCost == F32_MAX
      invariant forall k :: 0 <= k < j && k !in o ==> bestCost <= Cost(d, w, current, k)
      invariant found ==> forall k :: 0 <= k < best && k !in o ==> bestCost < Cost(d, w, current, k)
    {
      if !visited[j] {
        var cost := d[current][j] / w[j];
        CostRead(d, w, current, j);
        if cost < bestCost {
          found, best, bestCost := true, j, cost;
        }
      }
    }
    PickedIsCheapest(d, w, o, found, best);
  }

  lemma CostRead(d: Matrix, w: seq<real>, a: nat, b: nat)
    requires Weights(d, w) && a < |d| && b < |d|
    ensures |d[a]| == |d| && w[b] > 0.0 && Cost(d, w, a, b) == d[a][b] / w[b]
  {
  }

  lemma CheapestIsNew(d: Matrix, w: seq<real>, o: seq<nat>, next: nat)
    requires Weights(d, w) && o != [] && Nodes(o, |d|) && Distinct(o) && Cheapest(d, w, o, next)
    ensures Nodes(o + [next], |d|) && Distinct(o + [next])
  {
  }

  lemma GreedyExtend(d: Matrix, w: seq<real>, o: seq<nat>, next: nat)
    requires Greedy(d, w, o) && Cheapest(d, w, o, next)
    ensures Greedy(d, w, o + [next])
  {
    hide Cheapest, Nodes, Distinct, Weights;
    CheapestIsNew(d, w, o, next);
    var longer := o + [next];
    assert longer[..|o|] == o;
    assert forall k :: 1 <= k < |o| ==> longer[..k] == o[..k];
    DistinctCovers(longer, |d|);
  }

  method NearestNeighbour(d: Matrix, w: seq<real>) returns (order: seq<nat>)
    requires Weights(d, w) && |d| > 0
    ensures Greedy(d, w, order)
    ensures |order| == |d| || Stuck(d, w, order)
  {
    var n := |d|;
    var visited := new bool[n](_ => false);
    var current := 0;
    visited[current] := true;
    order := [current];
    for round := 1 to n
      invariant Greedy(d, w, order) && current == order[|order| - 1]
      invariant |order| <= round && (|order| == round || Stuck(d, w, order))
      invariant forall j :: 0 <= j < n ==> (visited[j] <==> j in order)
    {
      var found, next := PickNext(d, w, visited, order, current);
      if found {
        GreedyExtend(d, w, order, next);
        visited[next] := true;
        order := order + [next];
        current := next;
      }
    }
  }

  function Range(n: nat): (r: set<nat>)
    ensures |r| == n && forall k: nat :: k in r <==> k < n
  {
    if n == 0 then {} else Range(n - 1) + {n - 1}
  }

  function Used(o: seq<nat>): set<nat> { set k | k in o }

  lemma DistinctCovers(o: seq<nat>, n: nat)
    requires Distinct(o) && Nodes(o, n)
    ensures |o| <= n && (|o| == n ==> forall j :: 0 <= j < n ==> j in o)
  {
    UsedSize(o);
    assert Used(o) <= Range(n);
    SubsetSize(Used(o), Range(n));
    forall j | 0 <= j < n && |o| == n ensures j in o { assert j in Range(n); }
  }

  lemma {:induction false} UsedSize(o: seq<nat>)
    requires Distinct(o)
    ensures |Used(o)| == |o|
    decreases |o|
  {
    if o != [] {
      UsedSize(o[1..]);
      assert Used(o) == Used(o[1..]) + {o[0]};
    }
  }

  lemma SubsetSize<T>(a: set<T>, b: set<T>)
    requires a <= b
    ensures |a| <= |b| && (|a| == |b| ==> a == b)
  {
    assert b == a + (b - a);
  }

  /** With every node in reach of every other the greedy path visits every node. */
  lemma GreedyVisitsAll(d: Matrix, w: seq<real>, o: seq<nat>)
    requires Greedy(d, w, o) && (|o| == |d| || Stuck(d, w, o))
    requires AllInReach(d, w)
    ensures IsTour(o, |d|)
  {
    if |o| < |d| {
      forall j | 0 <= j < |d| ensures j in o {
        assert At(d, o[|o| - 1], j) < F32_MAX * w[j];
      }
      PigeonHole(o, |d|);
    }
  }

  lemma PigeonHole(o: seq<nat>, n: nat)
    requires Distinct(o) && Nodes(o, n) && forall j :: 0 <= j < n ==> j in o
    ensures |o| == n
  {
    UsedSize(o);
    assert Used(o) == Range(n);
  }

  lemma RearrangedTour(a: seq<nat>, b: seq<nat>, n: nat)
    requires IsTour(a, n) && multiset(a) == multiset(b)
    ensures IsTour(b, n)
  {
    RearrangedNodes(a, b, n);
    assert |b| == |multiset(b)| == |multiset(a)| == |a|;
    forall i, j | 0 <= i < j < |b| ensures b[i] != b[j] {
      if b[i] == b[j] {
        CountedTwice(b, i, j);
        DistinctOnce(a, b[i]);
      }
    }
  }

  lemma CountedTwice(b: seq<nat>, i: nat, j: nat)
    requires i < j < |b| && b[i] == b[j]
    ensures multiset(b)[b[i]] >= 2
  {
    assert b == b[..i] + [b[i]] + b[i + 1..j] + [b[j]] + b[j + 1..];
  }

  lemma {:induction false} DistinctOnce(a: seq<nat>, x: nat)
    requires Distinct(a)
    ensures multiset(a)[x] <= 1
    decreases |a|
  {
    if a != [] {
      DistinctOnce(a[1..], x);
      assert a == [a[0]] + a[1..];
      if x == a[0] { assert x !in a[1..]; }
    }
  }

  /**
   * The solver: some greedy path, rearranged between its ends until no single reversal gains more than the
   * minimal gain. It is a tour of all nodes when each is in reach of every other.
   */
  method SolveTsp(d: Matrix, w: seq<real>) returns (order: seq<nat>, ghost greedy: seq<nat>)
    requires Metric(d) && Weights(d, w)
    ensures Nodes(order, |d|) && LocallyOptimal(d, order)
    ensures |d| > 0 ==> order != [] && order[0] == 0
    ensures |d| > 2 ==> Greedy(d, w, greedy) && (|greedy| == |d| || Stuck(d, w, greedy))
    ensures |d| > 2 ==> Rearranged(greedy, order) && PathLength(d, order) <= PathLength(d, greedy)
    ensures |d| <= 2 || AllInReach(d, w)
            ==> IsTour(order, |d|)
  {
    hide PathLength, LocallyOptimal, Rearranged, Stuck, AllInReach, Greedy;
    var n := |d|;
    if n <= 2 {
      order, greedy := seq(n, i requires 0 <= i => i), [];
      ShortIsOptimal(d, order);
      return;
    }
    var path := NearestNeighbour(d, w);
    var nodes := new nat[|path|](i requires 0 <= i < |path| => path[i]);
    assert nodes[..] == path;
    ghost var _ := TwoOpt(d, nodes);
    order, greedy := nodes[..], path;
    SolvedTour(d, w, greedy, order);
  }

  lemma ShortIsOptimal(d: Matrix, o: seq<nat>)
    requires Metric(d) && Nodes(o, |d|) && |o| <= 2
    ensures LocallyOptimal(d, o)
  {
  }

  lemma SolvedTour(d: Matrix, w: seq<real>, greedy: seq<nat>, order: seq<nat>)
    requires Greedy(d, w, greedy) && (|greedy| == |d| || Stuck(d, w, greedy)) && Rearranged(greedy, order)
    ensures order != [] && order[0] == 0
    ensures AllInReach(d, w) ==> IsTour(order, |d|)
  {
    if AllInReach(d, w) {
      GreedyVisitsAll(d, w, greedy);
      RearrangedTour(greedy, order, |d|);
    }
  }

  /** The pairwise matrix that callers build: each pair is measured once, from its smaller index. */
  method FillMatrix(n: nat, measure: (nat, nat) -> real) returns (d: Matrix)
    ensures |d| == n && Square(d)
    ensures forall i, j :: 0 <= i < j < n ==> At(d, i, j) == At(d, j, i) == measure(i, j)
    ensures forall i :: 0 <= i < n ==> At(d, i, i) == 0.0
    ensures (forall i, j :: 0 <= i < j < n ==> measure(i, j) >= 0.0) ==> Metric(d)
  {
    d := seq(n, _ => seq(n, _ => 0.0));
    for i := 0 to n
      invariant |d| == n && Square(d)
      invariant forall a, b :: 0 <= a < n && 0 <= b < n ==>
                  At(d, a, b) == if a < b && a < i then measure(a, b) else if b < a && b < i then measure(b, a) else 0.0
    {
      for j := i + 1 to n
        invariant |d| == n && Square(d)
        invariant forall a, b :: 0 <= a < n && 0 <= b < n ==>
                    At(d, a, b) == if a < b && (a < i || (a == i && b < j)) then measure(a, b)
                                   else if b < a && (b < i || (b == i && a < j)) then measure(b, a) else 0.0
      {
        var dist := measure(i, j);
        ghost var before := d;
        d := d[i := d[i][j := dist]];
        d := d[j := d[j][i := dist]];
        assert forall a, b :: 0 <= a < n && 0 <= b < n ==>
            At(d, a, b) == if (a == i && b == j) || (a == j && b == i) then dist else At(before, a, b);
      }
    }
  }

  /** The caller's rotation, so that the order starts at a chosen node. */
  method Rotate(raw: seq<nat>, start: nat) returns (order: seq<nat>, ghost p: nat)
    ensures p <= |raw| && order == raw[p..] + raw[..p]
    ensures start == 0 ==> order == raw
    ensures start != 0 && start in raw ==> order != [] && order[0] == start && start !in raw[..p]
    ensures start != 0 && start !in raw ==> order == raw
  {
    if start == 0 {
      assert raw[0..] + raw[..0] == raw;
      return raw, 0;
    }
    var i := 0;
    while i < |raw| && raw[i] != start
      invariant 0 <= i <= |raw| && start !in raw[..i]
    {
      i := i + 1;
    }
    assert raw[0..] + raw[..0] == raw;
    var at := if i < |raw| then i else 0;
    order, p := raw[at..] + raw[..at], at;
  }

  /** A rotated tour is a tour, and a tour that starts at 0 can be rotated to start anywhere. */
  lemma RotatedTour(raw: seq<nat>, n: nat, p: nat, start: nat)
    requires IsTour(raw, n) && p <= n && start < n
    ensures IsTour(raw[p..] + raw[..p], n) && start in raw
  {
    assert raw == raw[..p] + raw[p..];
    RearrangedTour(raw, raw[p..] + raw[..p], n);
    DistinctCovers(raw, n);
  }
}
