/** Merge of the federated search: score tiers one after the other, kinds taking turns inside a tier. */
module Interleave {

  datatype Kind = Npc | Quest | Item | Object | Area

  datatype SearchHit = SearchHit(kind: Kind, id: nat, name: string, context: string, score: nat)

  const TIERS: nat := 3
  const KINDS: nat := 5

  function KindOrder(k: Kind): (r: nat)
    ensures r < KINDS
  {
    match k case Npc => 0 case Quest => 1 case Item => 2 case Object => 3 case Area => 4
  }

  function Clamp(n: nat, lo: nat, hi: nat): nat { if n < lo then lo else if n > hi then hi else n }

  function TierOf(h: SearchHit): (t: nat)
    ensures t < TIERS
  {
    TIERS - Clamp(h.score, 1, TIERS)
  }

  /** Position of a bucket in the flat bucket list. */
  function BucketOf(h: SearchHit): (c: nat)
    ensures c < TIERS * KINDS
  {
    5 * TierOf(h) + KindOrder(h.kind)
  }

  predicate Belongs(h: SearchHit, tier: nat, kind: nat) { TierOf(h) == tier && KindOrder(h.kind) == kind }

  /** The hits of one tier and kind, in the order given. */
  function Select(s: seq<SearchHit>, tier: nat, kind: nat): seq<SearchHit> {
    if s == [] then []
    else Select(s[..|s| - 1], tier, kind) + (if Belongs(s[|s| - 1], tier, kind) then [s[|s| - 1]] else [])
  }

  lemma {:induction false} SelectConcat(a: seq<SearchHit>, b: seq<SearchHit>, tier: nat, kind: nat)
    ensures Select(a + b, tier, kind) == Select(a, tier, kind) + Select(b, tier, kind)
    decreases |b|
  {
    if b == [] {
      assert a + b == a;
    } else {
      SelectConcat(a, b[..|b| - 1], tier, kind);
      assert (a + b)[..|a + b| - 1] == a + b[..|b| - 1];
    }
  }

  lemma {:induction false} SelectCount(s: seq<SearchHit>, h: SearchHit)
    ensures multiset(Select(s, TierOf(h), KindOrder(h.kind)))[h] == multiset(s)[h]
    decreases |s|
  {
    hide TierOf, KindOrder;
    if s != [] {
      var init, last := s[..|s| - 1], s[|s| - 1];
      SelectCount(init, h);
      assert s == init + [last];
      assert multiset(s) == multiset(init) + multiset{last};
      var kept := Select(init, TierOf(h), KindOrder(h.kind));
      assert multiset(kept + [last]) == multiset(kept) + multiset{last} && kept + [] == kept;
    }
  }

  // Order inside a bucket

  /** Shorter names first, then smaller ids. */
  predicate NotAfter(a: SearchHit, b: SearchHit) { |a.name| < |b.name| || (|a.name| == |b.name| && a.id <= b.id) }

  ghost predicate Ordered(s: seq<SearchHit>) { forall i, j :: 0 <= i < j < |s| ==> NotAfter(s[i], s[j]) }

  /** Puts `x` behind everything that is not after it. */
  function Insert(s: seq<SearchHit>, x: SearchHit): seq<SearchHit> {
    if s == [] || NotAfter(s[|s| - 1], x) then s + [x] else Insert(s[..|s| - 1], x) + [s[|s| - 1]]
  }

  /** The stable `sort_by` of the standard library. */
  function StableSort(s: seq<SearchHit>): seq<SearchHit> {
    if s == [] then [] else Insert(StableSort(s[..|s| - 1]), s[|s| - 1])
  }

  lemma {:induction false} InsertSorts(s: seq<SearchHit>, x: SearchHit)
    requires Ordered(s)
    ensures Ordered(Insert(s, x)) && multiset(Insert(s, x)) == multiset(s) + multiset{x}
    decreases |s|
  {
    if s != [] && !NotAfter(s[|s| - 1], x) {
      var init, last := s[..|s| - 1], s[|s| - 1];
      InsertSorts(init, x);
      assert s == init + [last];
      InsertMembers(init, x, last);
      OrderedSnoc(Insert(init, x), last);
    }
  }

  lemma OrderedSnoc(s: seq<SearchHit>, last: SearchHit)
    requires Ordered(s) && forall i :: 0 <= i < |s| ==> NotAfter(s[i], last)
    ensures Ordered(s + [last])
  {
    hide NotAfter;
  }

  lemma InsertMembers(init: seq<SearchHit>, x: SearchHit, last: SearchHit)
    requires multiset(Insert(init, x)) == multiset(init) + multiset{x}
    requires NotAfter(x, last) && forall i :: 0 <= i < |init| ==> NotAfter(init[i], last)
    ensures forall i :: 0 <= i < |Insert(init, x)| ==> NotAfter(Insert(init, x)[i], last)
  {
    hide Insert;
    forall i | 0 <= i < |Insert(init, x)| ensures NotAfter(Insert(init, x)[i], last) {
      assert Insert(init, x)[i] in multiset(init) + multiset{x};
    }
  }

  lemma {:induction false} StableSortSorts(s: seq<SearchHit>)
    ensures Ordered(StableSort(s)) && multiset(StableSort(s)) == multiset(s)
    decreases |s|
  {
    if s != [] {
      StableSortSorts(s[..|s| - 1]);
      InsertSorts(StableSort(s[..|s| - 1]), s[|s| - 1]);
      assert s == s[..|s| - 1] + [s[|s| - 1]];
    }
  }

  function Bucket(hits: seq<SearchHit>, tier: nat, kind: nat): seq<SearchHit> {
    StableSort(Select(hits, tier, kind))
  }

  /** The buckets of a tier, by kind. */
  function TierBuckets(hits: seq<SearchHit>, tier: nat): (b: seq<seq<SearchHit>>)
    ensures |b| == KINDS && forall k :: 0 <= k < KINDS ==> b[k] == Bucket(hits, tier, k)
  {
    seq(KINDS, k requires 0 <= k => Bucket(hits, tier, k))
  }

  // Turn taking: in every round each kind has one turn.

  function Turn<T>(b: seq<seq<T>>, round: nat, kind: nat): (r: seq<T>)
    requires kind < |b|
    ensures |r| <= 1
  {
    if round < |b[kind]| then [b[kind][round]] else []
  }

  /** What is shown after `rounds` rounds and the turns of the first `kinds` kinds in the next. */
  function Turns<T>(b: seq<seq<T>>, rounds: nat, kinds: nat): seq<T>
    requires kinds <= |b|
    decreases rounds, kinds
  {
    if kinds > 0 then Turns(b, rounds, kinds - 1) + Turn(b, rounds, kinds - 1)
    else if rounds > 0 then Turns(b, rounds - 1, |b|)
    else []
  }

  function Longest<T>(b: seq<seq<T>>): (n: nat)
    ensures forall k :: 0 <= k < |b| ==> |b[k]| <= n
    ensures b != [] ==> exists k :: 0 <= k < |b| && |b[k]| == n
  {
    if b == [] then 0 else
    var n := Longest(b[1..]);
    assert forall k :: 0 < k < |b| ==> b[k] == b[1..][k - 1];
    if |b[0]| > n || |b| == 1 then |b[0]| else
    assert exists k :: 0 < k < |b| && |b[k]| == n by {
      var k :| 0 <= k < |b[1..]| && |b[1..][k]| == n;
      assert b[k + 1] == b[1..][k];
    }
    n
  }

  function TierPage(hits: seq<SearchHit>, tier: nat): seq<SearchHit> {
    Turns(TierBuckets(hits, tier), Longest(TierBuckets(hits, tier)), 0)
  }

  /** The pages of the first `t` tiers. */
  function TierPages(hits: seq<SearchHit>, t: nat): seq<SearchHit> {
    if t == 0 then [] else TierPages(hits, t - 1) + TierPage(hits, t - 1)
  }

  function FullPage(hits: seq<SearchHit>): seq<SearchHit> { TierPages(hits, TIERS) }

  function Take<T>(s: seq<T>, n: nat): seq<T> { if n < |s| then s[..n] else s }

  lemma {:induction false} TurnsStop<T>(b: seq<seq<T>>, rounds: nat, more: nat, kinds: nat)
    requires kinds <= |b| && forall k :: 0 <= k < |b| ==> |b[k]| <= rounds
    ensures Turns(b, rounds + more, kinds) == Turns(b, rounds, 0)
    decreases more, kinds
  {
    if kinds > 0 {
      TurnsStop(b, rounds, more, kinds - 1);
    } else if more > 0 {
      TurnsStop(b, rounds, more - 1, |b|);
    }
  }

  /** Number of hits of kind `k` that are shown at a point of the turn taking. */
  function Shown(len: nat, k: nat, rounds: nat, kinds: nat): (n: nat)
    ensures n <= len
  {
    var turns := rounds + (if k < kinds then 1 else 0);
    if turns < len then turns else len
  }

  ghost predicate Labelled(b: seq<seq<SearchHit>>, tier: nat) {
    |b| == KINDS && forall k, i :: 0 <= k < KINDS && 0 <= i < |b[k]| ==> Belongs(b[k][i], tier, k)
  }

  lemma SelectTurn(b: seq<seq<SearchHit>>, tier: nat, round: nat, kind: nat, t: nat, k: nat)
    requires Labelled(b, tier) && kind < KINDS
    ensures Select(Turn(b, round, kind), t, k) == if t == tier && k == kind then Turn(b, round, kind) else []
  {
    var turn := Turn(b, round, kind);
    if turn != [] { assert turn[..0] == [] && Belongs(turn[0], tier, kind); }
  }

  lemma ShownTurn<T>(b: seq<T>, k: nat, rounds: nat, kinds: nat)
    requires kinds > 0
    ensures b[..Shown(|b|, k, rounds, kinds)] ==
            b[..Shown(|b|, k, rounds, kinds - 1)] + (if k == kinds - 1 && rounds < |b| then [b[rounds]] else [])
  {
  }

  lemma ShownRound(len: nat, k: nat, rounds: nat)
    requires rounds > 0 && k < KINDS
    ensures Shown(len, k, rounds, 0) == Shown(len, k, rounds - 1, KINDS) && Shown(len, k, 0, 0) == 0
  {
  }

  /** The turns show a prefix of every bucket of their tier and nothing of other tiers. */
  lemma {:induction false} TurnsShowPrefixes(b: seq<seq<SearchHit>>, tier: nat, rounds: nat, kinds: nat, t: nat, k: nat)
    requires Labelled(b, tier) && kinds <= KINDS && k < KINDS
    ensures Select(Turns(b, rounds, kinds), t, k) == if t == tier then b[k][..Shown(|b[k]|, k, rounds, kinds)] else []
    decreases rounds, kinds
  {
    hide Select, Shown, Belongs;
    if kinds > 0 {
      TurnsShowPrefixes(b, tier, rounds, kinds - 1, t, k);
      SelectConcat(Turns(b, rounds, kinds - 1), Turn(b, rounds, kinds - 1), t, k);
      SelectTurn(b, tier, rounds, kinds - 1, t, k);
      ShownTurn(b[k], k, rounds, kinds);
    } else if rounds > 0 {
      TurnsShowPrefixes(b, tier, rounds - 1, KINDS, t, k);
      ShownRound(|b[k]|, k, rounds);
    } else {
      SelectNothing(t, k);
      ShownRound(|b[k]|, k, 1);
    }
  }

  lemma SelectNothing(t: nat, k: nat)
    ensures Select([], t, k) == []
  {
  }

  /** Every prefix of the turns is the result of fewer turns. */
  lemma {:induction false} PrefixIsTurns<T>(b: seq<seq<T>>, rounds: nat, kinds: nat, n: nat)
    returns (r: nat, k: nat)
    requires kinds <= |b| && n <= |Turns(b, rounds, kinds)|
    ensures k <= |b| && Turns(b, r, k) == Turns(b, rounds, kinds)[..n]
    decreases rounds, kinds
  {
    var all := Turns(b, rounds, kinds);
    if n == |all| {
      assert all[..n] == all;
      r, k := rounds, kinds;
    } else if kinds > 0 {
      r, k := PrefixIsTurns(b, rounds, kinds - 1, n);
      assert all[..n] == Turns(b, rounds, kinds - 1)[..n];
    } else {
      r, k := PrefixIsTurns(b, rounds - 1, |b|, n);
    }
  }

  lemma {:induction false} SelectMembers(s: seq<SearchHit>, tier: nat, kind: nat)
    ensures forall i :: 0 <= i < |Select(s, tier, kind)| ==> Belongs(Select(s, tier, kind)[i], tier, kind)
    decreases |s|
  {
    if s != [] { SelectMembers(s[..|s| - 1], tier, kind); }
  }

  lemma BucketsLabelled(hits: seq<SearchHit>, tier: nat)
    ensures Labelled(TierBuckets(hits, tier), tier)
  {
    hide Select, StableSort;
    var b := TierBuckets(hits, tier);
    forall k, i | 0 <= k < KINDS && 0 <= i < |b[k]| ensures Belongs(b[k][i], tier, k) {
      var selected := Select(hits, tier, k);
      StableSortSorts(selected);
      SelectMembers(hits, tier, k);
      assert b[k][i] in multiset(selected);
    }
  }

  /** A page prefix: whole tiers, then some turns of one tier. */
  lemma {:induction false} PrefixShape(hits: seq<SearchHit>, t: nat, n: nat) returns (tier: nat, r: nat, k: nat)
    requires t > 0 && n <= |TierPages(hits, t)|
    ensures tier < t && k <= KINDS
    ensures TierPages(hits, t)[..n] == TierPages(hits, tier) + Turns(TierBuckets(hits, tier), r, k)
    decreases t
  {
    hide Turns, TierBuckets, Longest;
    var before := TierPages(hits, t - 1);
    if t > 1 && n <= |before| {
      tier, r, k := PrefixShape(hits, t - 1, n);
      assert TierPages(hits, t)[..n] == before[..n];
    } else {
      tier := t - 1;
      var b := TierBuckets(hits, tier);
      r, k := PrefixIsTurns(b, Longest(b), 0, n - |before|);
      assert TierPages(hits, t)[..n] == before + TierPage(hits, tier)[..n - |before|];
    }
  }

  lemma SelectTier(hits: seq<SearchHit>, tier: nat, t: nat, k: nat)
    requires k < KINDS
    ensures Select(TierPage(hits, tier), t, k) == if t == tier then Bucket(hits, tier, k) else []
  {
    hide Turns, Select;
    var b := TierBuckets(hits, tier);
    BucketsLabelled(hits, tier);
    TurnsShowPrefixes(b, tier, Longest(b), 0, t, k);
    assert b[k][..|b[k]|] == b[k];
  }

  lemma {:induction false} WholeTiers(hits: seq<SearchHit>, t: nat, tier: nat, k: nat)
    requires k < KINDS
    ensures Select(TierPages(hits, t), tier, k) == if tier < t then Bucket(hits, tier, k) else []
    decreases t
  {
    hide Select, TierPage, Bucket;
    if t > 0 {
      WholeTiers(hits, t - 1, tier, k);
      SelectConcat(TierPages(hits, t - 1), TierPage(hits, t - 1), tier, k);
      SelectTier(hits, t - 1, tier, k);
    } else {
      SelectNothing(tier, k);
    }
  }

  /** The full page shows every hit exactly as often as it was found. */
  lemma FullPageIsPermutation(hits: seq<SearchHit>)
    ensures multiset(FullPage(hits)) == multiset(hits) && |FullPage(hits)| == |hits|
  {
    hide Select, StableSort, TierPages;
    forall h ensures multiset(FullPage(hits))[h] == multiset(hits)[h] {
      var tier, k := TierOf(h), KindOrder(h.kind);
      WholeTiers(hits, TIERS, tier, k);
      SelectCount(FullPage(hits), h);
      SelectCount(hits, h);
      StableSortSorts(Select(hits, tier, k));
    }
    assert |multiset(FullPage(hits))| == |FullPage(hits)| && |multiset(hits)| == |hits|;
  }

  /** The part of a page that belongs to one tier and kind. */
  function PartOf(page: seq<SearchHit>, tier: nat, kind: nat): seq<SearchHit> { Select(page, tier, kind) }

  /**
   * `page` has reached tier `t` fairly: the tiers before are shown completely, those after not at all; in tier
   * `t` each kind shows the best of its bucket, and no kind is more than one hit behind unless it is exhausted.
   */
  ghost predicate FairUpTo(hits: seq<SearchHit>, page: seq<SearchHit>, t: nat) {
    && (forall tier, k :: 0 <= tier < t && 0 <= k < KINDS ==> PartOf(page, tier, k) == Bucket(hits, tier, k))
    && (forall tier, k :: t < tier < TIERS && 0 <= k < KINDS ==> PartOf(page, tier, k) == [])
    && (forall k :: 0 <= k < KINDS ==> PartOf(page, t, k) <= Bucket(hits, t, k))
    && (forall j, k :: 0 <= j < KINDS && 0 <= k < KINDS ==>
          |PartOf(page, t, j)| <= |PartOf(page, t, k)| + 1 || PartOf(page, t, k) == Bucket(hits, t, k))
  }

  /** Every page, whatever its limit, is a fair sub-multiset of the hits of the right length. */
  lemma PageIsFair(hits: seq<SearchHit>, limit: nat) returns (t: nat)
    ensures t < TIERS && FairUpTo(hits, Take(FullPage(hits), limit), t)
    ensures |Take(FullPage(hits), limit)| == if limit < |hits| then limit else |hits|
    ensures multiset(Take(FullPage(hits), limit)) <= multiset(hits)
  {
    hide Select, Bucket, TierPages, TierBuckets, Turns;
    FullPageIsPermutation(hits);
    var full, page := FullPage(hits), Take(FullPage(hits), limit);
    assert full == page + full[|page|..] && page == full[..|page|];
    var r, kinds;
    t, r, kinds := PrefixShape(hits, TIERS, |page|);
    var b := TierBuckets(hits, t);
    forall tier, k | 0 <= tier < TIERS && 0 <= k < KINDS
      ensures PartOf(page, tier, k) == if tier < t then Bucket(hits, tier, k)
                                       else if tier == t then b[k][..Shown(|b[k]|, k, r, kinds)] else []
    {
      PagePart(hits, t, r, kinds, tier, k);
    }
    assert forall k :: 0 <= k < KINDS ==> b[k][..|b[k]|] == b[k];
  }

  lemma PagePart(hits: seq<SearchHit>, t: nat, r: nat, kinds: nat, tier: nat, k: nat)
    requires kinds <= KINDS && k < KINDS
    ensures var b := TierBuckets(hits, t);
            Select(TierPages(hits, t) + Turns(b, r, kinds), tier, k) ==
            if tier < t then Bucket(hits, tier, k)
            else if tier == t then b[k][..Shown(|b[k]|, k, r, kinds)] else []
  {
    hide Select, Bucket, TierPages, TierBuckets, Turns;
    var b := TierBuckets(hits, t);
    SelectConcat(TierPages(hits, t), Turns(b, r, kinds), tier, k);
    WholeTiers(hits, t, tier, k);
    BucketsLabelled(hits, t);
    TurnsShowPrefixes(b, t, r, kinds, tier, k);
  }

  lemma {:induction false} TurnsTier(b: seq<seq<SearchHit>>, tier: nat, rounds: nat, kinds: nat)
    requires Labelled(b, tier) && kinds <= KINDS
    ensures forall i :: 0 <= i < |Turns(b, rounds, kinds)| ==> TierOf(Turns(b, rounds, kinds)[i]) == tier
    decreases rounds, kinds
  {
    if kinds > 0 {
      TurnsTier(b, tier, rounds, kinds - 1);
      var turn := Turn(b, rounds, kinds - 1);
      assert turn != [] ==> Belongs(turn[0], tier, kinds - 1);
    } else if rounds > 0 {
      TurnsTier(b, tier, rounds - 1, KINDS);
    }
  }

  /** Better tiers come first, and all tiers are below `t`. */
  ghost predicate InTierOrder(s: seq<SearchHit>, t: nat) {
    && (forall i :: 0 <= i < |s| ==> TierOf(s[i]) < t)
    && (forall i, j :: 0 <= i < j < |s| ==> TierOf(s[i]) <= TierOf(s[j]))
  }

  lemma {:induction false} TiersInOrder(hits: seq<SearchHit>, t: nat)
    requires t <= TIERS
    ensures InTierOrder(TierPages(hits, t), t)
    decreases t
  {
    hide TierPage, TierOf, InTierOrder;
    if t > 0 {
      TiersInOrder(hits, t - 1);
      OneTier(hits, t - 1);
      ConcatInOrder(TierPages(hits, t - 1), TierPage(hits, t - 1), t - 1);
    } else {
      NothingInOrder();
    }
  }

  ghost predicate AllOfTier(s: seq<SearchHit>, t: nat) { forall i :: 0 <= i < |s| ==> TierOf(s[i]) == t }

  lemma OneTier(hits: seq<SearchHit>, t: nat)
    ensures AllOfTier(TierPage(hits, t), t)
  {
    hide TierBuckets, Turns, TierOf, Longest;
    BucketsLabelled(hits, t);
    TurnsTier(TierBuckets(hits, t), t, Longest(TierBuckets(hits, t)), 0);
  }

  lemma NothingInOrder()
    ensures InTierOrder([], 0)
  {
  }

  lemma ConcatInOrder(a: seq<SearchHit>, b: seq<SearchHit>, t: nat)
    requires InTierOrder(a, t) && AllOfTier(b, t)
    ensures InTierOrder(a + b, t + 1)
  {
    hide TierOf;
    var c := a + b;
    assert forall i :: 0 <= i < |c| ==> c[i] == if i < |a| then a[i] else b[i - |a|];
  }

  /** On every page a hit of a lower tier comes after all hits of higher tiers. */
  lemma PageInTierOrder(hits: seq<SearchHit>, limit: nat)
    ensures InTierOrder(Take(FullPage(hits), limit), TIERS)
  {
    TiersInOrder(hits, TIERS);
  }

  /** A smaller limit shows a prefix of the page for a larger one. */
  lemma LimitsNest(hits: seq<SearchHit>, small: nat, large: nat)
    requires small <= large
    ensures Take(FullPage(hits), small) == Take(Take(FullPage(hits), large), small)
  {
  }

  // The merge itself

  ghost predicate Filled(buckets: seq<seq<SearchHit>>, hits: seq<SearchHit>, sorted: nat) {
    && |buckets| == TIERS * KINDS
    && forall t, k, c :: 0 <= t < TIERS && 0 <= k < KINDS && c == 5 * t + k ==>
         buckets[c] == if c < sorted then Bucket(hits, t, k) else Select(hits, t, k)
  }

  method FillBuckets(hits: seq<SearchHit>) returns (buckets: seq<seq<SearchHit>>)
    ensures Filled(buckets, hits, TIERS * KINDS)
  {
    buckets := seq(TIERS * KINDS, _ => []);
    for i := 0 to |hits|
      invariant Filled(buckets, hits[..i], 0)
    {
      assert hits[..i + 1][..i] == hits[..i];
      var c := BucketOf(hits[i]);
      buckets := buckets[c := buckets[c] + [hits[i]]];
    }
    assert hits[..|hits|] == hits;
    for c := 0 to TIERS * KINDS
      invariant Filled(buckets, hits, c)
    {
      buckets := buckets[c := StableSort(buckets[c])];
    }
  }

  ghost predicate CursorsAt(b: seq<seq<SearchHit>>, cursors: seq<nat>, round: nat, kinds: nat) {
    |b| == |cursors| == KINDS && forall k :: 0 <= k < KINDS ==> cursors[k] == Shown(|b[k]|, k, round, kinds)
  }

  /** One turn for every kind; `full` when the page reaches its limit first. */
  method EmitRound(b: seq<seq<SearchHit>>, page: seq<SearchHit>, limit: nat, ghost before: seq<SearchHit>,
                   ghost round: nat, start: seq<nat>)
    returns (out: seq<SearchHit>, cursors: seq<nat>, emitted: bool, full: bool)
    requires CursorsAt(b, start, round, 0) && |page| <= limit && page == before + Turns(b, round, 0)
    ensures |out| <= limit
    ensures full ==> |out| == limit && out == Take(before + Turns(b, Longest(b), 0), limit)
    ensures !full ==> CursorsAt(b, cursors, round, KINDS) && out == before + Turns(b, round, KINDS)
    ensures !full ==> (emitted <==> exists k :: 0 <= k < KINDS && round < |b[k]|)
  {
    hide Turns, Longest;
    out, cursors, emitted, full := page, start, false, false;
    for kind := 0 to KINDS
      invariant CursorsAt(b, cursors, round, kind) && |out| <= limit
      invariant out == before + Turns(b, round, kind)
      invariant emitted <==> exists k :: 0 <= k < kind && round < |b[k]|
    {
      if |out| == limit {
        FullIsTake(b, before, round, kind, limit);
        full := true;
        return;
      }
      NextTurn(b, round, kind);
      if cursors[kind] < |b[kind]| {
        out := out + [b[kind][cursors[kind]]];
        cursors := cursors[kind := cursors[kind] + 1];
        emitted := true;
      }
    }
  }

  lemma NextTurn(b: seq<seq<SearchHit>>, round: nat, kind: nat)
    requires kind < |b|
    ensures Turns(b, round, kind + 1) == Turns(b, round, kind) + Turn(b, round, kind)
  {
  }

  lemma NextRound(b: seq<seq<SearchHit>>, round: nat)
    ensures Turns(b, round + 1, 0) == Turns(b, round, |b|)
  {
  }

  /** Appends the turns of one tier to a page; stops when the page is full. */
  method EmitTier(b: seq<seq<SearchHit>>, page: seq<SearchHit>, limit: nat)
    returns (out: seq<SearchHit>, full: bool)
    requires |b| == KINDS && |page| <= limit
    ensures |out| <= limit
    ensures full ==> |out| == limit && out == Take(page + Turns(b, Longest(b), 0), limit)
    ensures !full ==> out == page + Turns(b, Longest(b), 0)
  {
    hide Turns;
    var cursors := seq(KINDS, _ => 0);
    out, full := page, false;
    ghost var round := 0;
    assert Turns(b, 0, 0) == [] by { NoTurns(b); }
    while true
      invariant CursorsAt(b, cursors, round, 0) && |out| <= limit && round <= Longest(b)
      invariant out == page + Turns(b, round, 0)
      decreases Longest(b) - round
    {
      var emitted;
      ghost var shown := out;
      out, cursors, emitted, full := EmitRound(b, out, limit, page, round, cursors);
      if full { return; }
      if !emitted {
        TurnsStop(b, round, 0, KINDS);
        TurnsStop(b, round, Longest(b) - round, 0);
        break;
      }
      NextRound(b, round);
      round := round + 1;
    }
  }

  lemma NoTurns(b: seq<seq<SearchHit>>)
    ensures Turns(b, 0, 0) == []
  {
  }

  lemma {:induction false} TurnsPrefix(b: seq<seq<SearchHit>>, rounds: nat, kinds: nat, more: nat)
    requires kinds <= |b| && rounds < more
    ensures Turns(b, rounds, kinds) <= Turns(b, more, 0)
    decreases more - rounds, |b| - kinds
  {
    if kinds < |b| {
      TurnsPrefix(b, rounds, kinds + 1, more);
    } else if rounds + 1 < more {
      TurnsPrefix(b, rounds + 1, 0, more);
    }
  }

  lemma FullIsTake(b: seq<seq<SearchHit>>, page: seq<SearchHit>, round: nat, kinds: nat, limit: nat)
    requires kinds <= |b| && |page + Turns(b, round, kinds)| == limit
    ensures page + Turns(b, round, kinds) == Take(page + Turns(b, Longest(b), 0), limit)
  {
    if round < Longest(b) {
      TurnsPrefix(b, round, kinds, Longest(b));
    } else {
      TurnsStop(b, Longest(b), round - Longest(b), kinds);
    }
  }

  lemma SliceIsTier(buckets: seq<seq<SearchHit>>, hits: seq<SearchHit>, tier: nat)
    requires Filled(buckets, hits, TIERS * KINDS) && tier < TIERS
    ensures buckets[5 * tier..5 * tier + KINDS] == TierBuckets(hits, tier)
  {
    hide Bucket;
    var b := buckets[5 * tier..5 * tier + KINDS];
    forall k | 0 <= k < KINDS ensures b[k] == Bucket(hits, tier, k) {
      assert b[k] == buckets[5 * tier + k];
    }
  }

  method InterleaveByKind(hits: seq<SearchHit>, limit: nat) returns (page: seq<SearchHit>)
    ensures page == Take(FullPage(hits), limit)
  {
    hide Turns, Bucket, TierBuckets, Filled, TierPages, TierPage, Longest;
    var buckets := FillBuckets(hits);
    page := [];
    FullIsAllTiers(hits);
    FilledSize(buckets, hits);
    for tier := 0 to TIERS
      invariant |page| <= limit && page == TierPages(hits, tier)
    {
      var b := buckets[5 * tier..5 * tier + KINDS];
      SliceIsTier(buckets, hits, tier);
      PagesStep(hits, tier);
      var full;
      page, full := EmitTier(b, page, limit);
      if full {
        TakeOfPrefix(hits, tier + 1, limit);
        return;
      }
    }
  }

  lemma FullIsAllTiers(hits: seq<SearchHit>)
    ensures FullPage(hits) == TierPages(hits, TIERS)
    ensures TierPages(hits, 0) == []
  {
  }

  lemma PagesStep(hits: seq<SearchHit>, tier: nat)
    ensures var b := TierBuckets(hits, tier);
            TierPages(hits, tier + 1) == TierPages(hits, tier) + Turns(b, Longest(b), 0)
  {
    hide Turns, Longest, TierBuckets;
  }

  lemma TakeOfPrefix(hits: seq<SearchHit>, t: nat, limit: nat)
    requires t <= TIERS && limit <= |TierPages(hits, t)|
    ensures Take(TierPages(hits, t), limit) == Take(FullPage(hits), limit)
  {
    hide TierPages;
    TiersPrefix(hits, t, TIERS);
  }

  lemma FilledSize(buckets: seq<seq<SearchHit>>, hits: seq<SearchHit>)
    requires Filled(buckets, hits, TIERS * KINDS)
    ensures |buckets| == TIERS * KINDS
  {
  }

  lemma {:induction false} TiersPrefix(hits: seq<SearchHit>, t: nat, u: nat)
    requires t <= u
    ensures TierPages(hits, t) <= TierPages(hits, u)
    decreases u - t
  {
    hide TierPage;
    if t < u { TiersPrefix(hits, t, u - 1); }
  }
}
