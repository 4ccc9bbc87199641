/** The order of a result page, said of scores, kinds, names and ids alone. */
module PageOrder {
  import opened Interleave

  // Scores of 3 and more come first, then 2, then the rest. Inside a score class the kinds take turns.

  const TURN_ORDER: seq<Kind> := [Npc, Quest, Item, Object, Area]

  function Class(h: SearchHit): nat { if h.score >= 3 then 0 else if h.score == 2 then 1 else 2 }

  predicate Rivals(a: SearchHit, b: SearchHit) { a.kind == b.kind && Class(a) == Class(b) }

  /** The turn of the hit at `i`: how many rivals of it come before. */
  function TurnOf(page: seq<SearchHit>, i: nat): nat
    requires i < |page|
  {
    RivalsIn(page[..i], page[i])
  }

  function RivalsIn(s: seq<SearchHit>, h: SearchHit): nat {
    if s == [] then 0 else RivalsIn(s[..|s| - 1], h) + (if Rivals(s[|s| - 1], h) then 1 else 0)
  }

  ghost predicate KindBefore(a: Kind, b: Kind) {
    exists i, j :: 0 <= i < j < |TURN_ORDER| && TURN_ORDER[i] == a && TURN_ORDER[j] == b
  }

  /** The hit at `i` may stand before the one at `j`: better class, or earlier turn, or same turn and earlier kind. */
  ghost predicate Precedes(page: seq<SearchHit>, i: nat, j: nat)
    requires i < |page| && j < |page|
  {
    || Class(page[i]) < Class(page[j])
    || (Class(page[i]) == Class(page[j])
        && (TurnOf(page, i) < TurnOf(page, j)
            || (TurnOf(page, i) == TurnOf(page, j) && KindBefore(page[i].kind, page[j].kind))))
  }

  ghost predicate InPageOrder(page: seq<SearchHit>) { forall i, j :: 0 <= i < j < |page| ==> Precedes(page, i, j) }

  /** Rivals are shown shorter names first, then smaller ids. */
  ghost predicate RivalsOrdered(page: seq<SearchHit>) {
    forall i, j :: 0 <= i < j < |page| && Rivals(page[i], page[j]) ==>
      |page[i].name| < |page[j].name| || (|page[i].name| == |page[j].name| && page[i].id <= page[j].id)
  }

  // The classes and the turn order are those of the buckets

  lemma ClassIsTier(h: SearchHit)
    ensures TierOf(h) == Class(h)
  {
  }

  lemma BelongsIff(a: SearchHit, b: SearchHit)
    ensures Belongs(a, TierOf(b), KindOrder(b.kind)) <==> Rivals(a, b)
  {
    ClassIsTier(a);
    ClassIsTier(b);
  }

  lemma {:induction false} RivalsSelected(s: seq<SearchHit>, h: SearchHit)
    ensures RivalsIn(s, h) == |Select(s, TierOf(h), KindOrder(h.kind))|
    decreases |s|
  {
    hide TierOf, KindOrder, Rivals;
    if s != [] {
      RivalsSelected(s[..|s| - 1], h);
      BelongsIff(s[|s| - 1], h);
    }
  }

  lemma OrderIsTurnOrder(a: Kind, b: Kind)
    requires KindOrder(a) < KindOrder(b)
    ensures KindBefore(a, b)
  {
    assert TURN_ORDER[KindOrder(a)] == a && TURN_ORDER[KindOrder(b)] == b;
  }

  // One tier

  /** Before turn number `kinds` of round `rounds`. */
  predicate Earlier(page: seq<SearchHit>, i: nat, rounds: nat, kinds: nat)
    requires i < |page|
  {
    TurnOf(page, i) < rounds || (TurnOf(page, i) == rounds && KindOrder(page[i].kind) < kinds)
  }

  ghost predicate TierSoFar(page: seq<SearchHit>, tier: nat, rounds: nat, kinds: nat) {
    && (forall i :: 0 <= i < |page| ==> TierOf(page[i]) == tier && Earlier(page, i, rounds, kinds))
    && InPageOrder(page)
  }

  lemma TurnKept(page: seq<SearchHit>, more: seq<SearchHit>, i: nat)
    requires i < |page|
    ensures TurnOf(page + more, i) == TurnOf(page, i)
  {
    assert (page + more)[..i] == page[..i];
  }

  /** One more hit, whose turn comes after all turns so far. */
  lemma OneMoreTurn(page: seq<SearchHit>, h: SearchHit, tier: nat, rounds: nat, kind: nat)
    requires TierSoFar(page, tier, rounds, kind) && Belongs(h, tier, kind) && RivalsIn(page, h) == rounds
    ensures TierSoFar(page + [h], tier, rounds, kind + 1)
  {
    hide TierOf, KindOrder, RivalsIn, KindBefore;
    var longer := page + [h];
    assert longer[..|page|] == page;
    forall i | 0 <= i < |longer| ensures TierOf(longer[i]) == tier && Earlier(longer, i, rounds, kind + 1) {
      if i < |page| { TurnKept(page, [h], i); }
    }
    forall i, j | 0 <= i < j < |longer| ensures Precedes(longer, i, j) {
      TurnKept(page, [h], i);
      ClassIsTier(longer[i]);
      ClassIsTier(longer[j]);
      if j < |page| {
        TurnKept(page, [h], j);
        assert Precedes(page, i, j);
      } else if TurnOf(longer, i) == rounds {
        OrderIsTurnOrder(longer[i].kind, h.kind);
      }
    }
  }

  lemma NextRoundStarts(page: seq<SearchHit>, tier: nat, rounds: nat)
    requires TierSoFar(page, tier, rounds, KINDS)
    ensures TierSoFar(page, tier, rounds + 1, 0)
  {
    hide TurnOf, InPageOrder;
  }

  lemma {:induction false} TurnsInOrder(b: seq<seq<SearchHit>>, tier: nat, rounds: nat, kinds: nat)
    requires Labelled(b, tier) && kinds <= KINDS
    ensures TierSoFar(Turns(b, rounds, kinds), tier, rounds, kinds)
    decreases rounds, kinds
  {
    hide TierSoFar, Belongs;
    if kinds > 0 {
      TurnsInOrder(b, tier, rounds, kinds - 1);
      var page := Turns(b, rounds, kinds - 1);
      if rounds < |b[kinds - 1]| {
        TurnIsRound(b, tier, rounds, kinds - 1);
        OneMoreTurn(page, b[kinds - 1][rounds], tier, rounds, kinds - 1);
      } else {
        assert page + [] == page;
        OneMoreKind(page, tier, rounds, kinds - 1);
      }
    } else if rounds > 0 {
      TurnsInOrder(b, tier, rounds - 1, KINDS);
      NextRoundStarts(Turns(b, rounds - 1, KINDS), tier, rounds - 1);
    } else {
      NothingSoFar(tier);
    }
  }

  lemma OneMoreKind(page: seq<SearchHit>, tier: nat, rounds: nat, kind: nat)
    requires TierSoFar(page, tier, rounds, kind)
    ensures TierSoFar(page, tier, rounds, kind + 1)
  {
    hide TurnOf, InPageOrder;
  }

  lemma NothingSoFar(tier: nat)
    ensures TierSoFar([], tier, 0, 0)
  {
  }

  /** A kind that has had all its turns so far has had as many as there were rounds. */
  lemma TurnIsRound(b: seq<seq<SearchHit>>, tier: nat, rounds: nat, kind: nat)
    requires Labelled(b, tier) && kind < KINDS && rounds < |b[kind]|
    ensures Belongs(b[kind][rounds], tier, kind) && RivalsIn(Turns(b, rounds, kind), b[kind][rounds]) == rounds
  {
    hide Turns, Select, RivalsIn;
    var h := b[kind][rounds];
    assert Belongs(h, tier, kind);
    TurnsShowPrefixes(b, tier, rounds, kind, tier, kind);
    RivalsSelected(Turns(b, rounds, kind), h);
  }

  // All tiers

  lemma {:induction false} NoRivals(s: seq<SearchHit>, h: SearchHit)
    requires forall i :: 0 <= i < |s| ==> TierOf(s[i]) != TierOf(h)
    ensures RivalsIn(s, h) == 0
    decreases |s|
  {
    hide TierOf;
    if s != [] {
      NoRivals(s[..|s| - 1], h);
      ClassIsTier(h);
      ClassIsTier(s[|s| - 1]);
    }
  }

  lemma {:induction false} RivalsConcat(a: seq<SearchHit>, b: seq<SearchHit>, h: SearchHit)
    ensures RivalsIn(a + b, h) == RivalsIn(a, h) + RivalsIn(b, h)
    decreases |b|
  {
    hide Rivals;
    if b == [] {
      assert a + b == a;
    } else {
      RivalsConcat(a, b[..|b| - 1], h);
      assert (a + b)[..|a + b| - 1] == a + b[..|b| - 1];
    }
  }

  /** A tier behind better tiers. */
  lemma TierBehind(before: seq<SearchHit>, page: seq<SearchHit>, t: nat)
    requires InTierOrder(before, t) && InPageOrder(before) && AllOfTier(page, t) && InPageOrder(page)
    ensures InPageOrder(before + page)
  {
    hide TierOf, RivalsIn, KindBefore;
    var all := before + page;
    forall i, j | 0 <= i < j < |all| ensures Precedes(all, i, j) {
      ClassIsTier(all[i]);
      ClassIsTier(all[j]);
      if j < |before| {
        TurnKept(before, page, i);
        TurnKept(before, page, j);
        assert Precedes(before, i, j);
      } else if i >= |before| {
        TurnBehind(before, page, t, i - |before|);
        TurnBehind(before, page, t, j - |before|);
        assert Precedes(page, i - |before|, j - |before|);
      }
    }
  }

  lemma TurnBehind(before: seq<SearchHit>, page: seq<SearchHit>, t: nat, i: nat)
    requires InTierOrder(before, t) && AllOfTier(page, t) && i < |page|
    ensures TurnOf(before + page, |before| + i) == TurnOf(page, i)
  {
    hide TierOf, RivalsIn;
    assert (before + page)[..|before| + i] == before + page[..i];
    RivalsConcat(before, page[..i], page[i]);
    NoRivals(before, page[i]);
  }

  lemma {:induction false} PagesInOrder(hits: seq<SearchHit>, t: nat)
    requires t <= TIERS
    ensures InPageOrder(TierPages(hits, t))
    decreases t
  {
    hide TierPage, TierOf, InTierOrder, InPageOrder, AllOfTier;
    if t > 0 {
      PagesInOrder(hits, t - 1);
      TiersInOrder(hits, t - 1);
      OneTier(hits, t - 1);
      TierPageInOrder(hits, t - 1);
      TierBehind(TierPages(hits, t - 1), TierPage(hits, t - 1), t - 1);
    } else {
      assert InPageOrder([]) by { EmptyInOrder(); }
    }
  }

  lemma EmptyInOrder()
    ensures InPageOrder([])
  {
  }

  lemma TierPageInOrder(hits: seq<SearchHit>, t: nat)
    ensures InPageOrder(TierPage(hits, t))
  {
    hide TierBuckets, Turns, Longest, InPageOrder;
    BucketsLabelled(hits, t);
    TurnsInOrder(TierBuckets(hits, t), t, Longest(TierBuckets(hits, t)), 0);
  }

  lemma PrefixInOrder(page: seq<SearchHit>, n: nat)
    requires InPageOrder(page) && n <= |page|
    ensures InPageOrder(page[..n])
  {
    hide RivalsIn, KindBefore;
    var part := page[..n];
    assert page == part + page[n..];
    forall i, j | 0 <= i < j < n ensures Precedes(part, i, j) {
      TurnKept(part, page[n..], i);
      TurnKept(part, page[n..], j);
      assert Precedes(page, i, j);
    }
  }

  /** On every page the hits stand in score classes, and in each class the kinds take turns in their order. */
  lemma PageInOrder(hits: seq<SearchHit>, limit: nat)
    ensures InPageOrder(Take(FullPage(hits), limit))
  {
    hide TierPages, InPageOrder;
    PagesInOrder(hits, TIERS);
    if limit < |FullPage(hits)| { PrefixInOrder(FullPage(hits), limit); }
  }

  // Inside a bucket

  lemma {:induction false} SelectKeepsOrder(s: seq<SearchHit>, i: nat, j: nat)
    requires i < j < |s| && Rivals(s[i], s[j])
    ensures var b := Select(s, TierOf(s[j]), KindOrder(s[j].kind));
            exists k, l :: 0 <= k < l < |b| && b[k] == s[i] && b[l] == s[j]
  {
    hide TierOf, KindOrder, Select, Rivals;
    var h := s[j];
    assert s == s[..i] + ([s[i]] + (s[i + 1..j] + ([h] + s[j + 1..])));
    SelectCut(s[..i], s[i], s[i + 1..j] + ([h] + s[j + 1..]), h);
    SelectCut(s[i + 1..j], h, s[j + 1..], h);
    BelongsIff(s[i], h);
    BelongsIff(h, h);
    var t, k := TierOf(h), KindOrder(h.kind);
    var a, mid, c := Select(s[..i], t, k), Select(s[i + 1..j], t, k), Select(s[j + 1..], t, k);
    RivalItself(h);
    var b := Select(s, t, k);
    assert b == a + ([s[i]] + (mid + ([h] + c)));
    assert b[|a|] == s[i] && b[|a| + 1 + |mid|] == h;
  }

  lemma RivalItself(h: SearchHit)
    ensures Rivals(h, h)
  {
  }

  lemma SelectCut(a: seq<SearchHit>, x: SearchHit, c: seq<SearchHit>, h: SearchHit)
    ensures var t, k := TierOf(h), KindOrder(h.kind);
            Select(a + ([x] + c), t, k) ==
            Select(a, t, k) + ((if Belongs(x, t, k) then [x] else []) + Select(c, t, k))
  {
    hide TierOf, KindOrder, Select, Belongs;
    var t, k := TierOf(h), KindOrder(h.kind);
    SelectConcat(a, [x] + c, t, k);
    SelectConcat([x], c, t, k);
    SelectOne(x, t, k);
  }

  lemma SelectOne(x: SearchHit, t: nat, k: nat)
    ensures Select([x], t, k) == if Belongs(x, t, k) then [x] else []
  {
    assert [x][..0] == [];
  }

  lemma FullPageSelected(hits: seq<SearchHit>, h: SearchHit)
    ensures Select(FullPage(hits), TierOf(h), KindOrder(h.kind)) == Bucket(hits, TierOf(h), KindOrder(h.kind))
  {
    hide TierOf, KindOrder, Select, TierPages, Bucket;
    WholeTiers(hits, TIERS, TierOf(h), KindOrder(h.kind));
  }

  /** On every page shorter names come before longer ones of the same kind and class, and smaller ids before larger. */
  lemma RivalsInOrder(hits: seq<SearchHit>, limit: nat)
    ensures RivalsOrdered(Take(FullPage(hits), limit))
  {
    hide FullPage, Select, StableSort, Rivals, TierOf, KindOrder;
    var full := FullPage(hits);
    forall i, j | 0 <= i < j < |full| && Rivals(full[i], full[j]) ensures NotAfter(full[i], full[j]) {
      var h := full[j];
      var b := Bucket(hits, TierOf(h), KindOrder(h.kind));
      SelectKeepsOrder(full, i, j);
      FullPageSelected(hits, h);
      StableSortSorts(Select(hits, TierOf(h), KindOrder(h.kind)));
      var k, l :| 0 <= k < l < |b| && b[k] == full[i] && b[l] == full[j];
    }
  }

  // Ties

  predicate Tied(a: SearchHit, b: SearchHit) { Rivals(a, b) && |a.name| == |b.name| && a.id == b.id }

  /** The hits tied with `h`, in order. */
  function TiedWith(s: seq<SearchHit>, h: SearchHit): seq<SearchHit> {
    if s == [] then [] else TiedWith(s[..|s| - 1], h) + (if Tied(s[|s| - 1], h) then [s[|s| - 1]] else [])
  }

  lemma {:induction false} TiedConcat(a: seq<SearchHit>, b: seq<SearchHit>, h: SearchHit)
    ensures TiedWith(a + b, h) == TiedWith(a, h) + TiedWith(b, h)
    decreases |b|
  {
    hide Tied;
    if b == [] {
      assert a + b == a;
    } else {
      TiedConcat(a, b[..|b| - 1], h);
      assert (a + b)[..|a + b| - 1] == a + b[..|b| - 1];
    }
  }

  lemma TiedOne(x: SearchHit, h: SearchHit)
    ensures TiedWith([x], h) == if Tied(x, h) then [x] else []
  {
    assert [x][..0] == [];
  }

  lemma {:induction false} TiedSelected(s: seq<SearchHit>, h: SearchHit)
    ensures TiedWith(Select(s, TierOf(h), KindOrder(h.kind)), h) == TiedWith(s, h)
    decreases |s|
  {
    hide TierOf, KindOrder, Belongs;
    var t, k := TierOf(h), KindOrder(h.kind);
    if s != [] {
      var init, last := s[..|s| - 1], s[|s| - 1];
      TiedSelected(init, h);
      BelongsIff(last, h);
      var kept := Select(init, t, k);
      TiedConcat(kept, [last], h);
      TiedOne(last, h);
      assert kept + [] == kept;
    }
  }

  lemma TiedAreNotAfter(a: SearchHit, x: SearchHit, h: SearchHit)
    requires Tied(a, h) && Tied(x, h)
    ensures NotAfter(a, x)
  {
  }

  lemma TiedSnoc(s: seq<SearchHit>, x: SearchHit, h: SearchHit)
    ensures TiedWith(s + [x], h) == TiedWith(s, h) + if Tied(x, h) then [x] else []
  {
    hide Tied;
    TiedConcat(s, [x], h);
    TiedOne(x, h);
  }

  lemma {:induction false} InsertKeepsTies(s: seq<SearchHit>, x: SearchHit, h: SearchHit)
    ensures TiedWith(Insert(s, x), h) == TiedWith(s + [x], h)
    decreases |s|
  {
    hide Tied, NotAfter, TiedWith;
    if s != [] && !NotAfter(s[|s| - 1], x) {
      var init, last := s[..|s| - 1], s[|s| - 1];
      assert s == init + [last];
      InsertKeepsTies(init, x, h);
      TiedSnoc(Insert(init, x), last, h);
      TiedSnoc(init, x, h);
      TiedSnoc(init, last, h);
      TiedSnoc(s, x, h);
      if Tied(last, h) && Tied(x, h) { TiedAreNotAfter(last, x, h); }
      var kept := TiedWith(init, h);
      assert kept + [] == kept;
    }
  }

  lemma {:induction false} SortKeepsTies(s: seq<SearchHit>, h: SearchHit)
    ensures TiedWith(StableSort(s), h) == TiedWith(s, h)
    decreases |s|
  {
    hide Insert, Tied;
    if s != [] {
      var init, last := s[..|s| - 1], s[|s| - 1];
      SortKeepsTies(init, h);
      InsertKeepsTies(StableSort(init), last, h);
      TiedConcat(StableSort(init), [last], h);
      TiedConcat(init, [last], h);
      assert s == init + [last];
    }
  }

  /** Hits that nothing tells apart stay in the order in which they were found. */
  lemma TiesStay(hits: seq<SearchHit>, h: SearchHit)
    ensures TiedWith(FullPage(hits), h) == TiedWith(hits, h)
  {
    hide TierOf, KindOrder, Select, FullPage, StableSort, TiedWith;
    var t, k := TierOf(h), KindOrder(h.kind);
    TiedSelected(FullPage(hits), h);
    FullPageSelected(hits, h);
    SortKeepsTies(Select(hits, t, k), h);
    TiedSelected(hits, h);
  }
}
