/**
 * How many calls a text without literals leaves open at its end, and where such a text can be cut so that few enough
 * characters follow. A bracket scan is a matter of depth here: literals do not occur.
 */
module OpenCalls {
  import opened Results
  import opened CommandParser
  import opened Brackets
  import opened TameText

  function NonBlanks(s: string): nat {
    if s == "" then 0 else (if IsSpace(s[0]) then 0 else 1) + NonBlanks(s[1..])
  }

  /** A closer of `s` closes the outermost of `n` brackets that are open before it. */
  predicate Shuts(s: string, n: nat) {
    if s == "" then false
    else if IsOpener(s[0]) then Shuts(s[1..], n + 1)
    else if IsCloser(s[0]) then n <= 1 || Shuts(s[1..], n - 1)
    else Shuts(s[1..], n)
  }

  function More(r: Option<nat>): Option<nat> { if r.Some? then Some(r.value + 1) else None }

  function Within(r: Option<nat>): Option<nat> { if r == Some(0) then None else r }

  /**
   * The number of calls that a call text leaves open, each in the last argument of the one before, when the text ends
   * right after the parenthesis of the innermost; nothing otherwise. A call that is closed is done unless a chain
   * step follows that opens another. Tables are opaque.
   */
  function OpenInCall(t: string): Option<nat>
    decreases |t|, 1
  {
    var p := ParenIndex(t);
    if p == |t| then None else OpenInBody(t[p + 1..], true)
  }

  /** The same for what follows the parenthesis of a call; `trims` tells a call from a chain step. */
  function OpenInBody(b: string, trims: bool): Option<nat>
    decreases |b|, 3
  {
    if !Shuts(b, 1) then More(OpenInArgs(b)) else
    var after := b[CloseLength(b, 1)..];
    OpenInChain(if trims then TrimLeft(after) else after)
  }

  function OpenInChain(c: string): Option<nat>
    decreases |c|, 0
  {
    if c == "" || !IsDelimiter(c[0]) || !HasParen(c[1..]) then None
    else OpenInBody(c[1..][ParenIndex(c[1..]) + 1..], false)
  }

  function OpenInArgs(s: string): Option<nat>
    decreases |s|, 2
  {
    if s == "" then Some(0)
    else if IsSeparator(s[0]) then Within(OpenInArgs(s[1..]))
    else if s[0] == '{' then
      if Shuts(s[1..], 1) then Within(OpenInArgs(s[1..][CloseLength(s[1..], 1)..])) else None
    else
      var k := BareLength(s, 0);
      if k == 0 then None else if k < |s| then Within(OpenInArgs(s[k..])) else OpenInCall(s)
  }

  // Scans of texts without literals

  lemma QuoteFreeParts(s: string, i: nat, j: nat)
    requires QuoteFree(s) && i <= j <= |s|
    ensures QuoteFree(s[i..j]) && QuoteFree(s[..i]) && QuoteFree(s[i..])
  {
    hide IsQuote;
  }

  lemma {:induction false} ShutsCut(s: string, n: nat)
    requires QuoteFree(s) && n >= 1 && Shuts(s, n)
    ensures var k := CloseLength(s, n);
            0 < k <= |s| && IsCloser(s[k - 1]) && Depth(s[..k - 1], n - 1, true) == Some(0)
    decreases |s|
  {
    hide SkipLength, IsQuote, IsOpener, IsCloser;
    var k := CloseLength(s, n);
    if !IsOpener(s[0]) && IsCloser(s[0]) && n == 1 {
      assert s[..0] == "";
    } else {
      ShutsCut(s[1..], if IsOpener(s[0]) then n + 1 else if IsCloser(s[0]) then n - 1 else n);
      assert s[..k - 1] == [s[0]] + s[1..][..k - 2];
      DepthMore(s[0], s[1..][..k - 2], n - 1);
    }
  }

  lemma DepthMore(c: char, s: string, d: nat)
    requires !IsQuote(c)
    ensures IsOpener(c) ==> Depth([c] + s, d, true) == Depth(s, d + 1, true)
    ensures !IsOpener(c) && IsCloser(c) && d > 0 ==> Depth([c] + s, d, true) == Depth(s, d - 1, true)
    ensures !IsOpener(c) && !IsCloser(c) ==> Depth([c] + s, d, true) == Depth(s, d, true)
  {
    assert ([c] + s)[1..] == s;
  }

  lemma {:induction false} NotShut(s: string, n: nat)
    requires QuoteFree(s) && n >= 1 && !Shuts(s, n)
    ensures CloseLength(s, n) == |s| && Depth(s, n - 1, true).Some?
    decreases |s|
  {
    hide SkipLength, IsQuote, IsOpener, IsCloser;
    if s != "" {
      NotShut(s[1..], if IsOpener(s[0]) then n + 1 else if IsCloser(s[0]) then n - 1 else n);
    }
  }

  /** A prefix is shut where the text is, if it reaches that far. */
  lemma {:induction false} ShutsPrefix(s: string, n: nat, e: nat)
    requires QuoteFree(s) && n >= 1 && e <= |s|
    ensures Shuts(s[..e], n) <==> Shuts(s, n) && CloseLength(s, n) <= e
    ensures Shuts(s[..e], n) ==> CloseLength(s[..e], n) == CloseLength(s, n)
    decreases |s|
  {
    hide SkipLength, IsQuote, IsOpener, IsCloser;
    if e > 0 {
      assert s[..e][1..] == s[1..][..e - 1];
      if IsOpener(s[0]) || !IsCloser(s[0]) || n > 1 {
        ShutsPrefix(s[1..], if IsOpener(s[0]) then n + 1 else if IsCloser(s[0]) then n - 1 else n, e - 1);
      }
    } else {
      if Shuts(s, n) { ShutsCut(s, n); }
    }
  }

  /** A bare token up to its end: no closer in it is stray, and it ends with no bracket open unless the text ends. */
  lemma {:induction false} BareCut(s: string, d: nat)
    requires QuoteFree(s)
    ensures var k := BareLength(s, d);
            && k <= |s| && Depth(s[..k], d, true).Some?
            && (k < |s| ==> Depth(s[..k], d, true) == Some(0) && (s[k] == ',' || IsCloser(s[k])))
    decreases |s|
  {
    hide SkipLength, IsQuote, IsOpener, IsCloser;
    var k := BareLength(s, d);
    if s == "" {
    } else if !IsOpener(s[0]) && ((IsCloser(s[0]) && d == 0) || (!IsCloser(s[0]) && s[0] == ',' && d == 0)) {
      assert s[..0] == "";
    } else {
      BareCut(s[1..], if IsOpener(s[0]) then d + 1 else if IsCloser(s[0]) then d - 1 else d);
      assert s[..k] == [s[0]] + s[1..][..k - 1];
      DepthMore(s[0], s[1..][..k - 1], d);
    }
  }

  lemma {:induction false} BarePrefix(s: string, d: nat, e: nat)
    requires QuoteFree(s) && e <= |s|
    ensures BareLength(s[..e], d) == if BareLength(s, d) < e then BareLength(s, d) else e
    decreases |s|
  {
    hide SkipLength, IsQuote, IsOpener, IsCloser;
    if e > 0 {
      assert s[..e][1..] == s[1..][..e - 1];
      if IsOpener(s[0]) || (IsCloser(s[0]) && d > 0) || (!IsCloser(s[0]) && (s[0] != ',' || d > 0)) {
        BarePrefix(s[1..], if IsOpener(s[0]) then d + 1 else if IsCloser(s[0]) then d - 1 else d, e - 1);
      }
    }
  }

  /** The depth of a text passes through the depth of each prefix. */
  lemma {:induction false} DepthSplit(s: string, j: nat, d: nat)
    requires QuoteFree(s) && j <= |s| && Depth(s, d, true).Some?
    ensures Depth(s[..j], d, true).Some?
    ensures Depth(s[j..], Depth(s[..j], d, true).value, true) == Depth(s, d, true)
    decreases |s|
  {
    hide SkipLength, IsQuote, IsOpener, IsCloser;
    if j == 0 {
      assert s[..0] == "" && s[0..] == s;
    } else {
      DepthSplit(s[1..], j - 1, if IsOpener(s[0]) then d + 1 else if IsCloser(s[0]) then d - 1 else d);
      assert s[..j] == [s[0]] + s[1..][..j - 1] && s[j..] == s[1..][j - 1..];
      DepthMore(s[0], s[1..][..j - 1], d);
    }
  }

  lemma {:induction false} DepthLiftBy(s: string, d: nat, rise: nat)
    requires Depth(s, d, true).Some?
    ensures Depth(s, d + rise, true) == Some(Depth(s, d, true).value + rise)
    decreases rise
  {
    hide Depth;
    if rise > 0 {
      DepthLiftBy(s, d, rise - 1);
      DepthLift(s, d + rise - 1, true, true);
    }
  }

  /** Each bracket that is closed costs a character that is not blank. */
  lemma {:induction false} ClosersCount(s: string, d: nat)
    requires QuoteFree(s) && Depth(s, d, true).Some?
    ensures NonBlanks(s) + Depth(s, d, true).value >= d
    decreases |s|
  {
    hide SkipLength;
    if s != "" {
      ClosersCount(s[1..], if IsOpener(s[0]) then d + 1 else if IsCloser(s[0]) then d - 1 else d);
    }
  }

  lemma {:induction false} NonBlanksConcat(s: string, t: string)
    ensures NonBlanks(s + t) == NonBlanks(s) + NonBlanks(t)
    decreases |s|
  {
    hide IsSpace;
    if s == "" {
      assert s + t == t;
    } else {
      assert (s + t)[1..] == s[1..] + t;
      NonBlanksConcat(s[1..], t);
    }
  }

  // An open call costs a bracket

  predicate EndsWithParen(s: string) { s != "" && s[|s| - 1] == '(' }

  lemma EndOfSuffix(s: string, j: nat)
    requires j <= |s| && EndsWithParen(s[j..])
    ensures EndsWithParen(s)
  {
  }

  lemma TrimLeftIsSuffix(s: string)
    ensures |TrimLeft(s)| <= |s| && TrimLeft(s) == s[|s| - |TrimLeft(s)|..]
    ensures forall k :: 0 <= k < |s| - |TrimLeft(s)| ==> IsSpace(s[k])
  {
    hide IsSpace;
    if s != "" && IsSpace(s[0]) { TrimLeftIsSuffix(s[1..]); }
  }

  /** A text that leaves calls open ends with the parenthesis of the innermost. */
  lemma {:induction false} OpenCallEnds(t: string)
    requires OpenInCall(t).Some?
    ensures OpenInCall(t).value >= 1 && EndsWithParen(t)
    decreases |t|, 1
  {
    hide OpenInBody, EndsWithParen;
    var p := ParenIndex(t);
    OpenBodyEnds(t[p + 1..], true);
    if p + 1 == |t| { LastIsParen(t); } else { EndOfSuffix(t, p + 1); }
  }

  lemma LastIsParen(t: string)
    requires t != "" && t[|t| - 1] == '('
    ensures EndsWithParen(t)
  {
  }

  lemma {:induction false} OpenBodyEnds(b: string, trims: bool)
    requires OpenInBody(b, trims).Some?
    ensures OpenInBody(b, trims).value >= 1 && (b == "" || EndsWithParen(b))
    decreases |b|, 3
  {
    hide OpenInArgs, OpenInChain, EndsWithParen, CloseLength;
    if !Shuts(b, 1) {
      OpenArgsEnds(b);
    } else {
      var k := CloseLength(b, 1);
      var after := b[k..];
      OpenChainEnds(if trims then TrimLeft(after) else after);
      TrimLeftIsSuffix(after);
      if trims { EndOfSuffix(after, |after| - |TrimLeft(after)|); }
      EndOfSuffix(b, k);
    }
  }

  lemma {:induction false} OpenChainEnds(c: string)
    requires OpenInChain(c).Some?
    ensures OpenInChain(c).value >= 1 && EndsWithParen(c)
    decreases |c|, 0
  {
    hide OpenInBody, EndsWithParen;
    var p := ParenIndex(c[1..]);
    OpenBodyEnds(c[1..][p + 1..], false);
    if p + 2 == |c| { LastIsParen(c); } else {
      EndOfSuffix(c[1..], p + 1);
      EndOfSuffix(c, 1);
    }
  }

  lemma {:induction false} OpenArgsEnds(s: string)
    requires OpenInArgs(s).Some?
    ensures if s == "" then OpenInArgs(s) == Some(0) else OpenInArgs(s).value >= 1 && EndsWithParen(s)
    decreases |s|, 2
  {
    hide OpenInCall, EndsWithParen, CloseLength, BareLength, Shuts;
    if s == "" {
    } else if IsSeparator(s[0]) {
      OpenArgsEnds(s[1..]);
      EndOfSuffix(s, 1);
    } else if s[0] == '{' {
      var k := CloseLength(s[1..], 1);
      OpenArgsEnds(s[1..][k..]);
      EndOfSuffix(s[1..], k);
      EndOfSuffix(s, 1);
    } else {
      var k := BareLength(s, 0);
      if k < |s| {
        OpenArgsEnds(s[k..]);
        EndOfSuffix(s, k);
      } else {
        OpenCallEnds(s);
      }
    }
  }

  ghost predicate DeepEnough(s: string, d: nat, n: nat) {
    Depth(s, d, true).Some? ==> Depth(s, d, true).value >= n
  }

  /** However many brackets are open before a text, each call it leaves open adds one. */
  lemma {:induction false} OpenCallDepth(t: string, d: nat)
    requires QuoteFree(t) && OpenInCall(t).Some?
    ensures DeepEnough(t, d, OpenInCall(t).value)
    decreases |t|, 1
  {
    hide Depth, OpenInBody;
    var p := ParenIndex(t);
    QuoteFreeParts(t, p, p + 1);
    if Depth(t, d, true).Some? { OpenedAt(t, p, d); }
    OpenBodyDepth(t[p + 1..], true, if Depth(t[..p], d, true).Some? then Depth(t[..p], d, true).value else 0);
  }

  /** The depth after an opening bracket is one more than before it. */
  lemma OpenedAt(t: string, p: nat, d: nat)
    requires QuoteFree(t) && p < |t| && IsOpener(t[p]) && Depth(t, d, true).Some?
    ensures Depth(t[..p], d, true).Some?
    ensures Depth(t[p + 1..], Depth(t[..p], d, true).value + 1, true) == Depth(t, d, true)
  {
    hide Depth, IsOpener;
    DepthSplit(t, p, d);
    assert t[p..] == [t[p]] + t[p + 1..];
    DepthMore(t[p], t[p + 1..], Depth(t[..p], d, true).value);
  }

  lemma {:induction false} OpenBodyDepth(b: string, trims: bool, d: nat)
    requires QuoteFree(b) && OpenInBody(b, trims).Some?
    ensures DeepEnough(b, d + 1, OpenInBody(b, trims).value)
    decreases |b|, 3
  {
    hide Depth, OpenInArgs, OpenInChain, CloseLength;
    if !Shuts(b, 1) {
      OpenArgsDepth(b);
      DepthLiftBy(b, 0, d + 1);
    } else {
      var k := CloseLength(b, 1);
      ShutsCut(b, 1);
      QuoteFreeParts(b, k, k);
      var after := b[k..];
      var c := if trims then TrimLeft(after) else after;
      TrimLeftIsSuffix(after);
      QuoteFreeParts(after, |after| - |TrimLeft(after)|, |after|);
      OpenChainDepth(c, d);
      if Depth(b, d + 1, true).Some? {
        ClosedAt(b, k, d);
        BlanksKeepDepth(after, d);
      }
    }
  }

  /** A shut body: after its closer the depth is that before the bracket. */
  lemma ClosedAt(b: string, k: nat, d: nat)
    requires QuoteFree(b) && 0 < k <= |b| && IsCloser(b[k - 1]) && Depth(b[..k - 1], 0, true) == Some(0)
    requires Depth(b, d + 1, true).Some?
    ensures Depth(b[k..], d, true) == Depth(b, d + 1, true)
  {
    hide Depth, IsCloser;
    DepthSplit(b, k - 1, d + 1);
    DepthLiftBy(b[..k - 1], 0, d + 1);
    assert b[k - 1..] == [b[k - 1]] + b[k..];
    CloserIsNoOpener(b[k - 1]);
    DepthMore(b[k - 1], b[k..], d + 1);
  }

  lemma CloserIsNoOpener(c: char)
    ensures IsCloser(c) ==> !IsOpener(c) && !IsSpace(c) && !IsQuote(c)
  {
  }

  lemma {:induction false} BlanksKeepDepth(s: string, d: nat)
    ensures Depth(TrimLeft(s), d, true) == Depth(s, d, true)
    decreases |s|
  {
    if s != "" && IsSpace(s[0]) { BlanksKeepDepth(s[1..], d); }
  }

  lemma {:induction false} OpenChainDepth(c: string, d: nat)
    requires QuoteFree(c) && OpenInChain(c).Some?
    ensures DeepEnough(c, d, OpenInChain(c).value)
    decreases |c|, 0
  {
    hide Depth, OpenInBody;
    var p := ParenIndex(c[1..]) + 1;
    QuoteFreeParts(c, p, p + 1);
    assert c[1..][p..] == c[p + 1..] && c[p] == '(';
    if Depth(c, d, true).Some? { OpenedAt(c, p, d); }
    OpenBodyDepth(c[p + 1..], false, if Depth(c[..p], d, true).Some? then Depth(c[..p], d, true).value else 0);
  }

  lemma {:induction false} OpenArgsDepth(s: string)
    requires QuoteFree(s) && OpenInArgs(s).Some?
    ensures Depth(s, 0, true).Some? && DeepEnough(s, 0, OpenInArgs(s).value)
    decreases |s|, 2
  {
    hide Depth, OpenInCall, CloseLength, BareLength, Shuts;
    if s == "" {
      PlainDepth(s, 0, true);
    } else if IsSeparator(s[0]) {
      QuoteFreeParts(s, 1, 1);
      OpenArgsDepth(s[1..]);
      SeparatorDepth(s);
    } else if s[0] == '{' {
      var k := CloseLength(s[1..], 1);
      QuoteFreeParts(s, 1, 1);
      ShutsCut(s[1..], 1);
      QuoteFreeParts(s[1..], k, k);
      OpenArgsDepth(s[1..][k..]);
      TableDepth(s, k);
    } else {
      var k := BareLength(s, 0);
      BareCut(s, 0);
      if k < |s| {
        QuoteFreeParts(s, k, k);
        OpenArgsDepth(s[k..]);
        DepthConcat(s[..k], s[k..], 0, true);
        assert s[..k] + s[k..] == s;
      } else {
        assert s[..k] == s;
        OpenCallDepth(s, 0);
      }
    }
  }

  lemma SeparatorDepth(s: string)
    requires s != "" && IsSeparator(s[0])
    ensures Depth(s, 0, true) == Depth(s[1..], 0, true)
  {
  }

  lemma TableDepth(s: string, k: nat)
    requires QuoteFree(s) && s != "" && s[0] == '{' && 0 < k <= |s[1..]| && IsCloser(s[1..][k - 1])
    requires Depth(s[1..][..k - 1], 0, true) == Some(0)
    ensures Depth(s, 0, true) == Depth(s[1..][k..], 0, true)
  {
    hide Depth, CloseLength;
    Wrapped('{', s[1..][..k - 1], s[1..][k - 1], "");
    var table := ['{'] + s[1..][..k - 1] + [s[1..][k - 1]];
    DepthRelax(table, 0);
    DepthConcat(table, s[1..][k..], 0, true);
    assert table + s[1..][k..] == s;
  }
}
