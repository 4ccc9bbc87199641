/**
 * Where a text without literals can be cut so that the call parser overflows its stack on it, and how that depends on
 * the first argument, the body, the chain and the blanks of the text. The parser does not occur here.
 */
module CallCuts {
  import opened Results
  import opened CommandParser
  import opened Brackets
  import opened TameText
  import opened OpenCalls

  // A call that is not closed loses the last character of its text, and its argument text is trimmed. So a text
  // overflows when it can be cut after a parenthesis that leaves k + 1 calls open, with k characters following that
  // are not blank: level by level they are dropped, and the innermost call is left with its parenthesis alone.

  predicate CallCut(t: string, e: nat) {
    e <= |t| && OpenInCall(t[..e]) == Some(NonBlanks(t[e..]) + 1)
  }

  predicate ChainCut(c: string, e: nat) {
    e <= |c| && OpenInChain(c[..e]) == Some(NonBlanks(c[e..]) + 1)
  }

  predicate BodyCut(b: string, trims: bool, e: nat) {
    e <= |b| && OpenInBody(b[..e], trims) == Some(NonBlanks(b[e..]) + 1)
  }

  predicate ArgsCutAt(s: string, e: nat) {
    e <= |s| && OpenInArgs(s[..e]) == Some(NonBlanks(s[e..]) + 1)
  }

  /** A call text that overflows the stack. */
  ghost predicate CallDrains(t: string) { exists e :: CallCut(t, e) }

  ghost predicate ChainDrains(c: string) { exists e :: ChainCut(c, e) }

  ghost predicate BodyDrains(b: string, trims: bool) { exists e :: BodyCut(b, trims, e) }

  /** An argument text that overflows the stack. */
  ghost predicate ArgsDrain(s: string) { exists e :: ArgsCutAt(s, e) }

  /** The last character is no blank. */
  predicate Ended(s: string) { s == "" || !IsSpace(s[|s| - 1]) }

  lemma PrefixOfSuffix(s: string, j: nat, e: nat)
    requires j <= e <= |s|
    ensures s[..e][j..] == s[j..][..e - j] && s[j..][e - j..] == s[e..]
  {
  }

  lemma NonBlanksSplit(s: string, i: nat, j: nat)
    requires i <= j <= |s|
    ensures NonBlanks(s[i..]) == NonBlanks(s[i..j]) + NonBlanks(s[j..])
  {
    hide NonBlanks;
    assert s[i..] == s[i..j] + s[j..];
    NonBlanksConcat(s[i..j], s[j..]);
  }

  // Where an argument text can be cut

  /** A text that starts with something closed can only be cut where the rest can. */
  lemma ArgsShift(s: string, k: nat)
    requires k <= |s|
    requires forall e :: 0 <= e <= k ==> !ArgsCutAt(s, e)
    requires forall e :: k < e <= |s| ==> OpenInArgs(s[..e]) == Within(OpenInArgs(s[k..][..e - k]))
    ensures ArgsDrain(s) <==> ArgsDrain(s[k..])
  {
    hide OpenInArgs, NonBlanks;
    if e: nat :| ArgsCutAt(s, e) {
      assert k < e;
      PrefixOfSuffix(s, k, e);
      assert ArgsCutAt(s[k..], e - k);
    }
    if e: nat :| ArgsCutAt(s[k..], e) {
      PrefixOfSuffix(s, k, k + e);
      NotAtStart(s[k..]);
      assert ArgsCutAt(s, k + e);
    }
  }

  lemma NotAtStart(s: string)
    ensures !ArgsCutAt(s, 0)
  {
    assert s[..0] == "";
  }

  lemma SeparatorShift(s: string)
    requires s != "" && IsSeparator(s[0])
    ensures ArgsDrain(s) <==> ArgsDrain(s[1..])
  {
    hide IsSeparator, NonBlanks;
    NotAtStart(s);
    assert s[..1][1..] == "";
    forall e | 1 < e <= |s| ensures OpenInArgs(s[..e]) == Within(OpenInArgs(s[1..][..e - 1])) {
      PrefixOfSuffix(s, 1, e);
    }
    ArgsShift(s, 1);
  }

  lemma TableShift(s: string)
    requires QuoteFree(s) && s != "" && s[0] == '{'
    ensures !Shuts(s[1..], 1) ==> !ArgsDrain(s)
    ensures Shuts(s[1..], 1) ==>
              var k := 1 + CloseLength(s[1..], 1); k <= |s| && (ArgsDrain(s) <==> ArgsDrain(s[k..]))
  {
    hide NonBlanks, Shuts, CloseLength, IsQuote;
    NotAtStart(s);
    QuoteFreeParts(s, 1, 1);
    if Shuts(s[1..], 1) {
      ShutsCut(s[1..], 1);
      var k := 1 + CloseLength(s[1..], 1);
      forall e | 0 < e <= |s|
        ensures OpenInArgs(s[..e]) == if e < k then None else Within(OpenInArgs(s[k..][..e - k]))
      {
        TablePrefix(s, e);
        if e >= k { PrefixOfSuffix(s, k, e); }
      }
      assert s[k..][..0] == "";
      ArgsShift(s, k);
    } else {
      forall e | 0 < e <= |s| ensures !ArgsCutAt(s, e) { TablePrefix(s, e); }
    }
  }

  lemma TablePrefix(s: string, e: nat)
    requires QuoteFree(s) && s != "" && s[0] == '{' && 0 < e <= |s|
    ensures OpenInArgs(s[..e]) ==
            if Shuts(s[1..], 1) && 1 + CloseLength(s[1..], 1) <= e
            then Within(OpenInArgs(s[..e][1 + CloseLength(s[1..], 1)..])) else None
  {
    hide Shuts, CloseLength;
    QuoteFreeParts(s, 1, 1);
    PrefixOfSuffix(s, 1, e);
    ShutsPrefix(s[1..], 1, e - 1);
    if Shuts(s[1..], 1) {
      ShutsCut(s[1..], 1);
      var k := CloseLength(s[1..], 1);
      if k < e { assert s[..e][1..][k..] == s[..e][1 + k..]; }
    }
    assert !IsSeparator('{');
  }

  lemma BarePrefixArgs(s: string, e: nat)
    requires QuoteFree(s) && s != "" && !IsSeparator(s[0]) && s[0] != '{' && BareLength(s, 0) > 0 && 0 < e <= |s|
    ensures var k := BareLength(s, 0);
            OpenInArgs(s[..e]) == if k < e then Within(OpenInArgs(s[..e][k..])) else OpenInCall(s[..e])
  {
    hide OpenInCall, BareLength, IsSeparator;
    BarePrefix(s, 0, e);
  }

  /** A complete bare token is never where a text can be cut: its closers and the comma after it are too many. */
  lemma TokenIsNoCut(s: string, e: nat)
    requires QuoteFree(s) && Depth(s, 0, true).Some?
    requires var k := BareLength(s, 0); 0 < e <= k < |s|
    ensures OpenInCall(s[..e]) != Some(NonBlanks(s[e..]) + 1)
  {
    hide Depth, OpenInCall, BareLength, NonBlanks;
    var k := BareLength(s, 0);
    BareCut(s, 0);
    QuoteFreeParts(s, 0, e);
    QuoteFreeParts(s, 0, k);
    QuoteFreeParts(s, e, k);
    if OpenInCall(s[..e]).Some? {
      DepthSplit(s[..k], e, 0);
      assert s[..k][..e] == s[..e] && s[..k][e..] == s[e..k];
      OpenCallDepth(s[..e], 0);
      ClosersCount(s[e..k], Depth(s[..e], 0, true).value);
      NonBlanksSplit(s, e, k);
    }
  }

  lemma BareShift(s: string)
    requires QuoteFree(s) && Depth(s, 0, true).Some? && s != "" && !IsSeparator(s[0]) && s[0] != '{'
    requires 0 < BareLength(s, 0) < |s|
    ensures ArgsDrain(s) <==> ArgsDrain(s[BareLength(s, 0)..])
  {
    hide Depth, OpenInCall, BareLength, NonBlanks, OpenInArgs, IsSeparator;
    var k := BareLength(s, 0);
    NotAtStart(s);
    forall e | 0 < e <= k ensures !ArgsCutAt(s, e) {
      BarePrefixArgs(s, e);
      TokenIsNoCut(s, e);
    }
    forall e | k < e <= |s| ensures OpenInArgs(s[..e]) == Within(OpenInArgs(s[k..][..e - k])) {
      BarePrefixArgs(s, e);
      PrefixOfSuffix(s, k, e);
    }
    ArgsShift(s, k);
  }

  lemma LastTokenCut(s: string)
    requires QuoteFree(s) && s != "" && !IsSeparator(s[0]) && s[0] != '{' && BareLength(s, 0) == |s|
    ensures ArgsDrain(s) <==> CallDrains(s)
  {
    hide OpenInCall, BareLength, NonBlanks, OpenInArgs, IsSeparator;
    NotAtStart(s);
    forall e | 0 <= e <= |s| ensures ArgsCutAt(s, e) <==> CallCut(s, e) {
      if e > 0 { BarePrefixArgs(s, e); } else { NoCallCut(s); }
    }
    if e: nat :| ArgsCutAt(s, e) { assert CallCut(s, e); }
    if e: nat :| CallCut(s, e) { assert ArgsCutAt(s, e); }
  }

  lemma NoCallCut(t: string)
    ensures !CallCut(t, 0)
  {
    assert t[..0] == "";
  }

  // Trimming changes nothing

  lemma BlankIsNothing(s: string)
    requires s != "" && IsSpace(s[|s| - 1])
    ensures ArgsDrain(s) <==> ArgsDrain(s[..|s| - 1])
  {
    hide OpenInArgs, NonBlanks, EndsWithParen;
    var init := s[..|s| - 1];
    forall e | 0 <= e <= |init| ensures ArgsCutAt(s, e) <==> ArgsCutAt(init, e) {
      assert s[..e] == init[..e] && s[e..] == init[e..] + [s[|s| - 1]];
      BlankCount(init[e..], s[|s| - 1]);
    }
    BlankEnd(s);
    if e: nat :| ArgsCutAt(s, e) { assert ArgsCutAt(init, e); }
    if e: nat :| ArgsCutAt(init, e) { assert ArgsCutAt(s, e); }
  }

  lemma BlankCount(s: string, c: char)
    requires IsSpace(c)
    ensures NonBlanks(s + [c]) == NonBlanks(s)
  {
    NonBlanksConcat(s, [c]);
    assert [c][1..] == "";
  }

  lemma BlankEnd(s: string)
    requires s != "" && IsSpace(s[|s| - 1])
    ensures !ArgsCutAt(s, |s|)
  {
    hide OpenInArgs;
    assert s[..|s|] == s;
    if OpenInArgs(s).Some? { OpenArgsEnds(s); ParenIsNoBlank(); }
  }

  lemma ParenIsNoBlank()
    ensures !IsSpace('(')
  {
  }

  lemma {:induction false} TrimRightCut(s: string)
    ensures ArgsDrain(TrimRight(s)) <==> ArgsDrain(s)
  {
    hide ArgsDrain, IsSpace;
    if s != "" && IsSpace(s[|s| - 1]) {
      BlankIsNothing(s);
      TrimRightCut(s[..|s| - 1]);
    }
  }

  lemma {:induction false} TrimLeftCut(s: string)
    ensures ArgsDrain(TrimLeft(s)) <==> ArgsDrain(s)
  {
    hide ArgsDrain;
    if s != "" && IsSpace(s[0]) {
      SeparatorShift(s);
      TrimLeftCut(s[1..]);
    }
  }

  lemma TrimCut(s: string)
    ensures ArgsDrain(Trim(s)) <==> ArgsDrain(s)
  {
    hide ArgsDrain;
    TrimLeftCut(s);
    TrimRightCut(TrimLeft(s));
  }

  // Where a call can be cut

  lemma {:induction false} NoParenPrefix(t: string, e: nat)
    requires e <= |t|
    ensures ParenIndex(t[..e]) == if ParenIndex(t) < e then ParenIndex(t) else e
    decreases |t|
  {
    if e > 0 && t[0] != '(' {
      NoParenPrefix(t[1..], e - 1);
      assert t[..e][1..] == t[1..][..e - 1];
    }
  }

  /** A call is cut where its body is. */
  lemma CallBody(t: string)
    ensures !HasParen(t) ==> !CallDrains(t)
    ensures HasParen(t) ==> (CallDrains(t) <==> BodyDrains(t[ParenIndex(t) + 1..], true))
  {
    hide OpenInBody, NonBlanks, ParenIndex;
    var p := ParenIndex(t);
    forall e | 0 <= e <= |t| ensures CallCut(t, e) <==> p < e && BodyCut(t[p + 1..], true, e - p - 1) {
      NoParenPrefix(t, e);
      if p < e { PrefixOfSuffix(t, p + 1, e); }
    }
    if HasParen(t) {
      var b := t[p + 1..];
      if e: nat :| CallCut(t, e) { assert BodyCut(b, true, e - p - 1); }
      if e: nat :| BodyCut(b, true, e) { assert CallCut(t, p + 1 + e); }
    }
  }

  /** A chain is cut where the body of its first step is. */
  lemma ChainBody(c: string)
    requires c != "" && IsDelimiter(c[0])
    ensures !HasParen(c[1..]) ==> !ChainDrains(c)
    ensures HasParen(c[1..]) ==> (ChainDrains(c) <==> BodyDrains(c[1..][ParenIndex(c[1..]) + 1..], false))
  {
    hide OpenInBody, NonBlanks, ParenIndex, IsDelimiter;
    var p := ParenIndex(c[1..]);
    forall e | 0 <= e <= |c| ensures ChainCut(c, e) <==> p + 1 < e && BodyCut(c[1..][p + 1..], false, e - p - 2) {
      if e > 0 {
        NoParenPrefix(c[1..], e - 1);
        PrefixOfSuffix(c, 1, e);
        if p + 1 < e { PrefixOfSuffix(c[1..], p + 1, e - 1); }
      } else {
        assert c[..0] == "";
      }
    }
    if HasParen(c[1..]) {
      var b := c[1..][p + 1..];
      if e: nat :| ChainCut(c, e) { assert BodyCut(b, false, e - p - 2); }
      if e: nat :| BodyCut(b, false, e) { assert ChainCut(c, p + 2 + e); }
    }
  }

  lemma NoDelimiterNoCut(c: string)
    requires c == "" || !IsDelimiter(c[0])
    ensures !ChainDrains(c)
  {
    forall e | 0 <= e <= |c| ensures !ChainCut(c, e) {}
  }

  lemma OpenBodyCutAt(b: string, trims: bool, e: nat)
    requires QuoteFree(b) && !Shuts(b, 1) && e <= |b|
    ensures BodyCut(b, trims, e) <==> OpenInArgs(b[..e]) == Some(NonBlanks(b[e..]))
  {
    hide OpenInArgs, NonBlanks, Shuts, QuoteFree;
    ShutsPrefix(b, 1, e);
  }

  /** The body of an open call is cut where its argument text is, which lacks the last character. */
  lemma OpenBodyCut(b: string, trims: bool)
    requires QuoteFree(b) && !Shuts(b, 1) && Ended(b)
    ensures BodyDrains(b, trims) <==> b == "" || ArgsDrain(b[..|b| - 1])
  {
    hide OpenInArgs, OpenInBody, NonBlanks, Shuts, QuoteFree, BodyCut;
    CutsAreInside(b, trims);
    if b == "" {
      OpenBodyCutAt(b, trims, 0);
      EmptyCounts(b[..0]);
      EmptyCounts(b[0..]);
      assert BodyCut(b, trims, 0);
    } else {
      var cut := b[..|b| - 1];
      forall e | 0 <= e <= |cut| ensures BodyCut(b, trims, e) <==> ArgsCutAt(cut, e) {
        OpenBodyCutAt(b, trims, e);
        assert b[..e] == cut[..e] && b[e..] == cut[e..] + [b[|b| - 1]];
        LastCounts(cut[e..], b[|b| - 1]);
      }
      WholeIsNoCut(b, trims);
      if e: nat :| BodyCut(b, trims, e) { assert ArgsCutAt(cut, e); }
      if e: nat :| ArgsCutAt(cut, e) { assert BodyCut(b, trims, e); }
    }
  }

  lemma EmptyCounts(s: string)
    requires |s| == 0
    ensures OpenInArgs(s) == Some(0) && NonBlanks(s) == 0
  {
  }

  lemma LastCounts(s: string, c: char)
    requires !IsSpace(c)
    ensures NonBlanks(s + [c]) == NonBlanks(s) + 1
  {
    NonBlanksConcat(s, [c]);
    assert [c][1..] == "";
  }

  lemma WholeIsNoCut(b: string, trims: bool)
    requires QuoteFree(b) && b != "" && !Shuts(b, 1)
    ensures !BodyCut(b, trims, |b|)
  {
    hide OpenInArgs, Shuts;
    OpenBodyCutAt(b, trims, |b|);
    assert b[..|b|] == b && NonBlanks(b[|b|..]) == 0;
    if OpenInArgs(b).Some? { OpenArgsEnds(b); }
  }

  /** What follows a closed body, as the chain it is read for. */
  function AfterBody(b: string, trims: bool): string
    requires CloseLength(b, 1) <= |b|
  {
    if trims then TrimLeft(b[CloseLength(b, 1)..]) else b[CloseLength(b, 1)..]
  }

  lemma AfterBodyIsSuffix(b: string, trims: bool)
    requires QuoteFree(b) && Shuts(b, 1)
    ensures 0 < CloseLength(b, 1) <= |b| && |AfterBody(b, trims)| <= |b| - CloseLength(b, 1)
    ensures AfterBody(b, trims) == b[|b| - |AfterBody(b, trims)|..]
  {
    hide Shuts, CloseLength, TrimLeft;
    ShutsCut(b, 1);
    var after := b[CloseLength(b, 1)..];
    TrimLeftIsSuffix(after);
    if trims { assert after[|after| - |TrimLeft(after)|..] == b[|b| - |TrimLeft(after)|..]; }
  }

  /** A prefix that reaches behind the closer leaves open what the chain up to there leaves open. */
  lemma ShutPrefix(b: string, trims: bool, e: nat)
    requires QuoteFree(b) && Shuts(b, 1) && CloseLength(b, 1) <= e <= |b|
    ensures var c := AfterBody(b, trims);
            var start := |b| - |c|;
            start >= 0 && OpenInBody(b[..e], trims) == OpenInChain(if start <= e then c[..e - start] else "")
  {
    hide OpenInArgs, OpenInChain, Shuts, CloseLength, TrimLeft, IsSpace;
    AfterBodyIsSuffix(b, trims);
    var k := CloseLength(b, 1);
    ShutsPrefix(b, 1, e);
    PrefixOfSuffix(b, k, e);
    ChainPrefix(b[k..], trims, e - k);
  }

  lemma ChainPrefix(after: string, trims: bool, e: nat)
    requires e <= |after|
    ensures var c := if trims then TrimLeft(after) else after;
            var blanks := |after| - |c|;
            && blanks >= 0
            && (if trims then TrimLeft(after[..e]) else after[..e]) == if blanks <= e then c[..e - blanks] else ""
  {
    hide TrimLeft, IsSpace;
    if trims {
      TrimLeftPrefix(after, e);
      TrimLeftIsSuffix(after);
      var blanks := |after| - |TrimLeft(after)|;
      if blanks <= e { PrefixOfSuffix(after, blanks, e); }
    }
  }

  /** Where a closed body can be cut: behind its closer, where the chain can. */
  lemma ShutCutAt(b: string, trims: bool, e: nat)
    requires QuoteFree(b) && Shuts(b, 1) && CloseLength(b, 1) <= e <= |b|
    ensures var c := AfterBody(b, trims);
            var start := |b| - |c|;
            start >= 0 && (BodyCut(b, trims, e) <==> start <= e && ChainCut(c, e - start))
  {
    hide OpenInBody, OpenInChain, NonBlanks, Shuts, CloseLength, AfterBody;
    AfterBodyIsSuffix(b, trims);
    ShutPrefix(b, trims, e);
    var start := |b| - |AfterBody(b, trims)|;
    if start <= e { PrefixOfSuffix(b, start, e); } else { NothingOpen(); }
  }

  lemma NothingOpen()
    ensures OpenInChain("").None?
  {
  }

  /** The body of a closed call is cut where the chain after it is: inside, its own closers are too many. */
  lemma ShutBodyCut(b: string, trims: bool)
    requires QuoteFree(b) && Shuts(b, 1)
    ensures CloseLength(b, 1) <= |b| && (BodyDrains(b, trims) <==> ChainDrains(AfterBody(b, trims)))
  {
    hide BodyCut, ChainCut, AfterBody, Shuts, CloseLength;
    AfterBodyIsSuffix(b, trims);
    var c := AfterBody(b, trims);
    var start := |b| - |c|;
    CutsAreInside(b, trims);
    if e: nat :| BodyCut(b, trims, e) {
      if e < CloseLength(b, 1) { InsideIsNoCut(b, trims, e); } else { ShutCutAt(b, trims, e); }
      assert ChainCut(c, e - start);
    }
    if e: nat :| ChainCut(c, e) {
      ShutCutAt(b, trims, start + e);
      assert BodyCut(b, trims, start + e);
    }
  }

  lemma CutsAreInside(b: string, trims: bool)
    ensures forall e: nat :: BodyCut(b, trims, e) ==> e <= |b|
    ensures forall c: string, e: nat :: ChainCut(c, e) ==> e <= |c|
  {
  }

  /** Trimming a prefix is a prefix of the trimmed text, or nothing if the prefix is blank. */
  lemma {:induction false} TrimLeftPrefix(s: string, e: nat)
    requires e <= |s|
    ensures TrimLeft(s[..e]) == if |s| - |TrimLeft(s)| <= e then s[..e][|s| - |TrimLeft(s)|..] else ""
    decreases |s|
  {
    hide IsSpace;
    if e == 0 {
      TrimLeftIsSuffix(s);
      assert s[..0] == "";
    } else if IsSpace(s[0]) {
      TrimLeftPrefix(s[1..], e - 1);
      TrimLeftStep(s, e);
    } else {
      assert s[..e][0..] == s[..e];
    }
  }

  lemma TrimLeftStep(s: string, e: nat)
    requires 0 < e <= |s| && IsSpace(s[0])
    ensures TrimLeft(s) == TrimLeft(s[1..]) && TrimLeft(s[..e]) == TrimLeft(s[1..][..e - 1])
    ensures forall j :: 0 < j <= e ==> s[1..][..e - 1][j - 1..] == s[..e][j..]
  {
    assert s[..e][1..] == s[1..][..e - 1];
    forall j | 0 < j <= e ensures s[1..][..e - 1][j - 1..] == s[..e][j..] {}
  }

  lemma InsideIsNoCut(b: string, trims: bool, e: nat)
    requires QuoteFree(b) && Shuts(b, 1) && e < CloseLength(b, 1)
    ensures !BodyCut(b, trims, e)
  {
    hide Depth, OpenInArgs, OpenInChain, NonBlanks, Shuts, CloseLength, IsCloser;
    ShutsCut(b, 1);
    ShutsPrefix(b, 1, e);
    var k := CloseLength(b, 1);
    QuoteFreeParts(b, 0, e);
    QuoteFreeParts(b, 0, k - 1);
    QuoteFreeParts(b, e, k - 1);
    if OpenInArgs(b[..e]).Some? {
      DepthSplit(b[..k - 1], e, 0);
      assert b[..k - 1][..e] == b[..e] && b[..k - 1][e..] == b[e..k - 1];
      OpenArgsDepth(b[..e]);
      ClosersCount(b[e..k - 1], Depth(b[..e], 0, true).value);
      NonBlanksSplit(b, e, k - 1);
      CloserCounts(b, k - 1);
    }
  }

  lemma CloserCounts(b: string, i: nat)
    requires i < |b| && IsCloser(b[i])
    ensures NonBlanks(b[i..]) >= 1
  {
    CloserIsNoOpener(b[i]);
  }

  // Trimming a call changes nothing

  lemma FirstBlankIsNothing(t: string)
    requires t != "" && IsSpace(t[0])
    ensures CallDrains(t) <==> CallDrains(t[1..])
  {
    hide CallDrains, BodyDrains;
    CallBody(t);
    CallBody(t[1..]);
    assert ParenIndex(t) == 1 + ParenIndex(t[1..]);
  }

  lemma LastBlankIsNothing(t: string)
    requires t != "" && IsSpace(t[|t| - 1])
    ensures CallDrains(t) <==> CallDrains(t[..|t| - 1])
  {
    hide OpenInCall, NonBlanks, EndsWithParen, IsSpace;
    var init := t[..|t| - 1];
    forall e | 0 <= e <= |init| ensures CallCut(t, e) <==> CallCut(init, e) {
      assert t[..e] == init[..e] && t[e..] == init[e..] + [t[|t| - 1]];
      BlankCount(init[e..], t[|t| - 1]);
    }
    BlankCallEnd(t);
    if e: nat :| CallCut(t, e) { assert CallCut(init, e); }
    if e: nat :| CallCut(init, e) { assert CallCut(t, e); }
  }

  lemma BlankCallEnd(t: string)
    requires t != "" && IsSpace(t[|t| - 1])
    ensures !CallCut(t, |t|)
  {
    hide OpenInCall;
    assert t[..|t|] == t;
    if OpenInCall(t).Some? { OpenCallEnds(t); ParenIsNoBlank(); }
  }

  lemma {:induction false} TrimLeftKeepsCall(t: string)
    ensures CallDrains(TrimLeft(t)) <==> CallDrains(t)
  {
    hide CallDrains, IsSpace;
    if t != "" && IsSpace(t[0]) {
      FirstBlankIsNothing(t);
      TrimLeftKeepsCall(t[1..]);
    }
  }

  lemma {:induction false} TrimRightKeepsCall(t: string)
    ensures CallDrains(TrimRight(t)) <==> CallDrains(t)
  {
    hide CallDrains, IsSpace;
    if t != "" && IsSpace(t[|t| - 1]) {
      LastBlankIsNothing(t);
      TrimRightKeepsCall(t[..|t| - 1]);
    }
  }

  lemma TrimKeepsCall(text: string)
    ensures CallDrains(Trim(text)) <==> CallDrains(text)
  {
    hide CallDrains, TrimLeft, TrimRight;
    TrimLeftKeepsCall(text);
    TrimRightKeepsCall(TrimLeft(text));
  }
}
