/** Exactly which texts without literals overflow the stack of the call parser. */
module CommandOverflow {
  import opened Results
  import opened CommandParser
  import opened Brackets
  import opened TameText
  import opened CommandTermination
  import opened CommandRoundTrip
  import opened OpenCalls
  import opened CallCuts

  // The parser overflows exactly on the texts that can be cut

  lemma EndedSuffix(s: string, j: nat)
    requires Ended(s) && j <= |s|
    ensures Ended(s[j..])
  {
  }

  lemma TrimEnded(s: string)
    requires Ended(s)
    ensures Trim(s) == TrimLeft(s) && Ended(TrimLeft(s))
  {
    TrimLeftIsSuffix(s);
  }

  lemma EndedTrim(s: string)
    ensures Ended(TrimRight(s))
  {
  }

  lemma {:induction false} ArgsOverflowIff(s: string)
    requires QuoteFree(s) && Depth(s, 0, true).Some? && Ended(s)
    ensures ArgsOf(s).Err? <==> ArgsDrain(s)
    decreases |s|, 5
  {
    hide Depth, FirstArg, IsSeparator, ArgsDrain, Ended;
    if s == "" {
      NothingDrains(s);
    } else if IsSeparator(s[0]) {
      SeparatorShift(s);
      SeparatorDepth(s);
      QuoteFreeParts(s, 1, 1);
      EndedSuffix(s, 1);
      ArgsOverflowIff(s[1..]);
    } else if s[0] == '{' {
      TableOverflowIff(s);
    } else {
      BareOverflowIff(s);
    }
  }

  lemma NothingDrains(s: string)
    requires |s| == 0
    ensures !ArgsDrain(s)
  {
    NotAtStart(s);
  }

  lemma {:induction false} TableOverflowIff(s: string)
    requires QuoteFree(s) && Depth(s, 0, true).Some? && Ended(s) && s != "" && s[0] == '{'
    ensures ArgsOf(s).Err? <==> ArgsDrain(s)
    decreases |s|, 4
  {
    hide Depth, CloseLength, Shuts, ArgsDrain, Ended;
    QuoteFreeParts(s, 1, 1);
    CloseLengthStep(s, 0);
    TableShift(s);
    assert !IsSeparator('{');
    var k := CloseLength(s, 0);
    if Shuts(s[1..], 1) {
      ShutsCut(s[1..], 1);
      assert s[k..] == s[1..][k - 1..];
      TableDepth(s, k - 1);
      QuoteFreeParts(s, k, k);
      EndedSuffix(s, k);
      ArgsOverflowIff(s[k..]);
    } else {
      NotShut(s[1..], 1);
      assert Drop(s, k) == "";
    }
  }

  lemma BareGoesOn(s: string)
    requires QuoteFree(s) && Depth(s, 0, true).Some? && s != "" && !IsSeparator(s[0])
    ensures BareLength(s, 0) > 0
  {
  }

  /** A token that is followed by another argument is balanced, so it is read. */
  lemma TokenIsRead(s: string)
    requires QuoteFree(s) && BareLength(s, 0) < |s|
    ensures TokenValue(Trim(s[..BareLength(s, 0)])).Ok?
  {
    hide Depth, Quiet, TokenValue, Trim;
    var k := BareLength(s, 0);
    BareCut(s, 0);
    QuoteFreeParts(s, 0, k);
    QuoteFreeIsQuiet(s[..k]);
    assert Tame(s[..k], 0);
    TameTrim(s[..k], 0);
    TokenReturns(Trim(s[..k]));
  }

  lemma {:induction false} BareOverflowIff(s: string)
    requires QuoteFree(s) && Depth(s, 0, true).Some? && Ended(s) && s != "" && !IsSeparator(s[0]) && s[0] != '{'
    ensures ArgsOf(s).Err? <==> ArgsDrain(s)
    decreases |s|, 4
  {
    hide Depth, BareLength, ArgsDrain, CallDrains, Ended, TokenValue, IsSeparator, Trim, IsQuote;
    var k := BareLength(s, 0);
    BareGoesOn(s);
    BareCut(s, 0);
    BareArg(s);
    if k < |s| {
      TokenIsRead(s);
      BareShift(s);
      DepthSplit(s, k, 0);
      QuoteFreeParts(s, k, k);
      EndedSuffix(s, k);
      ArgsOverflowIff(s[k..]);
    } else {
      assert s[..k] == s && Drop(s, k) == "";
      WholeToken(s);
      LastTokenCut(s);
      TokenOverflowIff(s);
    }
  }

  lemma BareArg(s: string)
    requires QuoteFree(s) && s != "" && s[0] != '{' && 0 < BareLength(s, 0) <= |s|
    ensures var k := BareLength(s, 0);
            FirstArg(s) == match TokenValue(Trim(s[..k])) case Ok(v) => Ok((v, k)) case Err(e) => Err(e)
  {
    hide BareLength, TokenValue, Trim;
    var k := BareLength(s, 0);
    assert Substring(s, 0, k) == s[..k];
  }

  lemma WholeToken(s: string)
    requires s != "" && !IsSeparator(s[0]) && Ended(s)
    ensures Trim(s) == s
  {
  }

  lemma {:induction false} TokenOverflowIff(s: string)
    requires QuoteFree(s) && Ended(s)
    ensures TokenValue(s).Err? <==> CallDrains(s)
    decreases |s|, 3
  {
    hide Depth, CallDrains, IsNumeric, CommandOf, Ended, ParenIndex;
    CallBody(s);
    if HasParen(s) {
      if IsNumeric(s) { NumericIsPlain(s); }
      KeywordsHaveNoParen();
      CallOverflowsIff(s);
    }
  }

  lemma KeywordsHaveNoParen()
    ensures !HasParen("true") && !HasParen("false") && !HasParen("nil")
  {
    hide ParenIndex;
    WordHasNoParen("true");
    WordHasNoParen("false");
    WordHasNoParen("nil");
  }

  lemma WordHasNoParen(w: string)
    requires forall k :: 0 <= k < |w| ==> IsWord(w[k])
    ensures !HasParen(w)
  {
    hide ParenIndex, IsWord;
    WordsArePlain(w);
  }

  /** The argument text of a call: a closed one is read; an open one lacks its last character. */
  lemma {:induction false} ArgumentTextIff(rest: string)
    requires QuoteFree(rest) && Ended(rest) && rest != "" && rest[0] == '('
    ensures 0 < CloseLength(rest, 0) <= |rest|
    ensures ArgsOf(Trim(Substring(rest, 1, CloseLength(rest, 0) - 1))).Err? <==>
            !Shuts(rest[1..], 1) && (rest[1..] == "" || ArgsDrain(rest[1..][..|rest| - 2]))
    decreases |rest|, 0
  {
    hide Depth, CloseLength, Shuts, ArgsOf, Trim, Substring, ArgsDrain, Ended, IsQuote;
    CloseLengthStep(rest, 0);
    ParenIsOpener();
    var b := rest[1..];
    var k := CloseLength(rest, 0);
    QuoteFreeParts(rest, 1, 1);
    if Shuts(b, 1) {
      ShutsCut(b, 1);
      InnerCut(rest, k);
      QuoteFreeParts(b, 0, k - 2);
      BalancedIsRead(b[..k - 2]);
    } else {
      NotShut(b, 1);
      if b == "" {
        SwappedCut(rest);
        LoneTrim(rest);
        LoneParenOverflows(rest);
      } else {
        InnerCut(rest, k);
        var cut := b[..|b| - 1];
        QuoteFreeParts(b, 0, |b| - 1);
        DepthSplit(b, |b| - 1, 0);
        TrimKeepsDepth(cut);
        TrimCut(cut);
        ArgsOverflowIff(Trim(cut));
      }
    }
  }

  lemma ParenIsOpener()
    ensures IsOpener('(') && !IsQuote('(')
  {
  }

  lemma LoneTrim(s: string)
    requires |s| == 1 && s[0] == '('
    ensures Trim(s) == s && LoneParen(s)
  {
  }

  lemma BalancedIsRead(s: string)
    requires QuoteFree(s) && Depth(s, 0, true) == Some(0)
    ensures ArgsOf(Trim(s)).Ok?
  {
    hide Depth, Quiet, ArgsOf, Trim;
    QuoteFreeIsQuiet(s);
    TameTrim(s, 0);
    ArgsReturn(Trim(s));
  }

  /** Trimming keeps a text free of quotes and stray closers, and ends it. */
  lemma TrimKeepsDepth(s: string)
    requires QuoteFree(s) && Depth(s, 0, true).Some?
    ensures QuoteFree(Trim(s)) && Depth(Trim(s), 0, true).Some? && Ended(Trim(s)) && |Trim(s)| <= |s|
  {
    hide Depth, Ended, TrimLeft, TrimRight;
    BlanksKeepDepth(s, 0);
    TrimLeftIsSuffix(s);
    QuoteFreeParts(s, |s| - |TrimLeft(s)|, |s|);
    var t := TrimLeft(s);
    TrimRightIsPrefix(t);
    QuoteFreeParts(t, 0, |TrimRight(t)|);
    DepthSplit(t, |TrimRight(t)|, 0);
    EndedTrim(t);
  }

  lemma {:induction false} TrimRightIsPrefix(s: string)
    ensures TrimRight(s) == s[..|TrimRight(s)|]
    decreases |s|
  {
    hide IsSpace;
    if s != "" && IsSpace(s[|s| - 1]) {
      TrimRightIsPrefix(s[..|s| - 1]);
    }
  }

  lemma NoCallIsRead(t: string)
    requires !HasParen(t)
    ensures CommandOf(t).Ok?
  {
  }

  lemma EmptyChain()
    ensures ChainOf("").Ok? && Trim("") == ""
  {
  }

  /** A call is stuck exactly if its argument text or its chain is. */
  lemma CallOutcome(t: string)
    requires HasParen(t)
    ensures var rest := t[ParenIndex(t)..];
            var k := CloseLength(rest, 0);
            && k <= |rest|
            && (CommandOf(t).Err? <==>
                LoneParen(t) || ArgsOf(Trim(Substring(rest, 1, k - 1))).Err? || ChainOf(Trim(rest[k..])).Err?)
  {
    hide CloseLength, ArgsOf, ChainOf, Trim, Substring, Root, HasColon;
    assert LoneParen(t) <==> t == "(";
  }

  /** What follows the parenthesis of a call, and where the scan for its closer ends. */
  lemma BodyOf(rest: string)
    requires QuoteFree(rest) && Ended(rest) && rest != "" && rest[0] == '('
    ensures QuoteFree(rest[1..]) && Ended(rest[1..])
    ensures CloseLength(rest, 0) == 1 + CloseLength(rest[1..], 1)
    ensures CloseLength(rest[1..], 1) <= |rest[1..]|
    ensures rest[CloseLength(rest, 0)..] == rest[1..][CloseLength(rest[1..], 1)..]
    ensures !Shuts(rest[1..], 1) ==> rest[CloseLength(rest, 0)..] == ""
  {
    hide CloseLength, Shuts, IsQuote, Ended;
    CloseLengthStep(rest, 0);
    ParenIsOpener();
    QuoteFreeParts(rest, 1, 1);
    EndedSuffix(rest, 1);
    if !Shuts(rest[1..], 1) { NotShut(rest[1..], 1); }
  }

  /** The body of a call or a step, and what follows it, is stuck exactly if it can be cut. */
  lemma {:induction false} BodyOverflowsIff(rest: string, trims: bool)
    requires QuoteFree(rest) && Ended(rest) && rest != "" && rest[0] == '('
    ensures var k := CloseLength(rest, 0);
            && 0 < k <= |rest|
            && var chain := if trims then Trim(rest[k..]) else rest[k..];
            (ArgsOf(Trim(Substring(rest, 1, k - 1))).Err? || ChainOf(chain).Err? <==> BodyDrains(rest[1..], trims))
    decreases |rest|, 1
  {
    hide CloseLength, Shuts, ArgsOf, ChainOf, Trim, TrimLeft, Substring, BodyDrains, ArgsDrain, ChainDrains, Ended,
      AfterBody, QuoteFree;
    var b := rest[1..];
    assert b[..|b|] == b;
    BodyOf(rest);
    ArgumentTextIff(rest);
    if Shuts(b, 1) {
      ShutBodyCut(b, trims);
      if trims { ChainAfterCall(b); } else { ChainAfterStep(b); }
      ChainOverflowsIff(AfterBody(b, trims));
    } else {
      OpenBodyCut(b, trims);
      EmptyChain();
    }
  }

  lemma {:induction false} CallOverflowsIff(t: string)
    requires QuoteFree(t) && Ended(t)
    ensures CommandOf(t).Err? <==> CallDrains(t)
    decreases |t|, 2
  {
    hide CloseLength, ArgsOf, ChainOf, CommandOf, Trim, Substring, CallDrains, BodyDrains, Ended, ParenIndex, QuoteFree,
      LoneParen;
    CallBody(t);
    if !HasParen(t) {
      NoCallIsRead(t);
    } else {
      var p := ParenIndex(t);
      assert t[p..][1..] == t[p + 1..];
      QuoteFreeParts(t, p, p);
      EndedSuffix(t, p);
      BodyOverflowsIff(t[p..], true);
      CallOutcome(t);
      LoneIsStuck(t);
    }
  }

  lemma LoneIsStuck(t: string)
    requires HasParen(t)
    ensures LoneParen(t) ==> BodyDrains(t[ParenIndex(t) + 1..], true)
  {
    hide OpenInBody;
    if LoneParen(t) {
      var b := t[ParenIndex(t) + 1..];
      assert |b| == 0;
      NothingIsOpen(b);
      OpenBodyCut(b, true);
    }
  }

  lemma NothingIsOpen(b: string)
    requires |b| == 0
    ensures !Shuts(b, 1)
  {
  }

  /** The chain text after a closed call. */
  lemma ChainAfterCall(b: string)
    requires QuoteFree(b) && Ended(b) && Shuts(b, 1)
    ensures CloseLength(b, 1) <= |b| && Trim(b[CloseLength(b, 1)..]) == AfterBody(b, true)
    ensures QuoteFree(AfterBody(b, true)) && Ended(AfterBody(b, true)) && |AfterBody(b, true)| <= |b|
  {
    hide CloseLength, Shuts, Trim, Ended, TrimLeft;
    AfterBodyIsSuffix(b, true);
    QuoteFreeParts(b, |b| - |AfterBody(b, true)|, |b|);
    EndedSuffix(b, CloseLength(b, 1));
    TrimEnded(b[CloseLength(b, 1)..]);
  }

  lemma {:induction false} ChainOverflowsIff(c: string)
    requires QuoteFree(c) && Ended(c)
    ensures ChainOf(c).Err? <==> ChainDrains(c)
    decreases |c|, 2
  {
    hide CloseLength, ArgsOf, ChainOf, Trim, Substring, BodyDrains, ChainDrains, Ended, ParenIndex, IsDelimiter,
      QuoteFree;
    if c == "" || !IsDelimiter(c[0]) {
      NoDelimiterNoCut(c);
      NoDelimiterIsRead(c);
    } else {
      ChainBody(c);
      StepOutcome(c);
      if HasParen(c[1..]) {
        var p := ParenIndex(c[1..]);
        assert c[1..][p..] == c[p + 1..] && c[1..][p..][1..] == c[1..][p + 1..];
        QuoteFreeParts(c, p + 1, p + 1);
        EndedSuffix(c, p + 1);
        BodyOverflowsIff(c[1..][p..], false);
      }
    }
  }

  lemma NoDelimiterIsRead(c: string)
    requires c == "" || !IsDelimiter(c[0])
    ensures ChainOf(c).Ok?
  {
  }

  lemma ChainAfterStep(b: string)
    requires QuoteFree(b) && Ended(b) && Shuts(b, 1)
    ensures CloseLength(b, 1) <= |b| && b[CloseLength(b, 1)..] == AfterBody(b, false)
    ensures QuoteFree(AfterBody(b, false)) && Ended(AfterBody(b, false)) && |AfterBody(b, false)| <= |b|
  {
    hide CloseLength, Shuts, Ended, TrimLeft;
    AfterBodyIsSuffix(b, false);
    QuoteFreeParts(b, CloseLength(b, 1), |b|);
    EndedSuffix(b, CloseLength(b, 1));
  }

  lemma StepUnfolds(c: string)
    requires c != "" && IsDelimiter(c[0])
    ensures ChainOf(c).Err? <==> FirstStep(c).Err? || ChainOf(c[FirstStep(c).value.1..]).Err?
  {
    hide FirstStep;
  }

  lemma StepOf(c: string)
    requires c != ""
    ensures !HasParen(c[1..]) ==> FirstStep(c).Ok? && FirstStep(c).value.1 == |c|
    ensures HasParen(c[1..]) ==>
              var rest := c[1..][ParenIndex(c[1..])..];
              var k := CloseLength(rest, 0);
              && k <= |rest|
              && (FirstStep(c).Err? <==> ArgsOf(Trim(Substring(rest, 1, k - 1))).Err?)
              && (FirstStep(c).Ok? ==> FirstStep(c).value.1 == 1 + ParenIndex(c[1..]) + k)
  {
    hide CloseLength, ArgsOf, Trim, Substring, Segments, HasColon;
  }

  /** A chain is stuck exactly if the argument text of its first step or the rest of it is. */
  lemma StepOutcome(c: string)
    requires c != "" && IsDelimiter(c[0])
    ensures !HasParen(c[1..]) ==> ChainOf(c).Ok?
    ensures HasParen(c[1..]) ==>
              var rest := c[1..][ParenIndex(c[1..])..];
              var k := CloseLength(rest, 0);
              && k <= |rest|
              && (ChainOf(c).Err? <==> ArgsOf(Trim(Substring(rest, 1, k - 1))).Err? || ChainOf(rest[k..]).Err?)
  {
    hide CloseLength, ArgsOf, ChainOf, Trim, Substring, FirstStep, ParenIndex, IsDelimiter;
    StepOf(c);
    StepUnfolds(c);
    if HasParen(c[1..]) {
      var n := ParenIndex(c[1..]);
      var rest := c[1..][n..];
      var k := CloseLength(rest, 0);
      assert c[1 + n + k..] == rest[k..];
    } else {
      EmptyChain();
      assert c[|c|..] == "";
    }
  }

  // Whole texts

  lemma QuoteFreeTrim(t: string)
    requires QuoteFree(t)
    ensures QuoteFree(Trim(t)) && Ended(Trim(t))
  {
    hide Ended, IsQuote, TrimLeft, TrimRight;
    TrimLeftIsSuffix(t);
    QuoteFreeParts(t, |t| - |TrimLeft(t)|, |t|);
    var u := TrimLeft(t);
    TrimRightIsPrefix(u);
    QuoteFreeParts(u, |TrimRight(u)|, |u|);
    EndedTrim(u);
  }

  /** A text without literals overflows the stack of the call parser exactly if it can be cut, and is parsed if not. */
  lemma CallTextOverflowsIff(text: string)
    requires QuoteFree(text)
    ensures ParseCommandText(text) == Err(StackOverflow) <==> CallDrains(text)
    ensures ParseCommandText(text).Ok? <==> !CallDrains(text)
  {
    hide CommandOf, CallDrains, Trim, Ended, QuoteFree;
    QuoteFreeTrim(text);
    CallOverflowsIff(Trim(text));
    CallsNeverLoop(text);
    TrimKeepsCall(text);
    var r := ParseCommandText(text);
    if r.Err? { match r.error { case StackOverflow => case EndlessLoop => } }
  }

  /** An argument text without literals is parsed exactly if no closer in it is unmatched and it cannot be cut. */
  lemma ArgumentTextReturnsIff(text: string)
    requires QuoteFree(text)
    ensures ParseArgsText(text).Ok? <==> !Unmatched(text, 0) && !ArgsDrain(text)
  {
    hide Depth, ArgsOf, ArgsDrain, Trim, Ended;
    if Unmatched(text, 0) {
      UnmatchedCloserSticks(text);
    } else {
      TrimKeepsDepth(text);
      TrimCut(text);
      ArgsOverflowIff(Trim(text));
    }
  }
}
