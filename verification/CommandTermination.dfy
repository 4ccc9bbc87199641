/** On which texts the call parser returns at all. */
module CommandTermination {
  import opened Results
  import opened CommandParser
  import opened Brackets
  import opened TameText
  import opened StrayText

  // Every tame text is parsed

  lemma {:induction false} ArgsReturn(s: string)
    requires Tame(s, 0)
    ensures ArgsOf(s).Ok?
    decreases |s|, 3
  {
    hide FirstArg, Tame, IsSeparator;
    if s == "" {
    } else if IsSeparator(s[0]) {
      SeparatorSkipped(s);
      ArgsReturn(s[1..]);
    } else {
      FirstArgReturns(s);
      ArgsReturn(s[FirstArg(s).value.1..]);
    }
  }

  lemma SeparatorSkipped(s: string)
    requires s != "" && IsSeparator(s[0]) && Tame(s, 0)
    ensures Tame(s[1..], 0)
  {
  }

  lemma {:induction false} FirstArgReturns(s: string)
    requires s != "" && !IsSeparator(s[0]) && Tame(s, 0)
    ensures FirstArg(s).Ok? && FirstArg(s).value.1 <= |s| && Tame(s[FirstArg(s).value.1..], 0)
    decreases |s|, 2
  {
    hide Tame, TokenValue, CloseLength, BareLength, SkipLength, Unescape, Trim;
    if IsQuote(s[0]) {
      LiteralSkipped(s);
    } else if s[0] == '{' {
      BracketSkipped(s, 0);
    } else {
      BareSplits(s, 0);
      BareAdvances(s);
      var token := s[..BareLength(s, 0)];
      assert Substring(s, 0, |token|) == token;
      TameTrim(token, 0);
      TokenReturns(Trim(token));
    }
  }

  lemma LiteralSkipped(s: string)
    requires s != "" && IsQuote(s[0]) && Tame(s, 0)
    ensures SkipLength(s) <= |s| && Tame(s[SkipLength(s)..], 0)
  {
    ClosesLength(s[1..], s[0]);
  }

  lemma BareAdvances(s: string)
    requires s != "" && !IsSeparator(s[0]) && !IsQuote(s[0]) && Tame(s, 0)
    ensures BareLength(s, 0) > 0
  {
  }

  lemma {:induction false} TokenReturns(token: string)
    requires Tame(token, 0)
    ensures TokenValue(token).Ok?
    decreases |token|, 1
  {
    hide Tame, Settled, IsNumeric, CommandOf;
    TameIsSettled(token, 0);
    CommandReturns(token, 0);
  }

  lemma {:induction false} CommandReturns(t: string, d: nat)
    requires Settled(t, d)
    ensures CommandOf(t).Ok?
    decreases |t|, 0
  {
    hide Tame, Settled, ArgsOf, ChainOf, CloseLength, Trim, Root, HasColon;
    var p := ParenIndex(t);
    if p < |t| {
      var rest := t[p..];
      var e := ParenSettles(t, d);
      BracketSettled(rest, e);
      var k := CloseLength(rest, 0);
      TameTrim(rest[1..k - 1], 0);
      ArgsReturn(Trim(rest[1..k - 1]));
      SettledTrim(rest[k..], e);
      ChainReturns(Trim(rest[k..]), e);
    }
  }

  lemma {:induction false} ChainReturns(s: string, d: nat)
    requires Settled(s, d)
    ensures ChainOf(s).Ok?
    decreases |s|, 1
  {
    hide Settled, FirstStep;
    if s != "" && IsDelimiter(s[0]) {
      var e := FirstStepReturns(s, d);
      ChainReturns(s[FirstStep(s).value.1..], e);
    }
  }

  lemma {:induction false} FirstStepReturns(s: string, d: nat) returns (e: nat)
    requires s != "" && IsDelimiter(s[0]) && Settled(s, d)
    ensures FirstStep(s).Ok? && Settled(s[FirstStep(s).value.1..], e)
    decreases |s|, 0
  {
    hide Tame, Settled, ArgsOf, CloseLength, Trim, Segments, HasColon;
    DelimiterSkipped(s, d);
    var n := ParenIndex(s[1..]);
    var rest := s[1..][n..];
    e := ParenSettles(s[1..], d);
    if rest == "" {
      assert s[|s|..] == rest;
    } else {
      BracketSettled(rest, e);
      var k := CloseLength(rest, 0);
      TameTrim(rest[1..k - 1], 0);
      ArgsReturn(Trim(rest[1..k - 1]));
      assert s[1 + n + k..] == rest[k..];
    }
  }

  lemma DelimiterSkipped(s: string, d: nat)
    requires s != "" && IsDelimiter(s[0]) && Settled(s, d)
    ensures Settled(s[1..], d)
  {
  }

  /** Texts that leave no bracket open and whose literals hold no `(` are parsed as calls; stray closers do no harm. */
  lemma SettledReturns(text: string)
    requires Level(text, 0) == 0 && Quiet(text)
    ensures ParseCommandText(text).Ok?
  {
    hide CommandOf, Trim;
    assert Settled(text, 0);
    SettledTrim(text, 0);
    CommandReturns(Trim(text), 0);
  }

  /** Every balanced text whose literals hold no `(` is parsed, as a call and as an argument list. */
  lemma BalancedReturns(text: string)
    requires Balanced(text) && Quiet(text)
    ensures ParseCommandText(text).Ok? && ParseArgsText(text).Ok?
  {
    hide CommandOf, ArgsOf, Trim;
    assert Tame(text, 0);
    TameTrim(text, 0);
    TameIsSettled(Trim(text), 0);
    CommandReturns(Trim(text), 0);
    ArgsReturn(Trim(text));
  }

  // A call never loops

  predicate Loops<T>(r: Parse<T>) { r == Err(EndlessLoop) }

  lemma {:induction false} ArgsDoNotLoop(s: string)
    requires NoStray(s, 0)
    ensures !Loops(ArgsOf(s))
    decreases |s|, 3
  {
    hide FirstArg, NoStray, IsSeparator;
    if s == "" {
    } else if IsSeparator(s[0]) {
      SeparatorKeeps(s);
      ArgsDoNotLoop(s[1..]);
    } else {
      FirstArgDoesNotLoop(s);
      if FirstArg(s).Ok? { ArgsDoNotLoop(Drop(s, FirstArg(s).value.1)); }
    }
  }

  lemma SeparatorKeeps(s: string)
    requires s != "" && IsSeparator(s[0]) && NoStray(s, 0)
    ensures NoStray(s[1..], 0)
  {
  }

  lemma {:induction false} FirstArgDoesNotLoop(s: string)
    requires s != "" && !IsSeparator(s[0]) && NoStray(s, 0)
    ensures !Loops(FirstArg(s))
    ensures FirstArg(s).Ok? ==> NoStray(Drop(s, FirstArg(s).value.1), 0)
    decreases |s|, 2
  {
    hide NoStray, TokenValue, CloseLength, BareLength, SkipLength, Unescape, Trim, Substring;
    if IsQuote(s[0]) {
      LiteralKeeps(s);
    } else if s[0] == '{' {
      TableKeeps(s);
    } else {
      BareLeaves(s, 0);
      BareStarts(s);
      TokenDoesNotLoop(Trim(Substring(s, 0, BareLength(s, 0))));
    }
  }

  lemma LiteralKeeps(s: string)
    requires s != "" && IsQuote(s[0]) && NoStray(s, 0)
    ensures NoStray(Drop(s, SkipLength(s)), 0)
  {
    hide SkipLength;
    if SkipLength(s) >= |s| { assert Drop(s, SkipLength(s)) == ""; }
  }

  lemma TableKeeps(s: string)
    requires s != "" && s[0] == '{' && NoStray(s, 0)
    ensures CloseLength(s, 0) <= |s| && NoStray(Drop(s, CloseLength(s, 0)), 0)
  {
    hide CloseLength, NoStray;
    OpenerKeeps(s);
    CloseLengthStep(s, 0);
    CloseLeaves(s[1..], 1);
    var k := CloseLength(s[1..], 1);
    assert s[1..][k..] == s[k + 1..];
  }

  lemma OpenerKeeps(s: string)
    requires s != "" && IsOpener(s[0]) && NoStray(s, 0)
    ensures NoStray(s[1..], 1)
  {
  }

  lemma BareStarts(s: string)
    requires s != "" && !IsSeparator(s[0]) && !IsQuote(s[0]) && NoStray(s, 0)
    ensures BareLength(s, 0) > 0
  {
  }

  lemma {:induction false} TokenDoesNotLoop(token: string)
    ensures !Loops(TokenValue(token))
    decreases |token|, 1
  {
    hide IsNumeric, CommandOf;
    CommandDoesNotLoop(token);
  }

  /** The argument text of a call: every closer in it finds a bracket open, also when the call is not closed. */
  lemma ArgumentTextHasNoStray(rest: string)
    requires rest != "" && rest[0] == '('
    ensures var k := CloseLength(rest, 0); 0 < k <= |rest| && NoStray(Trim(Substring(rest, 1, k - 1)), 0)
  {
    hide NoStray, CloseLength, Trim, Substring;
    CloseLengthStep(rest, 0);
    var k := CloseLength(rest, 0);
    if |rest| == 1 {
      assert rest[1..] == "";
      CloseLengthEmpty(1);
      SwappedCut(rest);
      LoneOpener(rest);
      StrayTrim(rest);
    } else {
      CloseCuts(rest[1..], 1);
      InnerCut(rest, k);
      StrayTrim(rest[1..][..k - 2]);
    }
  }

  lemma SwappedCut(s: string)
    requires |s| == 1
    ensures Substring(s, 1, 0) == s
  {
  }

  lemma InnerCut(s: string, k: nat)
    requires 1 < k <= |s|
    ensures Substring(s, 1, k - 1) == s[1..][..k - 2]
  {
  }

  lemma LoneOpener(s: string)
    requires |s| == 1 && s[0] == '('
    ensures NoStray(s, 0)
  {
  }

  lemma {:induction false} CommandDoesNotLoop(t: string)
    ensures !Loops(CommandOf(t))
    decreases |t|, 0
  {
    hide NoStray, ArgsOf, ChainOf, CloseLength, Trim, Substring, Root, HasColon;
    var p := ParenIndex(t);
    if p < |t| && t != "(" {
      var rest := t[p..];
      ArgumentTextHasNoStray(rest);
      var k := CloseLength(rest, 0);
      ArgsShorter(rest, k);
      ArgsDoNotLoop(Trim(Substring(rest, 1, k - 1)));
      ChainDoesNotLoop(Trim(rest[k..]));
    }
  }

  lemma {:induction false} ChainDoesNotLoop(s: string)
    ensures !Loops(ChainOf(s))
    decreases |s|, 1
  {
    hide FirstStep;
    if s != "" && IsDelimiter(s[0]) {
      StepDoesNotLoop(s);
      if FirstStep(s).Ok? { ChainDoesNotLoop(s[FirstStep(s).value.1..]); }
    }
  }

  lemma {:induction false} StepDoesNotLoop(s: string)
    requires s != ""
    ensures !Loops(FirstStep(s))
    decreases |s|, 0
  {
    hide NoStray, ArgsOf, CloseLength, Trim, Substring, Segments, HasColon;
    var rest := s[1..][ParenIndex(s[1..])..];
    if rest != "" {
      ArgumentTextHasNoStray(rest);
      ArgsDoNotLoop(Trim(Substring(rest, 1, CloseLength(rest, 0) - 1)));
    }
  }

  /** Parsing a call never loops, whatever the text: the argument texts it cuts out hold no unmatched closer. */
  lemma CallsNeverLoop(text: string)
    ensures ParseCommandText(text) != Err(EndlessLoop)
  {
    hide CommandOf, Trim;
    CommandDoesNotLoop(Trim(text));
  }

  // Texts the parser does not return on

  /** A text that is a lone parenthesis. */
  predicate LoneParen(s: string) { |s| == 1 && s[0] == '(' }

  lemma LoneParenScans(s: string)
    requires LoneParen(s)
    ensures BareLength(s, 0) == 1 && CloseLength(s, 0) == 1 && ParenIndex(s) == 0
  {
    assert s[1..] == "";
  }

  lemma LoneParenCuts(s: string)
    requires LoneParen(s)
    ensures Trim(s) == s && Substring(s, 0, 1) == s && Substring(s, 1, 0) == s
  {
  }

  lemma LoneParenToken(s: string)
    requires LoneParen(s)
    ensures CommandOf(s) == Err(StackOverflow) && TokenValue(s) == Err(StackOverflow)
  {
    hide ArgsOf, ChainOf, CloseLength, Trim, Root, HasColon, Substring, ParenIndex;
    LoneParenScans(s);
    assert DigitRun(s) == 0 && s[0..] == s && s == "(";
  }

  lemma LoneParenArg(s: string)
    requires LoneParen(s)
    ensures FirstArg(s) == Err(StackOverflow) && !IsSeparator(s[0])
  {
    hide TokenValue, Trim, Substring, BareLength, CloseLength, SkipLength;
    LoneParenScans(s);
    LoneParenCuts(s);
    LoneParenToken(s);
  }

  lemma LoneParenOverflows(s: string)
    requires LoneParen(s)
    ensures ArgsOf(s) == Err(StackOverflow)
  {
    hide FirstArg, IsSeparator;
    LoneParenArg(s);
  }

  /** The swapped bounds of a call cut off after its `(` make that parenthesis the argument text. */
  lemma CutOffCallOverflows(path: string)
    requires !HasParen(path)
    ensures CommandOf(path + "(") == Err(StackOverflow)
  {
    hide ArgsOf, ChainOf, CloseLength, Trim, Root, HasColon, Substring, ParenIndex;
    var t := path + "(";
    var rest := t[|path|..];
    assert t[..|path|] == path;
    LoneParenScans(rest);
    ParenIndexBeyond(t, |path|);
    LoneParenCuts(rest);
    LoneParenOverflows(rest);
  }

  predicate QuotedParens(t: string) { t == "a\"((\"" }

  lemma QuotedParenScans(t: string)
    requires QuotedParens(t)
    ensures ParenIndex(t) == 2 && CloseLength(t[2..], 0) == 3 && Balanced(t) && Trim(t) == t
  {
    var lit, rest := t[1..], t[2..];
    var inner, quote := t[3..], t[4..];
    assert lit[1..] == rest && rest[1..] == inner && inner[1..] == quote && quote[1..] == "";
    assert ParenIndex(rest) == 0 && ParenIndex(lit) == 1;
    assert CloseLength(quote, 2) == 1 && CloseLength(inner, 1) == 2;
    assert Closes(quote, '"') && SkipBody(quote, '"') == 1;
    assert Closes(inner, '"') && SkipBody(inner, '"') == 2;
    assert Closes(rest, '"') && SkipBody(rest, '"') == 3;
    assert lit[4..] == "" && Depth(lit, 0, true) == Some(0);
  }

  /** Balance alone is not enough: `a"(("` is balanced, and its path is cut inside the literal. */
  lemma QuotedParenOverflows(t: string)
    requires QuotedParens(t)
    ensures Balanced(t) && ParseCommandText(t) == Err(StackOverflow)
  {
    hide ArgsOf, ChainOf, CloseLength, Trim, Root, HasColon, ParenIndex, Balanced;
    QuotedParenScans(t);
    var cut := t[2..][1..2];
    LoneParenCuts(cut);
    LoneParenOverflows(cut);
  }

  lemma {:induction false} ArgsStick(s: string)
    requires QuoteFree(s) && Unmatched(s, 0)
    ensures ArgsOf(s).Err?
  {
    hide FirstArg;
    if s == "" {
      assert false;
    } else if IsSeparator(s[0]) {
      ArgsStick(s[1..]);
    } else if FirstArg(s).Ok? {
      FirstArgStays(s);
      ArgsStick(s[FirstArg(s).value.1..]);
    }
  }

  lemma FirstArgStays(s: string)
    requires s != "" && QuoteFree(s) && Unmatched(s, 0) && FirstArg(s).Ok?
    ensures var k := FirstArg(s).value.1; k <= |s| && Unmatched(s[k..], 0)
  {
    hide TokenValue, Trim, BareLength;
    if s[0] == '{' {
      CloseStays(s[1..], 1);
      assert s[1..][CloseLength(s[1..], 1)..] == s[CloseLength(s, 0)..];
    } else {
      BareStays(s, 0);
    }
  }

  /** An argument text without literals in which a closer finds no bracket open is never parsed. */
  lemma UnmatchedCloserSticks(text: string)
    requires QuoteFree(text) && Unmatched(text, 0)
    ensures ParseArgsText(text).Err?
  {
    hide ArgsOf, TrimLeft, TrimRight, Depth;
    TrimLeftStays(text);
    TrimRightStays(TrimLeft(text));
    ArgsStick(Trim(text));
  }
}
