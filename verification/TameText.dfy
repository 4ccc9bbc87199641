/**
 * Texts whose brackets close and whose literals hold no `(`, and where the scanners of the call parser cut them: every
 * piece they hand on is such a text again. Also texts without literals in which a closer finds no bracket open: the
 * scanners never get past that closer.
 */
module TameText {
  import opened Results
  import opened CommandParser
  import opened Brackets

  /** The text starts with a literal that is closed and holds no opening parenthesis. */
  predicate QuietLiteral(s: string)
    requires s != ""
  {
    IsQuote(s[0]) && Closes(s[1..], s[0]) && (ClosesLength(s[1..], s[0]); !HasParen(s[..SkipLength(s)]))
  }

  /** Every literal is closed and holds no opening parenthesis. */
  predicate Quiet(s: string) {
    if s == "" then true
    else if IsQuote(s[0]) then QuietLiteral(s) && (ClosesLength(s[1..], s[0]); Quiet(s[SkipLength(s)..]))
    else Quiet(s[1..])
  }

  /** The brackets of `s` close with `d` open before it, and its literals are quiet. */
  predicate Tame(s: string, d: nat) { Depth(s, d, true) == Some(0) && Quiet(s) }

  /** Brackets open after `s`, with `d` open before it, when closers that find no bracket open are ignored. */
  function Level(s: string, d: nat): nat {
    if s == "" then d
    else if IsQuote(s[0]) then (if SkipLength(s) < |s| then Level(s[SkipLength(s)..], d) else d)
    else if IsOpener(s[0]) then Level(s[1..], d + 1)
    else if IsCloser(s[0]) then Level(s[1..], if d > 0 then d - 1 else 0)
    else Level(s[1..], d)
  }

  /** No bracket of `s` is left open with `d` open before it, and its literals are quiet. Stray closers may occur. */
  predicate Settled(s: string, d: nat) { Level(s, d) == 0 && Quiet(s) }

  lemma {:induction false} TameIsSettled(s: string, d: nat)
    requires Tame(s, d)
    ensures Settled(s, d)
    decreases |s|
  {
    hide Closes, SkipLength, IsQuote, IsOpener, IsCloser, HasParen;
    if s != "" {
      if IsQuote(s[0]) {
        TameLiteral(s, d);
        TameIsSettled(s[SkipLength(s)..], d);
      } else {
        TameIsSettled(s[1..], if IsOpener(s[0]) then d + 1 else if IsCloser(s[0]) then d - 1 else d);
      }
    }
  }

  // Cutting a literal off a text

  lemma {:induction false} ClosesPrefix(s: string, quote: char)
    requires Closes(s, quote) && quote != '\\'
    ensures 0 < SkipBody(s, quote) <= |s| && s[SkipBody(s, quote) - 1] == quote
    ensures Closes(s[..SkipBody(s, quote)], quote)
  {
    var n := SkipBody(s, quote);
    ClosesLength(s, quote);
    if s[0] == '\\' {
      ClosesPrefix(s[2..], quote);
      assert s[..n][2..] == s[2..][..n - 2];
    } else if s[0] != quote {
      ClosesPrefix(s[1..], quote);
      assert s[..n][1..] == s[1..][..n - 1];
    }
  }

  lemma LiteralPrefix(s: string)
    requires s != "" && IsQuote(s[0]) && Closes(s[1..], s[0])
    ensures var k := SkipLength(s); 1 < k <= |s| && IsQuote(s[k - 1]) && Closes(s[..k][1..], s[0])
    ensures SkipLength(s[..SkipLength(s)]) == SkipLength(s)
  {
    hide Closes, SkipBody;
    ClosesPrefix(s[1..], s[0]);
    var k := SkipLength(s);
    assert s[..k][1..] == s[1..][..k - 1];
    SkipThenMore(s[..k], s[k..]);
    assert s[..k] + s[k..] == s;
  }

  lemma LiteralDepth(s: string, d: nat)
    requires s != "" && QuietLiteral(s)
    ensures 1 < SkipLength(s) <= |s|
    ensures Depth(s[..SkipLength(s)], d, true) == Some(d) && Quiet(s[..SkipLength(s)])
  {
    hide Closes, SkipLength, ParenIndex;
    LiteralPrefix(s);
    var lit := s[..SkipLength(s)];
    assert lit[SkipLength(lit)..] == "" && lit[..SkipLength(lit)] == lit;
  }

  lemma {:induction false} QuietConcat(s: string, t: string)
    requires Quiet(s) && Quiet(t)
    ensures Quiet(s + t)
    decreases |s|
  {
    hide Closes, SkipLength, IsQuote, ParenIndex;
    if s == "" {
      assert s + t == t;
    } else if IsQuote(s[0]) {
      SkipThenMore(s, t);
      var k := SkipLength(s);
      assert (s + t)[..k] == s[..k];
      QuietConcat(s[k..], t);
    } else {
      assert (s + t)[1..] == s[1..] + t;
      QuietConcat(s[1..], t);
    }
  }

  // Where the scanners cut a tame text

  function Next(c: char, d: nat): nat {
    if IsOpener(c) then d + 1 else if IsCloser(c) && d > 0 then d - 1 else d
  }

  lemma TameTail(s: string, d: nat)
    requires s != "" && !IsQuote(s[0]) && Tame(s, d)
    ensures Tame(s[1..], Next(s[0], d))
  {
  }

  lemma TameLiteral(s: string, d: nat)
    requires s != "" && IsQuote(s[0]) && Tame(s, d)
    ensures QuietLiteral(s) && SkipLength(s) <= |s| && Tame(s[SkipLength(s)..], d)
  {
    ClosesLength(s[1..], s[0]);
  }

  lemma NotEmpty(s: string, d: nat)
    requires d > 0 && Tame(s, d)
    ensures s != ""
  {
  }

  /** The scan for a closing bracket cuts a balanced text off, and what follows is tame outside the bracket. */
  lemma {:induction false} CloseSplits(s: string, n: nat, m: nat)
    requires n >= 1 && Tame(s, m + n)
    ensures var k := CloseLength(s, n);
            && 0 < k <= |s|
            && Tame(s[..k - 1], n - 1)
            && Tame(s[k..], m)
    decreases |s|
  {
    hide Tame, Depth, Quiet, CloseLength, SkipLength, IsQuote, IsOpener, IsCloser, QuietLiteral;
    NotEmpty(s, m + n);
    CloseLengthStep(s, n);
    var k := CloseLength(s, n);
    if IsQuote(s[0]) {
      TameLiteral(s, m + n);
      LiteralDepth(s, n - 1);
      var j := SkipLength(s);
      NotEmpty(s[j..], m + n);
      CloseSplits(s[j..], n, m);
      Joined(s, j, k - 1, n - 1, n - 1);
      assert s[k..] == s[j..][k - j..];
    } else {
      TameTail(s, m + n);
      if !IsOpener(s[0]) && IsCloser(s[0]) && n == 1 {
        assert s[..0] == "";
        EmptyIsTame();
      } else {
        CloseSplits(s[1..], Next(s[0], n), m);
        assert s[..k - 1] == [s[0]] + s[1..][..k - 2] && s[k..] == s[1..][k - 1..];
        TameMore(s[0], s[1..][..k - 2], n - 1);
      }
    }
  }

  lemma EmptyIsTame()
    ensures Tame("", 0)
  {
  }

  lemma TameMore(c: char, s: string, d: nat)
    requires !IsQuote(c) && Tame(s, Next(c, d))
    requires !IsOpener(c) && IsCloser(c) ==> d > 0
    ensures Tame([c] + s, d)
  {
    assert ([c] + s)[1..] == s;
  }

  lemma OneMore(c: char, s: string, d: nat)
    requires !IsQuote(c)
    ensures Quiet([c] + s) == Quiet(s)
    ensures IsOpener(c) ==> Depth([c] + s, d, true) == Depth(s, d + 1, true)
    ensures !IsOpener(c) && IsCloser(c) && d > 0 ==> Depth([c] + s, d, true) == Depth(s, d - 1, true)
    ensures !IsOpener(c) && !IsCloser(c) ==> Depth([c] + s, d, true) == Depth(s, d, true)
  {
    assert ([c] + s)[1..] == s;
  }

  lemma Joined(s: string, j: nat, k: nat, d: nat, e: nat)
    requires j <= k <= |s|
    requires Depth(s[..j], d, true) == Some(e) && Quiet(s[..j]) && Tame(s[j..][..k - j], e)
    ensures Tame(s[..k], d)
  {
    hide Depth, Quiet;
    assert s[..k] == s[..j] + s[j..][..k - j];
    DepthConcat(s[..j], s[j..][..k - j], d, true);
    QuietConcat(s[..j], s[j..][..k - j]);
  }

  /** A bare token ends where no bracket is open. */
  lemma {:induction false} BareSplits(s: string, d: nat)
    requires Tame(s, d)
    ensures var k := BareLength(s, d);
            && k <= |s|
            && Tame(s[..k], d)
            && Tame(s[k..], 0)
    decreases |s|
  {
    hide Closes, SkipLength, IsQuote, IsOpener, IsCloser, HasParen;
    var k := BareLength(s, d);
    if s == "" {
    } else if IsQuote(s[0]) {
      LiteralDepth(s, d);
      var j := SkipLength(s);
      BareSplits(s[j..], d);
      Joined(s, j, k, d, d);
    } else if s[0] == ',' && d == 0 && !IsOpener(s[0]) && !IsCloser(s[0]) {
      assert s[..0] == "";
    } else {
      var next := if IsOpener(s[0]) then d + 1 else if IsCloser(s[0]) then d - 1 else d;
      BareSplits(s[1..], next);
      assert s[..k] == [s[0]] + s[1..][..k - 1];
      OneMore(s[0], s[1..][..k - 1], d);
    }
  }

  lemma SettledLiteral(s: string, d: nat)
    requires s != "" && IsQuote(s[0]) && Settled(s, d)
    ensures QuietLiteral(s) && 0 < SkipLength(s) <= |s| && Settled(s[SkipLength(s)..], d)
  {
    ClosesLength(s[1..], s[0]);
  }

  lemma SettledTail(s: string, d: nat)
    requires s != "" && !IsQuote(s[0]) && Settled(s, d)
    ensures Settled(s[1..], Next(s[0], d))
  {
  }

  lemma SettledNotEmpty(s: string, d: nat)
    requires d > 0 && Settled(s, d)
    ensures s != ""
  {
  }

  /** The scan for a closing bracket cuts a balanced text off a settled one. */
  lemma {:induction false} CloseSettles(s: string, n: nat, m: nat)
    requires n >= 1 && Settled(s, m + n)
    ensures var k := CloseLength(s, n);
            && 0 < k <= |s|
            && Tame(s[..k - 1], n - 1)
            && Settled(s[k..], m)
    decreases |s|
  {
    hide Tame, Settled, Depth, Quiet, Level, CloseLength, SkipLength, IsQuote, IsOpener, IsCloser, QuietLiteral;
    SettledNotEmpty(s, m + n);
    CloseLengthStep(s, n);
    var k := CloseLength(s, n);
    if IsQuote(s[0]) {
      SettledLiteral(s, m + n);
      LiteralDepth(s, n - 1);
      var j := SkipLength(s);
      SettledNotEmpty(s[j..], m + n);
      CloseSettles(s[j..], n, m);
      Joined(s, j, k - 1, n - 1, n - 1);
      assert s[k..] == s[j..][k - j..];
    } else {
      SettledTail(s, m + n);
      if !IsOpener(s[0]) && IsCloser(s[0]) && n == 1 {
        assert s[..0] == "";
        EmptyIsTame();
      } else {
        CloseSettles(s[1..], Next(s[0], n), m);
        assert s[..k - 1] == [s[0]] + s[1..][..k - 2] && s[k..] == s[1..][k - 1..];
        TameMore(s[0], s[1..][..k - 2], n - 1);
      }
    }
  }

  /** The first `(` of a quiet text stands outside its literals. */
  lemma {:induction false} ParenSettles(s: string, d: nat) returns (e: nat)
    requires Settled(s, d)
    ensures Settled(s[ParenIndex(s)..], e)
    decreases |s|
  {
    hide Settled, QuietLiteral, SkipLength, IsOpener, IsCloser;
    if s == "" || s[0] == '(' {
      e := d;
    } else if IsQuote(s[0]) {
      SettledLiteral(s, d);
      var j := SkipLength(s);
      e := ParenSettles(s[j..], d);
      QuietHasNoParen(s);
      ParenIndexBeyond(s, j);
      assert s[j..][ParenIndex(s[j..])..] == s[ParenIndex(s)..];
    } else {
      SettledTail(s, d);
      e := ParenSettles(s[1..], Next(s[0], d));
      assert s[1..][ParenIndex(s[1..])..] == s[ParenIndex(s)..];
    }
  }

  lemma QuietHasNoParen(s: string)
    requires s != "" && QuietLiteral(s)
    ensures 0 < SkipLength(s) <= |s| && !HasParen(s[..SkipLength(s)])
  {
    ClosesLength(s[1..], s[0]);
  }

  lemma {:induction false} ParenIndexBeyond(s: string, j: nat)
    requires j <= |s| && !HasParen(s[..j])
    ensures ParenIndex(s) == j + ParenIndex(s[j..])
  {
    if j > 0 {
      assert s[..j][1..] == s[1..][..j - 1] && s[1..][j - 1..] == s[j..];
      ParenIndexBeyond(s[1..], j - 1);
    }
  }

  lemma {:induction false} TameTrimLeft(s: string, d: nat)
    requires Tame(s, d)
    ensures Tame(TrimLeft(s), d)
  {
    if s != "" && IsSpace(s[0]) {
      TameTrimLeft(s[1..], d);
    }
  }

  /** A space at the end of a tame text is no part of a literal. */
  lemma {:induction false} TameInit(s: string, d: nat)
    requires s != "" && IsSpace(s[|s| - 1]) && Tame(s, d)
    ensures Tame(s[..|s| - 1], d)
    decreases |s|
  {
    hide Closes, SkipLength, IsOpener, IsCloser, HasParen;
    if IsQuote(s[0]) {
      LiteralPrefix(s);
      LiteralDepth(s, d);
      var j := SkipLength(s);
      QuoteIsNoSpace(s[j - 1]);
      TameInit(s[j..], d);
      assert s[..|s| - 1][j..] == s[j..][..|s| - j - 1];
      Joined(s, j, |s| - 1, d, d);
    } else if |s| > 1 {
      TameInit(s[1..], if IsOpener(s[0]) then d + 1 else if IsCloser(s[0]) then d - 1 else d);
      assert s[..|s| - 1] == [s[0]] + s[1..][..|s| - 2];
      OneMore(s[0], s[1..][..|s| - 2], d);
    } else {
      SpaceIsPlain(s[0]);
    }
  }

  lemma QuoteIsNoSpace(c: char)
    requires IsQuote(c)
    ensures !IsSpace(c)
  {
  }

  lemma SpaceIsPlain(c: char)
    requires IsSpace(c)
    ensures IsPlain(c)
  {
  }

  lemma {:induction false} TameTrimRight(s: string, d: nat)
    requires Tame(s, d)
    ensures Tame(TrimRight(s), d)
  {
    hide Tame, IsSpace;
    if s != "" && IsSpace(s[|s| - 1]) {
      TameInit(s, d);
      TameTrimRight(s[..|s| - 1], d);
    }
  }

  lemma TameTrim(s: string, d: nat)
    requires Tame(s, d)
    ensures Tame(Trim(s), d)
  {
    hide Tame;
    TameTrimLeft(s, d);
    TameTrimRight(TrimLeft(s), d);
  }

  lemma {:induction false} SettledTrimLeft(s: string, d: nat)
    requires Settled(s, d)
    ensures Settled(TrimLeft(s), d)
  {
    if s != "" && IsSpace(s[0]) {
      SettledTrimLeft(s[1..], d);
    }
  }

  lemma SettledMore(c: char, s: string, d: nat)
    requires !IsQuote(c)
    ensures Settled([c] + s, d) == Settled(s, Next(c, d))
  {
    assert ([c] + s)[1..] == s;
  }

  lemma SettledAfterLiteral(s: string, j: nat, d: nat)
    requires s != "" && QuietLiteral(s) && SkipLength(s) <= j <= |s|
    ensures Settled(s[SkipLength(s)..][..j - SkipLength(s)], d) ==> Settled(s[..j], d)
  {
    hide Closes, Level;
    var k := SkipLength(s);
    var lit, rest := s[..k], s[k..][..j - k];
    LiteralDepth(s, d);
    assert s[..j] == lit + rest;
    LiteralPrefix(s);
    SkipThenMore(lit, rest);
    assert lit[k..] == "" && lit[k..] + rest == rest;
    if Settled(rest, d) {
      QuietConcat(lit, rest);
      LevelAfterLiteral(s[..j], d);
    }
  }

  lemma LevelAfterLiteral(s: string, d: nat)
    requires s != "" && IsQuote(s[0]) && SkipLength(s) <= |s|
    ensures Level(s, d) == Level(s[SkipLength(s)..], d)
  {
    hide SkipLength;
  }

  /** A space at the end of a settled text is no part of a literal. */
  lemma {:induction false} SettledInit(s: string, d: nat)
    requires s != "" && IsSpace(s[|s| - 1]) && Settled(s, d)
    ensures Settled(s[..|s| - 1], d)
    decreases |s|
  {
    hide Settled, QuietLiteral, SkipLength, IsOpener, IsCloser, HasParen, Next;
    if IsQuote(s[0]) {
      SettledLiteral(s, d);
      QuietHasNoParen(s);
      LiteralEnd(s);
      var j := SkipLength(s);
      QuoteIsNoSpace(s[j - 1]);
      SettledInit(s[j..], d);
      assert s[j..][..|s| - j - 1] == s[j..][..|s[j..]| - 1];
      SettledAfterLiteral(s, |s| - 1, d);
    } else if |s| > 1 {
      SettledTail(s, d);
      SettledInit(s[1..], Next(s[0], d));
      assert s[..|s| - 1] == [s[0]] + s[1..][..|s| - 2];
      SettledMore(s[0], s[1..][..|s| - 2], d);
    } else {
      SpaceLevel(s, d);
    }
  }

  lemma LiteralEnd(s: string)
    requires s != "" && QuietLiteral(s)
    ensures 1 < SkipLength(s) <= |s| && IsQuote(s[SkipLength(s) - 1])
  {
    hide Closes;
    LiteralPrefix(s);
  }

  lemma SpaceLevel(s: string, d: nat)
    requires |s| == 1 && IsSpace(s[0]) && Settled(s, d)
    ensures Settled(s[..0], d)
  {
    SpaceIsPlain(s[0]);
    assert s[1..] == "" && s[..0] == "";
  }

  lemma {:induction false} SettledTrimRight(s: string, d: nat)
    requires Settled(s, d)
    ensures Settled(TrimRight(s), d)
  {
    hide Settled, IsSpace;
    if s != "" && IsSpace(s[|s| - 1]) {
      SettledInit(s, d);
      SettledTrimRight(s[..|s| - 1], d);
    }
  }

  lemma SettledTrim(s: string, d: nat)
    requires Settled(s, d)
    ensures Settled(Trim(s), d)
  {
    hide Settled;
    SettledTrimLeft(s, d);
    SettledTrimRight(TrimLeft(s), d);
  }

  /** A settled text that starts with a bracket: what it holds is balanced, and what follows it is settled. */
  lemma BracketSettled(s: string, d: nat)
    requires s != "" && IsOpener(s[0]) && Settled(s, d)
    ensures var k := CloseLength(s, 0);
            && 1 < k <= |s|
            && Tame(s[1..k - 1], 0)
            && Settled(s[k..], d)
  {
    hide Tame, Settled, Depth, Quiet, CloseLength;
    SettledTail(s, d);
    CloseLengthStep(s, 0);
    CloseSettles(s[1..], 1, d);
    var k := CloseLength(s[1..], 1);
    assert s[1..][..k - 1] == s[1..k] && s[1..][k..] == s[k + 1..];
  }

  /** A tame text that starts with a bracket: what the bracket holds is tame, and so is what follows it. */
  lemma BracketSkipped(s: string, d: nat)
    requires s != "" && IsOpener(s[0]) && Tame(s, d)
    ensures var k := CloseLength(s, 0);
            && 1 < k <= |s|
            && Tame(s[1..k - 1], 0)
            && Tame(s[k..], d)
  {
    hide Tame, Depth, Quiet, CloseLength;
    TameTail(s, d);
    CloseLengthStep(s, 0);
    CloseSplits(s[1..], 1, d);
    var k := CloseLength(s[1..], 1);
    assert s[1..][..k - 1] == s[1..k] && s[1..][k..] == s[k + 1..];
  }

  // Texts without literals

  predicate QuoteFree(s: string) { forall k :: 0 <= k < |s| ==> !IsQuote(s[k]) }

  /** A closer of `s` finds no bracket open. */
  predicate Unmatched(s: string, d: nat) { Depth(s, d, true) == None }

  lemma {:induction false} CloseStays(s: string, n: nat)
    requires n >= 1 && QuoteFree(s) && Unmatched(s, n)
    ensures CloseLength(s, n) <= |s| && Unmatched(s[CloseLength(s, n)..], 0)
  {
    hide IsQuote, IsOpener, IsCloser;
    if s == "" {
      assert false;
    } else if IsOpener(s[0]) {
      CloseStays(s[1..], n + 1);
    } else if !IsCloser(s[0]) {
      CloseStays(s[1..], n);
    } else if n > 1 {
      CloseStays(s[1..], n - 1);
    }
  }

  lemma {:induction false} BareStays(s: string, d: nat)
    requires QuoteFree(s) && Unmatched(s, d)
    ensures BareLength(s, d) <= |s| && Unmatched(s[BareLength(s, d)..], 0)
  {
    hide IsQuote, IsOpener, IsCloser;
    if s == "" {
      assert false;
    } else if IsOpener(s[0]) {
      BareStays(s[1..], d + 1);
    } else if IsCloser(s[0]) {
      if d > 0 { BareStays(s[1..], d - 1); }
    } else if s[0] != ',' || d > 0 {
      BareStays(s[1..], d);
    }
  }

  lemma {:induction false} TrimRightStays(s: string)
    requires QuoteFree(s) && Unmatched(s, 0)
    ensures QuoteFree(TrimRight(s)) && Unmatched(TrimRight(s), 0)
  {
    hide Depth, IsSpace, IsQuote;
    if s != "" && IsSpace(s[|s| - 1]) {
      var init, space := s[..|s| - 1], s[|s| - 1..];
      assert s == init + space && space == [s[|s| - 1]];
      if !Unmatched(init, 0) {
        SpaceIsPlain(space[0]);
        DepthConcat(init, space, 0, true);
        PlainDepth(space, Depth(init, 0, true).value, true);
        assert false;
      }
      TrimRightStays(init);
    }
  }

  lemma {:induction false} TrimLeftStays(s: string)
    requires QuoteFree(s) && Unmatched(s, 0)
    ensures QuoteFree(TrimLeft(s)) && Unmatched(TrimLeft(s), 0)
  {
    if s != "" && IsSpace(s[0]) {
      TrimLeftStays(s[1..]);
    }
  }

  lemma {:induction false} QuoteFreeIsQuiet(s: string)
    requires QuoteFree(s)
    ensures Quiet(s)
  {
    if s != "" {
      QuoteFreeIsQuiet(s[1..]);
    }
  }
}
