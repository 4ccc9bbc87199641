/**
 * Bracket depth of a text, string literals skipped. One scan of a whole text decides how the two scanners of the
 * call parser behave on it, whatever text follows.
 */
module Brackets {
  import opened Results
  import opened CommandParser

  /** Whether the literal whose opening quote has been read is closed by a quote. */
  predicate Closes(s: string, quote: char) {
    if s == "" then false
    else if s[0] == '\\' then |s| > 1 && Closes(s[2..], quote)
    else s[0] == quote || Closes(s[1..], quote)
  }

  /**
   * Brackets open after `s`, with `d` open before it. There is no depth if a literal is not closed, if a closer
   * finds no bracket open, or at a comma outside all brackets unless `commas` allows it.
   */
  function Depth(s: string, d: nat, commas: bool): Option<nat>
    decreases |s|
  {
    if s == "" then Some(d)
    else if IsQuote(s[0]) then
      if Closes(s[1..], s[0]) then (ClosesLength(s[1..], s[0]); Depth(s[SkipLength(s)..], d, commas)) else None
    else if IsOpener(s[0]) then Depth(s[1..], d + 1, commas)
    else if IsCloser(s[0]) then (if d == 0 then None else Depth(s[1..], d - 1, commas))
    else if s[0] == ',' && d == 0 && !commas then None
    else Depth(s[1..], d, commas)
  }

  /** Every bracket is closed, every closer has its bracket, and every literal is closed. */
  predicate Balanced(s: string) { Depth(s, 0, true) == Some(0) }

  /** The same, and no comma stands outside the brackets and literals. */
  predicate BalancedToken(s: string) { Depth(s, 0, false) == Some(0) }

  lemma {:induction false} ClosesLength(s: string, quote: char)
    requires Closes(s, quote)
    ensures 0 < SkipBody(s, quote) <= |s|
  {
    if s[0] == '\\' {
      ClosesLength(s[2..], quote);
    } else if s[0] != quote {
      ClosesLength(s[1..], quote);
    }
  }

  lemma {:induction false} ClosesThenMore(s: string, t: string, quote: char)
    requires Closes(s, quote)
    ensures Closes(s + t, quote) && SkipBody(s + t, quote) == SkipBody(s, quote)
  {
    if s[0] == '\\' {
      ClosesThenMore(s[2..], t, quote);
      assert (s + t)[2..] == s[2..] + t;
    } else if s[0] != quote {
      ClosesThenMore(s[1..], t, quote);
      assert (s + t)[1..] == s[1..] + t;
    }
  }

  /** A closed literal at the head of a text is skipped alike whatever follows. */
  lemma SkipThenMore(s: string, t: string)
    requires s != "" && Closes(s[1..], s[0])
    ensures 0 < SkipLength(s) <= |s| && SkipLength(s + t) == SkipLength(s)
    ensures Closes((s + t)[1..], (s + t)[0])
    ensures (s + t)[SkipLength(s)..] == s[SkipLength(s)..] + t
  {
    hide Closes, SkipBody;
    ClosesLength(s[1..], s[0]);
    ClosesThenMore(s[1..], t, s[0]);
    assert (s + t)[1..] == s[1..] + t;
  }

  lemma {:induction false} DepthConcat(s: string, t: string, d: nat, commas: bool)
    requires Depth(s, d, commas).Some?
    ensures Depth(s + t, d, commas) == Depth(t, Depth(s, d, commas).value, commas)
    decreases |s|
  {
    hide Closes, SkipLength, IsQuote, IsOpener, IsCloser;
    if s == "" {
      assert s + t == t;
    } else {
      assert (s + t)[1..] == s[1..] + t;
      if IsQuote(s[0]) {
        SkipThenMore(s, t);
        DepthConcat(s[SkipLength(s)..], t, d, commas);
      } else if IsOpener(s[0]) {
        DepthConcat(s[1..], t, d + 1, commas);
      } else if IsCloser(s[0]) {
        DepthConcat(s[1..], t, d - 1, commas);
      } else {
        DepthConcat(s[1..], t, d, commas);
      }
    }
  }

  /** Inside one more bracket the depth is one more, and commas no longer matter. */
  lemma {:induction false} DepthLift(s: string, d: nat, commas: bool, inner: bool)
    requires Depth(s, d, commas).Some?
    ensures Depth(s, d + 1, inner) == Some(Depth(s, d, commas).value + 1)
    decreases |s|
  {
    hide Closes, SkipLength, IsQuote, IsOpener, IsCloser;
    if s == "" {
    } else if IsQuote(s[0]) {
      SkipThenMore(s, "");
      DepthLift(s[SkipLength(s)..], d, commas, inner);
    } else if IsOpener(s[0]) {
      DepthLift(s[1..], d + 1, commas, inner);
    } else if IsCloser(s[0]) {
      DepthLift(s[1..], d - 1, commas, inner);
    } else {
      DepthLift(s[1..], d, commas, inner);
    }
  }

  lemma {:induction false} DepthRelax(s: string, d: nat)
    requires Depth(s, d, false).Some?
    ensures Depth(s, d, true) == Depth(s, d, false)
    decreases |s|
  {
    hide Closes, SkipLength, IsQuote, IsOpener, IsCloser;
    if s == "" {
    } else if IsQuote(s[0]) {
      SkipThenMore(s, "");
      DepthRelax(s[SkipLength(s)..], d);
    } else if IsOpener(s[0]) {
      DepthRelax(s[1..], d + 1);
    } else if IsCloser(s[0]) {
      DepthRelax(s[1..], d - 1);
    } else {
      DepthRelax(s[1..], d);
    }
  }

  lemma CloseLengthEmpty(n: int)
    ensures CloseLength("", n) == 0
  {
  }

  lemma CloseLengthStep(s: string, n: int)
    requires s != ""
    ensures CloseLength(s, n) ==
            if IsQuote(s[0]) then
              if SkipLength(s) >= |s| then |s| else SkipLength(s) + CloseLength(s[SkipLength(s)..], n)
            else if IsOpener(s[0]) then 1 + CloseLength(s[1..], n + 1)
            else if IsCloser(s[0]) then (if n == 1 then 1 else 1 + CloseLength(s[1..], n - 1))
            else 1 + CloseLength(s[1..], n)
  {
  }

  /** The scan for a closing bracket passes over `s` when the bracket it looks for was opened before. */
  lemma {:induction false} ClosePasses(s: string, t: string, d: nat, commas: bool)
    requires Depth(s, d, commas).Some?
    ensures CloseLength(s + t, d + 1) == |s| + CloseLength(t, Depth(s, d, commas).value + 1)
    decreases |s|
  {
    hide Closes, CloseLength, SkipLength, IsQuote, IsOpener, IsCloser;
    if s == "" {
      assert s + t == t;
    } else {
      CloseLengthStep(s + t, d + 1);
      assert (s + t)[1..] == s[1..] + t;
      if IsQuote(s[0]) {
        SkipThenMore(s, t);
        if SkipLength(s) == |s + t| { CloseLengthEmpty(Depth(s, d, commas).value + 1); }
        ClosePasses(s[SkipLength(s)..], t, d, commas);
      } else if IsOpener(s[0]) {
        ClosePasses(s[1..], t, d + 1, commas);
      } else if IsCloser(s[0]) {
        ClosePasses(s[1..], t, d - 1, commas);
      } else {
        ClosePasses(s[1..], t, d, commas);
      }
    }
  }

  /** The scan for the end of a bare token passes over `s`. */
  lemma {:induction false} BarePasses(s: string, t: string, d: nat)
    requires Depth(s, d, false).Some?
    ensures BareLength(s + t, d) == |s| + BareLength(t, Depth(s, d, false).value)
    decreases |s|
  {
    hide Closes, SkipLength, IsQuote, IsOpener, IsCloser;
    if s == "" {
      assert s + t == t;
    } else {
      assert (s + t)[1..] == s[1..] + t;
      if IsQuote(s[0]) {
        SkipThenMore(s, t);
        BarePasses(s[SkipLength(s)..], t, d);
      } else if IsOpener(s[0]) {
        BarePasses(s[1..], t, d + 1);
      } else if IsCloser(s[0]) {
        BarePasses(s[1..], t, d - 1);
      } else {
        BarePasses(s[1..], t, d);
      }
    }
  }

  /** Brackets around a balanced text balance, and the scan from the first ends just after the second. */
  lemma Wrapped(open: char, s: string, close: char, t: string)
    requires IsOpener(open) && IsCloser(close) && Balanced(s)
    ensures BalancedToken([open] + s + [close])
    ensures CloseLength([open] + s + [close] + t, 0) == |s| + 2
  {
    hide Depth, CloseLength;
    var tail := [close] + t;
    assert [open] + s + [close] + t == [open] + (s + tail) && [open] + s + [close] == [open] + (s + [close]);
    ClosePasses(s, tail, 0, true);
    DepthLift(s, 0, true, false);
    DepthConcat(s, [close], 1, false);
    Opened(open, s + tail);
    Opened(open, s + [close]);
    Closed(close, t);
    Closed(close, "");
    assert [close] + "" == [close];
  }

  lemma Opened(open: char, s: string)
    requires IsOpener(open)
    ensures CloseLength([open] + s, 0) == 1 + CloseLength(s, 1)
    ensures Depth([open] + s, 0, false) == Depth(s, 1, false)
  {
    assert ([open] + s)[1..] == s;
  }

  lemma Closed(close: char, t: string)
    requires IsCloser(close)
    ensures CloseLength([close] + t, 1) == 1
    ensures t == "" ==> Depth([close] + t, 1, false) == Some(0)
  {
    assert ([close] + t)[1..] == t;
  }

  predicate IsPlain(c: char) { !IsQuote(c) && !IsOpener(c) && !IsCloser(c) && c != ',' }

  predicate Plain(s: string) { forall k :: 0 <= k < |s| ==> IsPlain(s[k]) }

  lemma {:induction false} PlainDepth(s: string, d: nat, commas: bool)
    requires Plain(s)
    ensures Depth(s, d, commas) == Some(d)
  {
    if s != "" {
      assert IsPlain(s[0]);
      PlainDepth(s[1..], d, commas);
    }
  }
}
