/** When words and parentheses overflow the stack of the call parser. */
module ParenTexts {
  import opened Results
  import opened CommandParser
  import opened Brackets
  import opened TameText
  import opened OpenCalls
  import opened CallCuts
  import opened CommandOverflow

  /** No literal, no table, no comma and no chain delimiter. */
  predicate IsSimple(c: char) { !IsQuote(c) && !IsDelimiter(c) && c != '{' && c != '}' && c != ',' }

  predicate Simple(s: string) { forall k :: 0 <= k < |s| ==> IsSimple(s[k]) }

  /** The number of opening parentheses. */
  function Parens(s: string): nat {
    if s == "" then 0 else (if s[0] == '(' then 1 else 0) + Parens(s[1..])
  }

  predicate NoCloser(s: string) { forall k :: 0 <= k < |s| ==> s[k] != ')' }

  /**
   * The text is cut at the parenthesis at `q`: no call is closed up to it, and as many characters that are not blank
   * follow it as there are parentheses before it.
   */
  predicate CutAt(t: string, q: nat) {
    && q < |t| && t[q] == '('
    && (forall j :: ParenIndex(t) < j < q ==> t[j] != ')')
    && Parens(t[..q]) == NonBlanks(t[q + 1..])
  }

  lemma SimpleParts(s: string, j: nat)
    requires Simple(s) && j <= |s|
    ensures Simple(s[j..]) && Simple(s[..j]) && QuoteFree(s)
  {
  }

  lemma {:induction false} ParensConcat(s: string, t: string)
    ensures Parens(s + t) == Parens(s) + Parens(t)
    decreases |s|
  {
    if s == "" {
      assert s + t == t;
    } else {
      assert (s + t)[1..] == s[1..] + t;
      ParensConcat(s[1..], t);
    }
  }

  lemma {:induction false} ParensFrom(t: string)
    requires HasParen(t)
    ensures Parens(t) == 1 + Parens(t[ParenIndex(t) + 1..])
    decreases |t|
  {
    if t[0] != '(' {
      ParensFrom(t[1..]);
      assert t[1..][ParenIndex(t[1..]) + 1..] == t[ParenIndex(t) + 1..];
    }
  }

  /** Before the first parenthesis no closer has a bracket to close. */
  lemma {:induction false} NoCloserBefore(s: string)
    requires Simple(s) && Depth(s, 0, true).Some?
    ensures NoCloser(s[..ParenIndex(s)])
    decreases |s|
  {
    if s != "" && s[0] != '(' {
      SimpleParts(s, 1);
      NoCloserBefore(s[1..]);
      assert s[..ParenIndex(s)] == [s[0]] + s[1..][..ParenIndex(s[1..])];
    }
  }

  function OpenIf(all: bool, n: nat): Option<nat> { if all then Some(n) else None }

  lemma {:induction false} SimpleCall(t: string)
    requires Simple(t)
    ensures OpenInCall(t) ==
            OpenIf(EndsWithParen(t) && HasParen(t) && NoCloser(t[ParenIndex(t) + 1..]), Parens(t))
    decreases |t|, 1
  {
    hide OpenInBody, Simple, Parens, NoCloser;
    if HasParen(t) {
      var b := t[ParenIndex(t) + 1..];
      SimpleParts(t, ParenIndex(t) + 1);
      ParensFrom(t);
      SimpleBody(b);
      if b == "" { LastIsParen(t); }
    }
  }

  lemma {:induction false} SimpleBody(b: string)
    requires Simple(b)
    ensures OpenInBody(b, true) == OpenIf(NoCloser(b) && (b == "" || EndsWithParen(b)), Parens(b) + 1)
    decreases |b|, 3
  {
    hide OpenInArgs, OpenInChain, Shuts, CloseLength, EndsWithParen, Simple, Parens;
    SimpleParts(b, 0);
    if Shuts(b, 1) {
      ShutsCut(b, 1);
      SimpleCloser(b, CloseLength(b, 1) - 1);
      SimpleParts(b, CloseLength(b, 1));
      SimpleChain(b[CloseLength(b, 1)..]);
    } else {
      SimpleArgs(b);
    }
  }

  lemma SimpleCloser(s: string, k: nat)
    requires Simple(s) && k < |s| && IsCloser(s[k])
    ensures s[k] == ')' && !NoCloser(s)
  {
    assert IsSimple(s[k]);
  }

  lemma SimpleChain(after: string)
    requires Simple(after)
    ensures OpenInChain(TrimLeft(after)).None?
  {
    TrimLeftIsSuffix(after);
    SimpleParts(after, |after| - |TrimLeft(after)|);
    var c := TrimLeft(after);
    assert c != "" ==> IsSimple(c[0]);
  }

  lemma {:induction false} SimpleArgs(s: string)
    requires Simple(s)
    ensures OpenInArgs(s) == OpenIf(NoCloser(s) && (s == "" || EndsWithParen(s)), Parens(s))
    decreases |s|, 2
  {
    hide OpenInCall, BareLength, Depth, IsSpace, EndsWithParen, Parens;
    if s == "" {
      NoParens(s);
    } else if IsSeparator(s[0]) {
      SimpleParts(s, 1);
      SimpleArgs(s[1..]);
      BlankThen(s);
    } else {
      assert IsSimple(s[0]);
      SimpleParts(s, 0);
      BareCut(s, 0);
      var k := BareLength(s, 0);
      if k < |s| {
        assert IsSimple(s[k]);
        SimpleCloser(s, k);
        StrayEnds(s[k..]);
      } else {
        assert s[..k] == s;
        SimpleCall(s);
        NoCloserBefore(s);
        if HasParen(s) { NoCloserSplit(s); } else { EndCounts(s); WithoutParen(s); }
      }
    }
  }

  /** A stray closer ends the arguments. */
  lemma StrayEnds(s: string)
    requires s != "" && s[0] == ')'
    ensures BareLength(s, 0) == 0 && OpenInArgs(s).None?
  {
  }

  lemma NoParens(s: string)
    requires |s| == 0
    ensures Parens(s) == 0
  {
  }

  lemma BlankThen(s: string)
    requires s != "" && IsSeparator(s[0])
    ensures EndsWithParen(s) <==> EndsWithParen(s[1..])
    ensures NoCloser(s) <==> NoCloser(s[1..])
    ensures Parens(s) == Parens(s[1..])
    ensures EndsWithParen(s[1..]) ==> Parens(s[1..]) > 0
  {
    assert NoCloser(s[1..]) ==> forall k :: 0 < k < |s| ==> s[k] == s[1..][k - 1];
    EndCounts(s[1..]);
  }

  lemma EndCounts(s: string)
    ensures EndsWithParen(s) ==> HasParen(s) && Parens(s) == Parens(s[..|s| - 1]) + 1
  {
    if EndsWithParen(s) {
      var init := s[..|s| - 1];
      assert s == init + "(";
      ParensConcat(init, s[|s| - 1..]);
      assert s[|s| - 1..][1..] == "" && init + s[|s| - 1..] == s;
    }
  }

  lemma NoCloserSplit(s: string)
    requires HasParen(s) && NoCloser(s[..ParenIndex(s)])
    ensures NoCloser(s) <==> NoCloser(s[ParenIndex(s) + 1..])
  {
    var p := ParenIndex(s);
    var b := s[p + 1..];
    if NoCloser(b) {
      forall k | 0 <= k < |s| ensures s[k] != ')' {
        if k < p { assert s[k] == s[..p][k]; } else if k > p { assert s[k] == b[k - p - 1]; }
      }
    }
  }

  lemma WithoutParen(s: string)
    requires !HasParen(s)
    ensures !EndsWithParen(s)
  {
  }

  lemma CutIsCutAt(t: string, e: nat)
    requires Simple(t)
    ensures CallCut(t, e) <==> e > 0 && CutAt(t, e - 1)
  {
    hide OpenInCall, NonBlanks, Parens, ParenIndex, NoCloser, Simple;
    if 0 < e <= |t| {
      var s := t[..e];
      SimpleParts(t, e);
      SimpleCall(s);
      if EndsWithParen(s) {
        EndCounts(s);
        assert s[..e - 1] == t[..e - 1];
        NoParenPrefix(t, e);
        NoCloserAfter(t, ParenIndex(t) + 1, e);
      }
    } else if e == 0 {
      NoCallCut(t);
    }
  }

  lemma NoCloserAfter(t: string, i: nat, e: nat)
    requires i <= e <= |t| && e > 0 && t[e - 1] != ')'
    ensures NoCloser(t[..e][i..]) <==> forall j :: i <= j < e - 1 ==> t[j] != ')'
  {
    var s := t[..e][i..];
    assert forall j :: i <= j < e ==> t[j] == s[j - i];
    assert forall k :: 0 <= k < |s| ==> s[k] == t[i + k];
  }

  /** A text of words, blanks and parentheses overflows the stack exactly if it is cut at one of its parentheses. */
  lemma ParensOverflowIff(text: string)
    requires Simple(text)
    ensures ParseCommandText(text) == Err(StackOverflow) <==> exists q: nat :: CutAt(text, q)
    ensures ParseCommandText(text).Ok? <==> forall q: nat :: !CutAt(text, q)
  {
    hide CallCut, CutAt, ParseCommandText, Simple;
    SimpleParts(text, 0);
    CallTextOverflowsIff(text);
    if e: nat :| CallCut(text, e) {
      CutIsCutAt(text, e);
    }
    if q: nat :| CutAt(text, q) {
      CutIsCutAt(text, q + 1);
    }
  }
}
