/** The grammar of the condition DSL; the parser is sound, complete and unambiguous. */
module ConditionGrammar {
  import opened Results
  import opened RustText
  import opened ConditionLexer
  import opened ConditionParser
  import opened ConditionFusion

  // Derivation trees, the tokens a derivation spells, its nesting depth and the syntax tree it denotes:
  //
  //   or_expr  := and_expr ('||' and_expr)*        primary   := predicate | '(' or_expr ')'
  //   and_expr := not_expr ('&&' not_expr)*        predicate := IDENT '(' [NUMBER (',' NUMBER)*] ')'
  //   not_expr := 'NOT' not_expr | primary

  datatype OrD = OrOne(first: AndD) | OrMore(first: AndD, more: OrD)
  datatype AndD = AndOne(first: NotD) | AndMore(first: NotD, more: AndD)
  datatype NotD = Negation(inner: NotD) | Plain(primary: PrimaryD)
  datatype PrimaryD = Call(name: string, args: seq<int>) | Parens(inner: OrD)

  function SpellArguments(args: seq<int>): seq<Token>
    requires args != []
  {
    if |args| == 1 then [Number(args[0])] else [Number(args[0]), Comma] + SpellArguments(args[1..])
  }

  function SpellPrimary(d: PrimaryD): (ts: seq<Token>)
    ensures |ts| > 0 && (ts[0].Ident? || ts[0].LParen?)
  {
    match d
    case Call(name, args) => [Ident(name), LParen] + (if args == [] then [] else SpellArguments(args)) + [RParen]
    case Parens(inner) => [LParen] + SpellOr(inner) + [RParen]
  }

  function SpellNot(d: NotD): (ts: seq<Token>)
    ensures |ts| > 0
  {
    match d
    case Negation(inner) => [Token.Not] + SpellNot(inner)
    case Plain(primary) => SpellPrimary(primary)
  }

  function SpellAnd(d: AndD): (ts: seq<Token>)
    ensures |ts| > 0
  {
    match d
    case AndOne(n) => SpellNot(n)
    case AndMore(n, more) => SpellNot(n) + [Token.And] + SpellAnd(more)
  }

  function SpellOr(d: OrD): (ts: seq<Token>)
    ensures |ts| > 0
  {
    match d
    case OrOne(a) => SpellAnd(a)
    case OrMore(a, more) => SpellAnd(a) + [Token.Or] + SpellOr(more)
  }

  function Max(a: nat, b: nat): nat { if a < b then b else a }

  /** Nesting of NOT and parentheses. */
  function DepthPrimary(d: PrimaryD): nat {
    match d case Call(_, _) => 0 case Parens(inner) => 1 + DepthOr(inner)
  }

  function DepthNot(d: NotD): nat {
    match d case Negation(inner) => 1 + DepthNot(inner) case Plain(p) => DepthPrimary(p)
  }

  function DepthAnd(d: AndD): nat {
    match d case AndOne(n) => DepthNot(n) case AndMore(n, more) => Max(DepthNot(n), DepthAnd(more))
  }

  function DepthOr(d: OrD): nat {
    match d case OrOne(a) => DepthAnd(a) case OrMore(a, more) => Max(DepthAnd(a), DepthOr(more))
  }

  /** The syntax tree a derivation denotes: parentheses vanish, one-term chains collapse. */
  function TreePrimary(d: PrimaryD): Ast
    decreases d
  {
    match d case Call(name, args) => LeafNode(name, args) case Parens(inner) => TreeOr(inner)
  }

  function TreeNot(d: NotD): Ast
    decreases d
  {
    match d case Negation(inner) => NotNode(TreeNot(inner)) case Plain(p) => TreePrimary(p)
  }

  function TreesAnd(d: AndD): (ts: seq<Ast>)
    ensures |ts| > 0 && (|ts| == 1 <==> d.AndOne?)
    decreases d, 0
  {
    match d case AndOne(n) => [TreeNot(n)] case AndMore(n, more) => [TreeNot(n)] + TreesAnd(more)
  }

  function TreeAnd(d: AndD): Ast
    decreases d, 1
  {
    if d.AndOne? then TreeNot(d.first) else AllNode(TreesAnd(d))
  }

  function TreesOr(d: OrD): (ts: seq<Ast>)
    ensures |ts| > 0 && (|ts| == 1 <==> d.OrOne?)
    decreases d, 0
  {
    match d case OrOne(a) => [TreeAnd(a)] case OrMore(a, more) => [TreeAnd(a)] + TreesOr(more)
  }

  function TreeOr(d: OrD): Ast
    decreases d, 1
  {
    if d.OrOne? then TreeAnd(d.first) else AnyNode(TreesOr(d))
  }

  // Soundness: whatever the parser accepts has a derivation within the depth that is left.

  lemma {:induction false} SoundOr(ts: seq<Token>, depth: nat) returns (d: OrD)
    requires depth <= MAX_CONDITION_DEPTH && ParseOr(ts, depth, FreeSink()).Done?
    ensures var p := ParseOr(ts, depth, FreeSink());
            && ts == SpellOr(d) + p.rest && p.value == TreeOr(d)
            && depth + DepthOr(d) <= MAX_CONDITION_DEPTH
    decreases |ts|, 5
  {
    d := SoundOrTerms(ts, depth);
  }

  lemma {:induction false} SoundOrTerms(ts: seq<Token>, depth: nat) returns (d: OrD)
    requires depth <= MAX_CONDITION_DEPTH && ParseOrTerms(ts, depth, FreeSink()).Done?
    ensures var p := ParseOrTerms(ts, depth, FreeSink());
            && ts == SpellOr(d) + p.rest && p.value == TreesOr(d)
            && depth + DepthOr(d) <= MAX_CONDITION_DEPTH
    decreases |ts|, 4
  {
    hide ParseAnd, SpellAnd;
    var a := SoundAnd(ts, depth);
    var rest := ParseAnd(ts, depth, FreeSink()).rest;
    if Peek(rest) == Some(Token.Or) {
      var more := SoundOrTerms(rest[1..], depth);
      d := OrMore(a, more);
      Regroup(SpellAnd(a), Token.Or, SpellOr(more), ParseOrTerms(rest[1..], depth, FreeSink()).rest);
    } else {
      d := OrOne(a);
    }
  }

  lemma {:induction false} SoundAnd(ts: seq<Token>, depth: nat) returns (d: AndD)
    requires depth <= MAX_CONDITION_DEPTH && ParseAnd(ts, depth, FreeSink()).Done?
    ensures var p := ParseAnd(ts, depth, FreeSink());
            && ts == SpellAnd(d) + p.rest && p.value == TreeAnd(d)
            && depth + DepthAnd(d) <= MAX_CONDITION_DEPTH
    decreases |ts|, 3
  {
    d := SoundAndTerms(ts, depth);
  }

  lemma {:induction false} SoundAndTerms(ts: seq<Token>, depth: nat) returns (d: AndD)
    requires depth <= MAX_CONDITION_DEPTH && ParseAndTerms(ts, depth, FreeSink()).Done?
    ensures var p := ParseAndTerms(ts, depth, FreeSink());
            && ts == SpellAnd(d) + p.rest && p.value == TreesAnd(d)
            && depth + DepthAnd(d) <= MAX_CONDITION_DEPTH
    decreases |ts|, 2
  {
    hide ParseNot, SpellNot;
    var n := SoundNot(ts, depth);
    var rest := ParseNot(ts, depth, FreeSink()).rest;
    if Peek(rest) == Some(Token.And) {
      var more := SoundAndTerms(rest[1..], depth);
      d := AndMore(n, more);
      Regroup(SpellNot(n), Token.And, SpellAnd(more), ParseAndTerms(rest[1..], depth, FreeSink()).rest);
    } else {
      d := AndOne(n);
    }
  }

  lemma {:induction false} SoundNot(ts: seq<Token>, depth: nat) returns (d: NotD)
    requires depth <= MAX_CONDITION_DEPTH && ParseNot(ts, depth, FreeSink()).Done?
    ensures var p := ParseNot(ts, depth, FreeSink());
            && ts == SpellNot(d) + p.rest && p.value == TreeNot(d)
            && depth + DepthNot(d) <= MAX_CONDITION_DEPTH
    decreases |ts|, 1
  {
    hide ParsePrimary, SpellPrimary, DepthPrimary, TreePrimary;
    if Peek(ts) == Some(Token.Not) {
      var inner := SoundNot(ts[1..], depth + 1);
      d := Negation(inner);
    } else {
      var p := SoundPrimary(ts, depth);
      d := Plain(p);
    }
  }

  lemma {:induction false} SoundPrimary(ts: seq<Token>, depth: nat) returns (d: PrimaryD)
    requires depth <= MAX_CONDITION_DEPTH && ParsePrimary(ts, depth, FreeSink()).Done?
    ensures var p := ParsePrimary(ts, depth, FreeSink());
            && ts == SpellPrimary(d) + p.rest && p.value == TreePrimary(d)
            && depth + DepthPrimary(d) <= MAX_CONDITION_DEPTH
    decreases |ts|, 0
  {
    if ts[0] == LParen {
      var inner := SoundOr(ts[1..], depth + 1);
      d := Parens(inner);
    } else {
      var inside := ts[2..];
      if Peek(inside) == Some(RParen) {
        d := Call(ts[0].name, []);
        assert ts[1..][1..] == inside;
      } else {
        assert ts[1..][1..] == inside;
        var args := SoundArguments(ts[0].name, inside);
        d := Call(ts[0].name, args);
      }
    }
  }

  lemma {:induction false} SoundArguments(name: string, ts: seq<Token>) returns (args: seq<int>)
    requires ParseArguments(name, ts).Done?
    ensures var p := ParseArguments(name, ts);
            args == p.value && args != [] && ts == SpellArguments(args) + p.rest
    decreases |ts|
  {
    args := [ts[0].value];
    if Peek(ts[1..]) == Some(Comma) {
      assert ts[1..][1..] == ts[2..];
      var more := SoundArguments(name, ts[2..]);
      args := args + more;
      assert args[1..] == more;
    }
  }

  // Completeness: every derivation that fits the depth is what the parser finds.

  predicate NotNext(t: Token, rest: seq<Token>) { Peek(rest) != Some(t) }

  lemma {:induction false} CompleteOr(d: OrD, rest: seq<Token>, depth: nat)
    requires depth + DepthOr(d) <= MAX_CONDITION_DEPTH
    requires NotNext(Token.Or, rest) && NotNext(Token.And, rest)
    ensures ParseOr(SpellOr(d) + rest, depth, FreeSink()) == Done(TreeOr(d), rest)
    ensures ParseOrTerms(SpellOr(d) + rest, depth, FreeSink()) == Done(TreesOr(d), rest)
    decreases d
  {
    match d
    case OrOne(a) =>
      CompleteAnd(a, rest, depth);
      assert ParseOrTerms(SpellOr(d) + rest, depth, FreeSink()) == Done([TreeAnd(a)], rest);
    case OrMore(a, more) =>
      var tail := [Token.Or] + SpellOr(more) + rest;
      CompleteAnd(a, tail, depth);
      CompleteOr(more, rest, depth);
      assert SpellOr(d) + rest == SpellAnd(a) + tail;
      assert tail[1..] == SpellOr(more) + rest;
      assert TreesOr(d) == [TreeAnd(a)] + TreesOr(more);
      assert ParseOrTerms(SpellOr(d) + rest, depth, FreeSink()) == Done(TreesOr(d), rest);
  }

  lemma {:induction false} CompleteAnd(d: AndD, rest: seq<Token>, depth: nat)
    requires depth + DepthAnd(d) <= MAX_CONDITION_DEPTH
    requires NotNext(Token.And, rest)
    ensures ParseAnd(SpellAnd(d) + rest, depth, FreeSink()) == Done(TreeAnd(d), rest)
    ensures ParseAndTerms(SpellAnd(d) + rest, depth, FreeSink()) == Done(TreesAnd(d), rest)
    decreases d
  {
    hide SpellNot, ParseNot, TreeNot, DepthNot;
    match d
    case AndOne(n) =>
      CompleteNot(n, rest, depth);
      assert ParseAndTerms(SpellAnd(d) + rest, depth, FreeSink()) == Done([TreeNot(n)], rest);
    case AndMore(n, more) =>
      var tail := [Token.And] + SpellAnd(more) + rest;
      CompleteNot(n, tail, depth);
      CompleteAnd(more, rest, depth);
      assert SpellAnd(d) + rest == SpellNot(n) + tail;
      assert tail[1..] == SpellAnd(more) + rest;
      assert TreesAnd(d) == [TreeNot(n)] + TreesAnd(more);
      assert ParseAndTerms(SpellAnd(d) + rest, depth, FreeSink()) == Done(TreesAnd(d), rest);
  }

  lemma {:induction false} CompleteNot(d: NotD, rest: seq<Token>, depth: nat)
    requires depth + DepthNot(d) <= MAX_CONDITION_DEPTH
    ensures ParseNot(SpellNot(d) + rest, depth, FreeSink()) == Done(TreeNot(d), rest)
    decreases d
  {
    match d
    case Negation(inner) =>
      CompleteNot(inner, rest, depth + 1);
      assert (SpellNot(d) + rest)[1..] == SpellNot(inner) + rest;
    case Plain(p) => CompletePrimary(p, rest, depth);
  }

  lemma {:induction false} CompletePrimary(d: PrimaryD, rest: seq<Token>, depth: nat)
    requires depth + DepthPrimary(d) <= MAX_CONDITION_DEPTH
    ensures ParsePrimary(SpellPrimary(d) + rest, depth, FreeSink()) == Done(TreePrimary(d), rest)
    decreases d
  {
    match d
    case Parens(inner) =>
      hide ParseOr;
      CompleteOr(inner, [RParen] + rest, depth + 1);
      assert (SpellPrimary(d) + rest)[1..] == SpellOr(inner) + ([RParen] + rest);
      assert ([RParen] + rest)[1..] == rest;
    case Call(name, args) => CompleteCall(name, args, rest, depth);
  }

  lemma CompleteCall(name: string, args: seq<int>, rest: seq<Token>, depth: nat)
    ensures ParsePrimary(SpellPrimary(Call(name, args)) + rest, depth, FreeSink()) == Done(LeafNode(name, args), rest)
  {
    hide ParseOr, ParseArguments;
    var ts := SpellPrimary(Call(name, args)) + rest;
    var close := [RParen] + rest;
    assert close[1..] == rest;
    if args == [] {
      assert ts[1..][1..] == close;
    } else {
      CompleteArguments(name, args, close);
      assert ts[1..][1..] == SpellArguments(args) + close;
    }
  }

  lemma {:induction false} CompleteArguments(name: string, args: seq<int>, rest: seq<Token>)
    requires args != [] && NotNext(Comma, rest)
    ensures ParseArguments(name, SpellArguments(args) + rest) == Done(args, rest)
    decreases |args|
  {
    var ts := SpellArguments(args) + rest;
    if |args| > 1 {
      CompleteArguments(name, args[1..], rest);
      assert ts[1..][1..] == SpellArguments(args[1..]) + rest;
      assert [args[0]] + args[1..] == args;
    } else {
      assert ts[1..] == rest && args == [args[0]];
    }
  }

  // Unambiguity: a token list has at most one derivation.

  function TailOr(d: OrD, r: seq<Token>): seq<Token> {
    if d.OrOne? then r else [Token.Or] + (SpellOr(d.more) + r)
  }

  function TailAnd(d: AndD, r: seq<Token>): seq<Token> {
    if d.AndOne? then r else [Token.And] + (SpellAnd(d.more) + r)
  }

  lemma Regroup(a: seq<Token>, t: Token, b: seq<Token>, r: seq<Token>)
    ensures a + [t] + b + r == a + ([t] + (b + r)) && ([t] + (b + r))[1..] == b + r
  {
  }

  lemma SplitOr(d: OrD, r: seq<Token>)
    ensures SpellOr(d) + r == SpellAnd(d.first) + TailOr(d, r)
    ensures d.OrMore? ==> TailOr(d, r)[1..] == SpellOr(d.more) + r
  {
    hide SpellAnd;
    if d.OrMore? { Regroup(SpellAnd(d.first), Token.Or, SpellOr(d.more), r); }
  }

  lemma SplitAnd(d: AndD, r: seq<Token>)
    ensures SpellAnd(d) + r == SpellNot(d.first) + TailAnd(d, r)
    ensures d.AndMore? ==> TailAnd(d, r)[1..] == SpellAnd(d.more) + r
  {
    hide SpellNot;
    if d.AndMore? { Regroup(SpellNot(d.first), Token.And, SpellAnd(d.more), r); }
  }

  lemma {:induction false} UniqueOr(d: OrD, e: OrD, r: seq<Token>, q: seq<Token>)
    requires SpellOr(d) + r == SpellOr(e) + q
    requires NotNext(Token.Or, r) && NotNext(Token.And, r) && NotNext(Token.Or, q) && NotNext(Token.And, q)
    ensures d == e && r == q
    decreases d
  {
    SplitOr(d, r);
    SplitOr(e, q);
    UniqueAnd(d.first, e.first, TailOr(d, r), TailOr(e, q));
    if d.OrMore? && e.OrMore? { UniqueOr(d.more, e.more, r, q); }
  }

  lemma {:induction false} UniqueAnd(d: AndD, e: AndD, r: seq<Token>, q: seq<Token>)
    requires SpellAnd(d) + r == SpellAnd(e) + q
    requires NotNext(Token.And, r) && NotNext(Token.And, q)
    ensures d == e && r == q
    decreases d
  {
    SplitAnd(d, r);
    SplitAnd(e, q);
    UniqueNot(d.first, e.first, TailAnd(d, r), TailAnd(e, q));
    if d.AndMore? && e.AndMore? { UniqueAnd(d.more, e.more, r, q); }
  }

  lemma {:induction false} UniqueNot(d: NotD, e: NotD, r: seq<Token>, q: seq<Token>)
    requires SpellNot(d) + r == SpellNot(e) + q
    ensures d == e && r == q
    decreases d
  {
    assert (SpellNot(d) + r)[0] == SpellNot(d)[0] && (SpellNot(e) + q)[0] == SpellNot(e)[0];
    if d.Negation? {
      assert (SpellNot(d) + r)[1..] == SpellNot(d.inner) + r;
      assert (SpellNot(e) + q)[1..] == SpellNot(e.inner) + q;
      UniqueNot(d.inner, e.inner, r, q);
    } else {
      UniquePrimary(d.primary, e.primary, r, q);
    }
  }

  lemma {:induction false} UniquePrimary(d: PrimaryD, e: PrimaryD, r: seq<Token>, q: seq<Token>)
    requires SpellPrimary(d) + r == SpellPrimary(e) + q
    ensures d == e && r == q
    decreases d
  {
    var ts := SpellPrimary(d) + r;
    assert ts[0] == SpellPrimary(d)[0] && (SpellPrimary(e) + q)[0] == SpellPrimary(e)[0];
    match d
    case Parens(inner) =>
      assert ts[1..] == SpellOr(inner) + ([RParen] + r);
      assert (SpellPrimary(e) + q)[1..] == SpellOr(e.inner) + ([RParen] + q);
      UniqueOr(inner, e.inner, [RParen] + r, [RParen] + q);
      assert r == ([RParen] + r)[1..] && q == ([RParen] + q)[1..];
    case Call(name, args) =>
      // The argument list is what the parser reads back after the opening parenthesis.
      CompletePrimary(d, r, 0);
      CompletePrimary(e, q, 0);
  }

  /** A token list has at most one derivation. */
  lemma DerivationIsUnique(d: OrD, e: OrD)
    requires SpellOr(d) == SpellOr(e)
    ensures d == e
  {
    assert SpellOr(d) + [] == SpellOr(d) && SpellOr(e) + [] == SpellOr(e);
    UniqueOr(d, e, [], []);
  }

  ghost predicate Derives(d: OrD, ts: seq<Token>) { SpellOr(d) == ts }

  /** Acceptance of a token list, for every sink: exactly the derivable lists within both guards. */
  lemma ParseTokensIff<O, E>(ts: seq<Token>, s: Sink<O, E>, v: O)
    ensures ParseTokens(ts, s) == Ok(v) <==>
            && |ts| <= MAX_CONDITION_TOKENS
            && exists d :: Derives(d, ts) && DepthOr(d) <= MAX_CONDITION_DEPTH && Fold(TreeOr(d), s) == Ok(v)
  {
    ParseIsFold(ts, s);
    if ParseTokens(ts, FreeSink()).Ok? {
      var d := SoundOr(ts, 0);
      assert SpellOr(d) + [] == SpellOr(d);
      assert Derives(d, ts);
      forall e | Derives(e, ts) ensures e == d { DerivationIsUnique(d, e); }
    } else if |ts| <= MAX_CONDITION_TOKENS {
      forall d | Derives(d, ts) ensures DepthOr(d) > MAX_CONDITION_DEPTH {
        assert SpellOr(d) + [] == SpellOr(d);
        if DepthOr(d) <= MAX_CONDITION_DEPTH { CompleteOr(d, [], 0); }
      }
    }
  }

  /** With a derivation at hand, the outcome is the fold of its tree: success and leaf refusals alike. */
  lemma DerivableOutcome<O, E>(d: OrD, s: Sink<O, E>)
    requires |SpellOr(d)| <= MAX_CONDITION_TOKENS && DepthOr(d) <= MAX_CONDITION_DEPTH
    ensures ParseTokens(SpellOr(d), s) == Fold(TreeOr(d), s)
  {
    CompleteOr(d, [], 0);
    assert SpellOr(d) + [] == SpellOr(d);
    ParseIsFold(SpellOr(d), s);
  }

  /** Acceptance of an expression text. */
  lemma ParseTextIff<O, E>(input: string, s: Sink<O, E>, v: O)
    ensures ParseText(input, s) == Ok(v) <==>
            && Lex(Trim(input), 0).Ok?
            && var ts := Lex(Trim(input), 0).value;
               && |ts| <= MAX_CONDITION_TOKENS
               && exists d :: Derives(d, ts) && DepthOr(d) <= MAX_CONDITION_DEPTH && Fold(TreeOr(d), s) == Ok(v)
  {
    if Lex(Trim(input), 0).Ok? {
      var ts := Lex(Trim(input), 0).value;
      ParseTokensIff(ts, s, v);
      if Trim(input) == "" { assert forall d :: |SpellOr(d)| > |ts|; }
    }
  }
}
