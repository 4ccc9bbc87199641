/**
 * Recursive-descent parser of the condition DSL, generic over the target model.
 *
 * `ParseOr` .. `ParsePredicate` are specification functions on the tokens that remain; class `Parser`
 * is the cursor-based parser and is proved to compute them.
 */
module ConditionParser {
  import opened Results
  import opened RustText
  import opened ConditionLexer

  const MAX_CONDITION_DEPTH: nat := 64
  const MAX_CONDITION_TOKENS: nat := 4096

  /** The model-specific half of the parser: leaf mapping, combinators, and how a syntax error is reported. */
  datatype Sink<!O, !E> = Sink(
    any: seq<O> -> O,
    all: seq<O> -> O,
    not: O -> O,
    leaf: (string, seq<int>) -> Result<O, E>,
    refuse: SyntaxError -> E)

  datatype Parsed<+T, +E> = Done(value: T, rest: seq<Token>) | Fail(error: E)

  function Peek(ts: seq<Token>): Option<Token> { if ts == [] then None else Some(ts[0]) }

  function Join<O>(combine: seq<O> -> O, terms: seq<O>): O {
    if |terms| == 1 then terms[0] else combine(terms)
  }

  function ParseOr<O, E>(ts: seq<Token>, depth: nat, s: Sink<O, E>): (r: Parsed<O, E>)
    ensures r.Done? ==> |r.rest| < |ts|
    decreases |ts|, 5
  {
    match ParseOrTerms(ts, depth, s)
    case Done(terms, rest) => Done(Join(s.any, terms), rest)
    case Fail(e) => Fail(e)
  }

  function ParseOrTerms<O, E>(ts: seq<Token>, depth: nat, s: Sink<O, E>): (r: Parsed<seq<O>, E>)
    ensures r.Done? ==> |r.rest| < |ts| && r.value != []
    decreases |ts|, 4
  {
    match ParseAnd(ts, depth, s)
    case Fail(e) => Fail(e)
    case Done(t, rest) => MoreOrTerms([t], rest, depth, s)
  }

  /** What the `||` loop yields once `terms` are collected and `ts` remain. */
  function MoreOrTerms<O, E>(terms: seq<O>, ts: seq<Token>, depth: nat, s: Sink<O, E>): (r: Parsed<seq<O>, E>)
    requires terms != []
    ensures r.Done? ==> |r.rest| <= |ts| && r.value != []
    decreases |ts|, 6
  {
    if Peek(ts) == Some(Or) then
      match ParseOrTerms(ts[1..], depth, s)
      case Fail(e) => Fail(e)
      case Done(more, rest) => Done(terms + more, rest)
    else Done(terms, ts)
  }

  function ParseAnd<O, E>(ts: seq<Token>, depth: nat, s: Sink<O, E>): (r: Parsed<O, E>)
    ensures r.Done? ==> |r.rest| < |ts|
    decreases |ts|, 3
  {
    match ParseAndTerms(ts, depth, s)
    case Done(terms, rest) => Done(Join(s.all, terms), rest)
    case Fail(e) => Fail(e)
  }

  function ParseAndTerms<O, E>(ts: seq<Token>, depth: nat, s: Sink<O, E>): (r: Parsed<seq<O>, E>)
    ensures r.Done? ==> |r.rest| < |ts| && r.value != []
    decreases |ts|, 2
  {
    match ParseNot(ts, depth, s)
    case Fail(e) => Fail(e)
    case Done(t, rest) => MoreAndTerms([t], rest, depth, s)
  }

  /** What the `&&` loop yields once `terms` are collected and `ts` remain. */
  function MoreAndTerms<O, E>(terms: seq<O>, ts: seq<Token>, depth: nat, s: Sink<O, E>): (r: Parsed<seq<O>, E>)
    requires terms != []
    ensures r.Done? ==> |r.rest| <= |ts| && r.value != []
    decreases |ts|, 6
  {
    if Peek(ts) == Some(And) then
      match ParseAndTerms(ts[1..], depth, s)
      case Fail(e) => Fail(e)
      case Done(more, rest) => Done(terms + more, rest)
    else Done(terms, ts)
  }

  function ParseNot<O, E>(ts: seq<Token>, depth: nat, s: Sink<O, E>): (r: Parsed<O, E>)
    ensures r.Done? ==> |r.rest| < |ts|
    decreases |ts|, 1
  {
    if Peek(ts) == Some(Not) then
      if depth + 1 > MAX_CONDITION_DEPTH then Fail(s.refuse(TooDeep)) else
      match ParseNot(ts[1..], depth + 1, s)
      case Done(inner, rest) => Done(s.not(inner), rest)
      case Fail(e) => Fail(e)
    else ParsePrimary(ts, depth, s)
  }

  function ParsePrimary<O, E>(ts: seq<Token>, depth: nat, s: Sink<O, E>): (r: Parsed<O, E>)
    ensures r.Done? ==> |r.rest| < |ts|
    decreases |ts|, 0
  {
    match Peek(ts)
    case Some(LParen) =>
      if depth + 1 > MAX_CONDITION_DEPTH then Fail(s.refuse(TooDeep)) else
      (match ParseOr(ts[1..], depth + 1, s)
       case Done(inner, rest) =>
         if Peek(rest) == Some(RParen) then Done(inner, rest[1..])
         else Fail(s.refuse(ExpectedClose(Peek(rest))))
       case Fail(e) => Fail(e))
    case Some(Ident(name)) => ParsePredicate(name, ts[1..], s)
    case other => Fail(s.refuse(ExpectedExpression(other)))
  }

  function ParsePredicate<O, E>(name: string, ts: seq<Token>, s: Sink<O, E>): (r: Parsed<O, E>)
    ensures r.Done? ==> |r.rest| < |ts|
  {
    if Peek(ts) != Some(LParen) then Fail(s.refuse(ExpectedOpen(name))) else
    match (if Peek(ts[1..]) == Some(RParen) then Done([], ts[1..]) else ParseArguments(name, ts[1..]))
    case Fail(e) => Fail(s.refuse(e))
    case Done(args, rest) =>
      if Peek(rest) != Some(RParen) then Fail(s.refuse(ExpectedPredicateClose(name))) else
      match s.leaf(name, args)
      case Ok(v) => Done(v, rest[1..])
      case Err(e) => Fail(e)
  }

  /** One or more comma-separated numbers. */
  function ParseArguments(name: string, ts: seq<Token>): (r: Parsed<seq<int>, SyntaxError>)
    ensures r.Done? ==> |r.rest| < |ts|
    decreases |ts|
  {
    match Peek(ts)
    case Some(Number(n)) => MoreArguments(name, [n], ts[1..])
    case other => Fail(ExpectedArgument(name, other))
  }

  /** What the argument loop yields once `args` are collected and `ts` remain. */
  function MoreArguments(name: string, args: seq<int>, ts: seq<Token>): (r: Parsed<seq<int>, SyntaxError>)
    ensures r.Done? ==> |r.rest| <= |ts|
    decreases |ts|
  {
    if Peek(ts) == Some(Comma) then
      match ParseArguments(name, ts[1..])
      case Fail(e) => Fail(e)
      case Done(more, rest) => Done(args + more, rest)
    else Done(args, ts)
  }

  function Prepend<T, E>(before: seq<T>, p: Parsed<seq<T>, E>): Parsed<seq<T>, E> {
    match p case Done(more, rest) => Done(before + more, rest) case Fail(e) => Fail(e)
  }

  lemma Reassociate<T, E>(a: seq<T>, b: seq<T>, p: Parsed<seq<T>, E>)
    ensures Prepend(a + b, p) == Prepend(a, Prepend(b, p))
  {
    if p.Done? { assert a + b + p.value == a + (b + p.value); }
  }

  lemma OrTermsExtend<O, E>(terms: seq<O>, t: O, ts: seq<Token>, depth: nat, s: Sink<O, E>)
    requires terms != []
    ensures MoreOrTerms(terms + [t], ts, depth, s) == Prepend(terms, MoreOrTerms([t], ts, depth, s))
  {
    Reassociate(terms, [t], if ts == [] then Done([], []) else ParseOrTerms(ts[1..], depth, s));
  }

  lemma AndTermsExtend<O, E>(terms: seq<O>, t: O, ts: seq<Token>, depth: nat, s: Sink<O, E>)
    requires terms != []
    ensures MoreAndTerms(terms + [t], ts, depth, s) == Prepend(terms, MoreAndTerms([t], ts, depth, s))
  {
    Reassociate(terms, [t], if ts == [] then Done([], []) else ParseAndTerms(ts[1..], depth, s));
  }

  lemma ArgumentsExtend(name: string, args: seq<int>, n: int, ts: seq<Token>)
    ensures MoreArguments(name, args + [n], ts) == Prepend(args, MoreArguments(name, [n], ts))
  {
    Reassociate(args, [n], if ts == [] then Done([], []) else ParseArguments(name, ts[1..]));
  }

  /** Guards and end-of-input check around the expression parser. */
  function ParseTokens<O, E>(ts: seq<Token>, s: Sink<O, E>): Result<O, E> {
    if |ts| > MAX_CONDITION_TOKENS then Err(s.refuse(TooManyTokens)) else
    match ParseOr(ts, 0, s)
    case Fail(e) => Err(e)
    case Done(v, rest) =>
      if rest == [] then Ok(v) else Err(s.refuse(TrailingInput(|ts| - |rest|)))
  }

  /** The result of `parse_with` on an expression. */
  function ParseText<O, E>(input: string, s: Sink<O, E>): Result<O, E> {
    if Trim(input) == "" then Err(s.refuse(EmptyExpression)) else
    match Lex(Trim(input), 0)
    case Err(e) => Err(s.refuse(e))
    case Ok(ts) => ParseTokens(ts, s)
  }

  function ToResult<T, E>(p: Parsed<T, E>): Result<T, E> {
    match p case Done(v, _) => Ok(v) case Fail(e) => Err(e)
  }

  class Parser<!O, !E> {
    const tokens: seq<Token>
    const sink: Sink<O, E>
    var pos: nat
    var depth: nat

    constructor (tokens: seq<Token>, sink: Sink<O, E>)
      ensures this.tokens == tokens && this.sink == sink && pos == 0 && depth == 0
    {
      this.tokens, this.sink := tokens, sink;
      pos, depth := 0, 0;
    }

    ghost predicate Valid()
      reads this
    {
      pos <= |tokens|
    }

    ghost function Remaining(): (ts: seq<Token>)
      requires Valid()
      reads this
      ensures |ts| == |tokens| - pos
    {
      tokens[pos..]
    }

    /** A finished parse left the cursor on `p.rest` with the depth it started from. */
    ghost predicate Reached<T>(p: Parsed<T, E>, depthBefore: nat)
      reads this
    {
      Valid() && (p.Done? ==> Remaining() == p.rest && depth == depthBefore)
    }

    function Current(): (t: Option<Token>)
      requires Valid()
      reads this
      ensures t == Peek(Remaining())
    {
      if pos < |tokens| then Some(tokens[pos]) else None
    }

    method Advance() returns (t: Option<Token>)
      requires Valid()
      modifies this`pos
      ensures Valid()
      ensures t == Peek(old(Remaining()))
      ensures Remaining() == if t.Some? then old(Remaining())[1..] else []
    {
      t := Current();
      if t.Some? { pos := pos + 1; }
    }

    method Enter() returns (r: Result<(), E>)
      requires Valid()
      modifies this`depth
      ensures depth == old(depth) + 1
      ensures r == if depth > MAX_CONDITION_DEPTH then Err(sink.refuse(TooDeep)) else Ok(())
    {
      depth := depth + 1;
      if depth > MAX_CONDITION_DEPTH { return Err(sink.refuse(TooDeep)); }
      r := Ok(());
    }

    method Or() returns (r: Result<O, E>)
      requires Valid()
      modifies this
      ensures Reached(ParseOr(old(Remaining()), old(depth), sink), old(depth))
      ensures r == ToResult(ParseOr(old(Remaining()), old(depth), sink))
      decreases |tokens| - pos, 4
    {
      ghost var spec := ParseOrTerms(Remaining(), depth, sink);
      var first := And();
      if first.Err? { return Err(first.error); }
      var terms := [first.value];
      while Current() == Some(Token.Or)
        invariant old(pos) < pos <= |tokens|
        invariant terms != [] && depth == old(depth)
        invariant spec == MoreOrTerms(terms, Remaining(), depth, sink)
        decreases |tokens| - pos
      {
        var _ := Advance();
        var term := And();
        if term.Err? { return Err(term.error); }
        OrTermsExtend(terms, term.value, Remaining(), depth, sink);
        terms := terms + [term.value];
      }
      r := Ok(if |terms| == 1 then terms[0] else sink.any(terms));
    }

    method And() returns (r: Result<O, E>)
      requires Valid()
      modifies this
      ensures Reached(ParseAnd(old(Remaining()), old(depth), sink), old(depth))
      ensures r == ToResult(ParseAnd(old(Remaining()), old(depth), sink))
      decreases |tokens| - pos, 3
    {
      ghost var spec := ParseAndTerms(Remaining(), depth, sink);
      var first := Not();
      if first.Err? { return Err(first.error); }
      var terms := [first.value];
      while Current() == Some(Token.And)
        invariant old(pos) < pos <= |tokens|
        invariant terms != [] && depth == old(depth)
        invariant spec == MoreAndTerms(terms, Remaining(), depth, sink)
        decreases |tokens| - pos
      {
        var _ := Advance();
        var term := Not();
        if term.Err? { return Err(term.error); }
        AndTermsExtend(terms, term.value, Remaining(), depth, sink);
        terms := terms + [term.value];
      }
      r := Ok(if |terms| == 1 then terms[0] else sink.all(terms));
    }

    method Not() returns (r: Result<O, E>)
      requires Valid()
      modifies this
      ensures Reached(ParseNot(old(Remaining()), old(depth), sink), old(depth))
      ensures r == ToResult(ParseNot(old(Remaining()), old(depth), sink))
      decreases |tokens| - pos, 2
    {
      if Current() == Some(Token.Not) {
        var _ := Advance();
        var entered := Enter();
        if entered.Err? { return Err(entered.error); }
        var inner := Not();
        if inner.Err? { return Err(inner.error); }
        depth := depth - 1;
        return Ok(sink.not(inner.value));
      }
      r := Primary();
    }

    method Primary() returns (r: Result<O, E>)
      requires Valid()
      modifies this
      ensures Reached(ParsePrimary(old(Remaining()), old(depth), sink), old(depth))
      ensures r == ToResult(ParsePrimary(old(Remaining()), old(depth), sink))
      decreases |tokens| - pos, 1
    {
      var t := Advance();
      match t
      case Some(LParen) =>
        var entered := Enter();
        if entered.Err? { return Err(entered.error); }
        var inner := Or();
        if inner.Err? { return Err(inner.error); }
        depth := depth - 1;
        var close := Advance();
        r := if close == Some(RParen) then inner else Err(sink.refuse(ExpectedClose(close)));
      case Some(Ident(name)) => r := Predicate(name);
      case other => r := Err(sink.refuse(ExpectedExpression(other)));
    }

    /** The argument list up to, not including, the closing parenthesis. */
    method Arguments(name: string) returns (r: Result<seq<int>, E>)
      requires Valid()
      modifies this`pos
      ensures Valid()
      ensures match ParseArguments(name, old(Remaining()))
              case Done(args, rest) => r == Ok(args) && Remaining() == rest
              case Fail(e) => r == Err(sink.refuse(e))
    {
      ghost var spec := ParseArguments(name, Remaining());
      var args: seq<int> := [];
      if spec.Done? { assert args + spec.value == spec.value; }
      while true
        invariant Valid()
        invariant spec == Prepend(args, ParseArguments(name, Remaining()))
        decreases |tokens| - pos
      {
        var t := Advance();
        if !(t.Some? && t.value.Number?) { return Err(sink.refuse(ExpectedArgument(name, t))); }
        ArgumentsExtend(name, args, t.value.value, Remaining());
        args := args + [t.value.value];
        if Current() != Some(Comma) { break; }
        if Remaining() != [] { Reassociate(args, [], ParseArguments(name, Remaining()[1..])); }
        var _ := Advance();
      }
      r := Ok(args);
    }

    method Predicate(name: string) returns (r: Result<O, E>)
      requires Valid()
      modifies this`pos
      ensures Reached(ParsePredicate(name, old(Remaining()), sink), old(depth))
      ensures r == ToResult(ParsePredicate(name, old(Remaining()), sink))
    {
      var open := Advance();
      if open != Some(LParen) { return Err(sink.refuse(ExpectedOpen(name))); }
      var args: seq<int> := [];
      if Current() != Some(RParen) {
        var some := Arguments(name);
        if some.Err? { return Err(some.error); }
        args := some.value;
      }
      var close := Advance();
      if close != Some(RParen) { return Err(sink.refuse(ExpectedPredicateClose(name))); }
      r := sink.leaf(name, args);
    }
  }

  method ParseLexed<O, E>(tokens: seq<Token>, sink: Sink<O, E>) returns (r: Result<O, E>)
    ensures r == ParseTokens(tokens, sink)
  {
    hide ParseOr;
    if |tokens| > MAX_CONDITION_TOKENS { return Err(sink.refuse(TooManyTokens)); }
    var parser := new Parser(tokens, sink);
    assert parser.Remaining() == tokens;
    r := parser.Or();
    if r.Ok? && parser.pos != |tokens| { r := Err(sink.refuse(TrailingInput(parser.pos))); }
  }

  method ParseWith<O, E>(input: string, sink: Sink<O, E>) returns (r: Result<O, E>)
    ensures r == ParseText(input, sink)
  {
    hide Lex, ParseTokens, Trim;
    var trimmed := Trim(input);
    if trimmed == "" { return Err(sink.refuse(EmptyExpression)); }
    var lexed := Tokenize(trimmed);
    if lexed.Err? { return Err(sink.refuse(lexed.error)); }
    r := ParseLexed(lexed.value, sink);
  }
}
