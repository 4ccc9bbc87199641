/** Parsing into any sink is parsing into the free sink and folding over its tree. */
module ConditionFusion {
  import opened Results
  import opened RustText
  import opened ConditionLexer
  import opened ConditionParser

  datatype Ast =
    | LeafNode(name: string, args: seq<int>)
    | NotNode(inner: Ast)
    | AllNode(terms: seq<Ast>)
    | AnyNode(terms: seq<Ast>)

  /** The sink that only records what it is given. */
  function FreeSink(): Sink<Ast, SyntaxError> {
    Sink(FreeAny, FreeAll, FreeNot, FreeLeaf, FreeRefuse)
  }

  function FreeAny(terms: seq<Ast>): Ast { AnyNode(terms) }

  function FreeAll(terms: seq<Ast>): Ast { AllNode(terms) }

  function FreeNot(inner: Ast): Ast { NotNode(inner) }

  function FreeLeaf(name: string, args: seq<int>): Result<Ast, SyntaxError> { Ok(LeafNode(name, args)) }

  function FreeRefuse(e: SyntaxError): SyntaxError { e }

  /** Bottom-up evaluation of a tree in a sink; the leftmost refused leaf decides the error. */
  function Fold<O, E>(t: Ast, s: Sink<O, E>): Result<O, E>
    decreases t
  {
    match t
    case LeafNode(name, args) => s.leaf(name, args)
    case NotNode(inner) =>
      (match Fold(inner, s) case Ok(v) => Ok(s.not(v)) case Err(e) => Err(e))
    case AllNode(terms) =>
      (match FoldTerms(terms, s) case Ok(vs) => Ok(s.all(vs)) case Err(e) => Err(e))
    case AnyNode(terms) =>
      (match FoldTerms(terms, s) case Ok(vs) => Ok(s.any(vs)) case Err(e) => Err(e))
  }

  function FoldTerms<O, E>(terms: seq<Ast>, s: Sink<O, E>): (r: Result<seq<O>, E>)
    ensures r.Ok? ==> |r.value| == |terms|
    decreases terms
  {
    if terms == [] then Ok([]) else
    match Fold(terms[0], s)
    case Err(e) => Err(e)
    case Ok(v) =>
      match FoldTerms(terms[1..], s) case Ok(vs) => Ok([v] + vs) case Err(e) => Err(e)
  }

  lemma {:induction false} FoldTermsConcat<O, E>(a: seq<Ast>, b: seq<Ast>, s: Sink<O, E>)
    ensures FoldTerms(a + b, s) ==
            match FoldTerms(a, s)
            case Err(e) => Err(e)
            case Ok(vs) => (match FoldTerms(b, s) case Ok(ws) => Ok(vs + ws) case Err(e) => Err(e))
    decreases a
  {
    if a == [] {
      assert a + b == b;
      if FoldTerms(b, s).Ok? { assert [] + FoldTerms(b, s).value == FoldTerms(b, s).value; }
    } else {
      FoldTermsConcat(a[1..], b, s);
      assert (a + b)[1..] == a[1..] + b;
      if Fold(a[0], s).Ok? && FoldTerms(a[1..], s).Ok? && FoldTerms(b, s).Ok? {
        assert ([Fold(a[0], s).value] + FoldTerms(a[1..], s).value) + FoldTerms(b, s).value
            == [Fold(a[0], s).value] + (FoldTerms(a[1..], s).value + FoldTerms(b, s).value);
      }
    }
  }

  // The predicate calls a parse reads

  datatype Leaf = Leaf(name: string, args: seq<int>)

  /** The complete predicate calls read from `ts`, in text order, up to the end of the parse or to its failure. */
  function CallsOr(ts: seq<Token>, depth: nat): seq<Leaf>
    decreases |ts|, 3
  {
    var calls := CallsAnd(ts, depth);
    var first := ParseAnd(ts, depth, FreeSink());
    if first.Done? && Peek(first.rest) == Some(Token.Or) then calls + CallsOr(first.rest[1..], depth) else calls
  }

  function CallsAnd(ts: seq<Token>, depth: nat): seq<Leaf>
    decreases |ts|, 2
  {
    var calls := CallsNot(ts, depth);
    var first := ParseNot(ts, depth, FreeSink());
    if first.Done? && Peek(first.rest) == Some(Token.And) then calls + CallsAnd(first.rest[1..], depth) else calls
  }

  function CallsNot(ts: seq<Token>, depth: nat): seq<Leaf>
    decreases |ts|, 1
  {
    if Peek(ts) != Some(Token.Not) then CallsPrimary(ts, depth)
    else if depth + 1 > MAX_CONDITION_DEPTH then []
    else CallsNot(ts[1..], depth + 1)
  }

  function CallsPrimary(ts: seq<Token>, depth: nat): seq<Leaf>
    decreases |ts|, 0
  {
    match Peek(ts)
    case Some(LParen) => if depth + 1 > MAX_CONDITION_DEPTH then [] else CallsOr(ts[1..], depth + 1)
    case Some(Ident(name)) =>
      var call := ParsePredicate(name, ts[1..], FreeSink());
      if call.Done? && call.value.LeafNode? then [Leaf(call.value.name, call.value.args)] else []
    case _ => []
  }

  function CallsInTokens(ts: seq<Token>): seq<Leaf> {
    if |ts| > MAX_CONDITION_TOKENS then [] else CallsOr(ts, 0)
  }

  function CallsInText(input: string): seq<Leaf> {
    var ts := Lex(Trim(input), 0);
    if Trim(input) == "" || ts.Err? then [] else CallsInTokens(ts.value)
  }

  /** The error of the first call that the sink refuses. */
  function FirstRefused<O, E>(calls: seq<Leaf>, s: Sink<O, E>): Option<E> {
    if calls == [] then None else
    match s.leaf(calls[0].name, calls[0].args)
    case Err(e) => Some(e)
    case Ok(_) => FirstRefused(calls[1..], s)
  }

  lemma {:induction false} FirstRefusedConcat<O, E>(a: seq<Leaf>, b: seq<Leaf>, s: Sink<O, E>)
    ensures FirstRefused(a + b, s) == if FirstRefused(a, s).Some? then FirstRefused(a, s) else FirstRefused(b, s)
  {
    if a == [] {
      assert a + b == b;
    } else {
      assert (a + b)[1..] == a[1..] + b;
      FirstRefusedConcat(a[1..], b, s);
    }
  }

  function Refusal<T, E>(r: Result<T, E>): Option<E> { if r.Err? then Some(r.error) else None }

  function OrElse<E>(refused: Option<E>, otherwise: E): E { if refused.Some? then refused.value else otherwise }

  /**
   * How a parse into `s` relates to the parse of the same tokens into the free sink: its value is the fold of the
   * tree, and its error is that of the first refused call among those read, or else the syntax error.
   */
  ghost predicate Fused<O, E>(free: Parsed<Ast, SyntaxError>, p: Parsed<O, E>, calls: seq<Leaf>, s: Sink<O, E>) {
    match free
    case Done(t, rest) => p == (match Fold(t, s) case Ok(v) => Done(v, rest) case Err(e) => Fail(e))
                          && FirstRefused(calls, s) == Refusal(Fold(t, s))
    case Fail(e) => p == Fail(OrElse(FirstRefused(calls, s), s.refuse(e)))
  }

  ghost predicate FusedTerms<O, E>(free: Parsed<seq<Ast>, SyntaxError>, p: Parsed<seq<O>, E>, calls: seq<Leaf>,
                                   s: Sink<O, E>)
  {
    match free
    case Done(ts, rest) => p == (match FoldTerms(ts, s) case Ok(vs) => Done(vs, rest) case Err(e) => Fail(e))
                           && FirstRefused(calls, s) == Refusal(FoldTerms(ts, s))
    case Fail(e) => p == Fail(OrElse(FirstRefused(calls, s), s.refuse(e)))
  }

  ghost predicate FusedResult<O, E>(free: Result<Ast, SyntaxError>, r: Result<O, E>, calls: seq<Leaf>,
                                    s: Sink<O, E>)
  {
    match free
    case Ok(t) => r == Fold(t, s) && FirstRefused(calls, s) == Refusal(r)
    case Err(e) => r == Err(OrElse(FirstRefused(calls, s), s.refuse(e)))
  }

  lemma {:induction false} FuseOr<O, E>(ts: seq<Token>, depth: nat, s: Sink<O, E>)
    ensures Fused(ParseOr(ts, depth, FreeSink()), ParseOr(ts, depth, s), CallsOr(ts, depth), s)
    decreases |ts|, 5
  {
    FuseOrTerms(ts, depth, s);
    var free := ParseOrTerms(ts, depth, FreeSink());
    if free.Done? && |free.value| == 1 { FoldSingle(free.value, s); }
  }

  lemma FoldSingle<O, E>(ts: seq<Ast>, s: Sink<O, E>)
    requires |ts| == 1
    ensures FoldTerms(ts, s) == match Fold(ts[0], s) case Ok(v) => Ok([v]) case Err(e) => Err(e)
  {
    assert ts == [ts[0]] && ts[1..] == [];
    var none: seq<O> := [];
    if Fold(ts[0], s).Ok? { assert [Fold(ts[0], s).value] + none == [Fold(ts[0], s).value]; }
  }

  lemma {:induction false} FuseOrTerms<O, E>(ts: seq<Token>, depth: nat, s: Sink<O, E>)
    ensures FusedTerms(ParseOrTerms(ts, depth, FreeSink()), ParseOrTerms(ts, depth, s), CallsOr(ts, depth), s)
    decreases |ts|, 4
  {
    FuseAnd(ts, depth, s);
    var free := ParseAnd(ts, depth, FreeSink());
    if free.Done? {
      FoldSingle([free.value], s);
      if Peek(free.rest) == Some(Token.Or) {
        FuseOrTerms(free.rest[1..], depth, s);
        FirstRefusedConcat(CallsAnd(ts, depth), CallsOr(free.rest[1..], depth), s);
        var more := ParseOrTerms(free.rest[1..], depth, FreeSink());
        if more.Done? { FoldTermsConcat([free.value], more.value, s); }
      }
    }
  }

  lemma {:induction false} FuseAnd<O, E>(ts: seq<Token>, depth: nat, s: Sink<O, E>)
    ensures Fused(ParseAnd(ts, depth, FreeSink()), ParseAnd(ts, depth, s), CallsAnd(ts, depth), s)
    decreases |ts|, 3
  {
    FuseAndTerms(ts, depth, s);
    var free := ParseAndTerms(ts, depth, FreeSink());
    if free.Done? && |free.value| == 1 { FoldSingle(free.value, s); }
  }

  lemma {:induction false} FuseAndTerms<O, E>(ts: seq<Token>, depth: nat, s: Sink<O, E>)
    ensures FusedTerms(ParseAndTerms(ts, depth, FreeSink()), ParseAndTerms(ts, depth, s), CallsAnd(ts, depth), s)
    decreases |ts|, 2
  {
    FuseNot(ts, depth, s);
    var free := ParseNot(ts, depth, FreeSink());
    if free.Done? {
      FoldSingle([free.value], s);
      if Peek(free.rest) == Some(Token.And) {
        FuseAndTerms(free.rest[1..], depth, s);
        FirstRefusedConcat(CallsNot(ts, depth), CallsAnd(free.rest[1..], depth), s);
        var more := ParseAndTerms(free.rest[1..], depth, FreeSink());
        if more.Done? { FoldTermsConcat([free.value], more.value, s); }
      }
    }
  }

  lemma {:induction false} FuseNot<O, E>(ts: seq<Token>, depth: nat, s: Sink<O, E>)
    ensures Fused(ParseNot(ts, depth, FreeSink()), ParseNot(ts, depth, s), CallsNot(ts, depth), s)
    decreases |ts|, 1
  {
    if Peek(ts) == Some(Token.Not) {
      if depth + 1 <= MAX_CONDITION_DEPTH { FuseNot(ts[1..], depth + 1, s); }
    } else {
      FusePrimary(ts, depth, s);
    }
  }

  lemma {:induction false} FusePrimary<O, E>(ts: seq<Token>, depth: nat, s: Sink<O, E>)
    ensures Fused(ParsePrimary(ts, depth, FreeSink()), ParsePrimary(ts, depth, s), CallsPrimary(ts, depth), s)
    decreases |ts|, 0
  {
    if Peek(ts) == Some(LParen) && depth + 1 <= MAX_CONDITION_DEPTH { FuseOr(ts[1..], depth + 1, s); }
  }

  /** Parsing a token list into `s` is the fold of `s` over the tree, failures included. */
  lemma ParseIsFold<O, E>(ts: seq<Token>, s: Sink<O, E>)
    ensures FusedResult(ParseTokens(ts, FreeSink()), ParseTokens(ts, s), CallsInTokens(ts), s)
  {
    FuseOr(ts, 0, s);
  }

  /** The same at the level of expressions: one parser serves every target model. */
  lemma ParseTextIsFold<O, E>(input: string, s: Sink<O, E>)
    ensures FusedResult(ParseText(input, FreeSink()), ParseText(input, s), CallsInText(input), s)
  {
    if Lex(Trim(input), 0).Ok? { ParseIsFold(Lex(Trim(input), 0).value, s); }
  }

  /** Leaves a sink refuses are the only expressions two sinks can disagree on. */
  lemma SinksAgreeUpToLeaves<O1, E1, O2, E2>(input: string, s1: Sink<O1, E1>, s2: Sink<O2, E2>)
    requires forall name, args :: s1.leaf(name, args).Ok? <==> s2.leaf(name, args).Ok?
    ensures ParseText(input, s1).Ok? <==> ParseText(input, s2).Ok?
  {
    ParseTextIsFold(input, s1);
    ParseTextIsFold(input, s2);
    match ParseText(input, FreeSink())
    case Ok(t) => FoldsAgree(t, s1, s2);
    case Err(_) =>
  }

  lemma {:induction false} FoldsAgree<O1, E1, O2, E2>(t: Ast, s1: Sink<O1, E1>, s2: Sink<O2, E2>)
    requires forall name, args :: s1.leaf(name, args).Ok? <==> s2.leaf(name, args).Ok?
    ensures Fold(t, s1).Ok? <==> Fold(t, s2).Ok?
    decreases t
  {
    match t
    case LeafNode(name, args) =>
      assert s1.leaf(name, args).Ok? <==> s2.leaf(name, args).Ok?;
    case NotNode(inner) => FoldsAgree(inner, s1, s2);
    case AllNode(terms) => FoldTermsAgree(terms, s1, s2);
    case AnyNode(terms) => FoldTermsAgree(terms, s1, s2);
  }

  lemma {:induction false} FoldTermsAgree<O1, E1, O2, E2>(ts: seq<Ast>, s1: Sink<O1, E1>, s2: Sink<O2, E2>)
    requires forall name, args :: s1.leaf(name, args).Ok? <==> s2.leaf(name, args).Ok?
    ensures FoldTerms(ts, s1).Ok? <==> FoldTerms(ts, s2).Ok?
    decreases ts
  {
    if ts != [] {
      FoldsAgree(ts[0], s1, s2);
      FoldTermsAgree(ts[1..], s1, s2);
    }
  }
}
