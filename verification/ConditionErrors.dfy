/**
 * Where the parser gives up: at the first token that nothing can continue. The tokens in front of it decide the
 * outcome, and they can be completed to an expression.
 */
module ConditionErrors {
  import opened Results
  import opened ConditionLexer
  import opened ConditionParser
  import opened ConditionFusion
  import opened ConditionGrammar

  // The number of tokens that decide the outcome of a parse: those consumed, or those before the offending one

  function OrAt(ts: seq<Token>, depth: nat): (n: nat)
    ensures n <= |ts|
    decreases |ts|, 3
  {
    var first := ParseAnd(ts, depth, FreeSink());
    if first.Fail? then AndAt(ts, depth)
    else |ts| - |first.rest| + if Peek(first.rest) == Some(Token.Or) then 1 + OrAt(first.rest[1..], depth) else 0
  }

  function AndAt(ts: seq<Token>, depth: nat): (n: nat)
    ensures n <= |ts|
    decreases |ts|, 2
  {
    var first := ParseNot(ts, depth, FreeSink());
    if first.Fail? then NotAt(ts, depth)
    else |ts| - |first.rest| + if Peek(first.rest) == Some(Token.And) then 1 + AndAt(first.rest[1..], depth) else 0
  }

  function NotAt(ts: seq<Token>, depth: nat): (n: nat)
    ensures n <= |ts|
    decreases |ts|, 1
  {
    if Peek(ts) != Some(Token.Not) then PrimaryAt(ts, depth)
    else if depth + 1 > MAX_CONDITION_DEPTH then 0
    else 1 + NotAt(ts[1..], depth + 1)
  }

  function PrimaryAt(ts: seq<Token>, depth: nat): (n: nat)
    ensures n <= |ts|
    decreases |ts|, 0
  {
    match Peek(ts)
    case Some(LParen) =>
      if depth + 1 > MAX_CONDITION_DEPTH then 0 else
      var inner := ParseOr(ts[1..], depth + 1, FreeSink());
      if inner.Fail? then 1 + OrAt(ts[1..], depth + 1)
      else |ts| - |inner.rest| + if Peek(inner.rest) == Some(RParen) then 1 else 0
    case Some(Ident(name)) => 1 + PredicateAt(name, ts[1..])
    case _ => 0
  }

  function PredicateAt(name: string, ts: seq<Token>): (n: nat)
    ensures n <= |ts|
  {
    if Peek(ts) != Some(LParen) then 0
    else if Peek(ts[1..]) == Some(RParen) then 2
    else
      var args := ParseArguments(name, ts[1..]);
      if args.Fail? then 1 + ArgumentsAt(ts[1..])
      else |ts| - |args.rest| + if Peek(args.rest) == Some(RParen) then 1 else 0
  }

  function ArgumentsAt(ts: seq<Token>): (n: nat)
    ensures n <= |ts|
    decreases |ts|
  {
    if ts == [] || !ts[0].Number? then 0
    else if |ts| > 1 && ts[1] == Comma then 2 + ArgumentsAt(ts[2..])
    else 1
  }

  // A finished parse has consumed as many tokens

  lemma {:induction false} ArgumentsUsed(name: string, ts: seq<Token>)
    requires ParseArguments(name, ts).Done?
    ensures ParseArguments(name, ts).rest == ts[ArgumentsAt(ts)..]
    decreases |ts|
  {
    if Peek(ts[1..]) == Some(Comma) {
      assert ts[1..][1..] == ts[2..];
      ArgumentsUsed(name, ts[2..]);
    }
  }

  lemma PredicateUsed(name: string, ts: seq<Token>)
    requires ParsePredicate(name, ts, FreeSink()).Done?
    ensures ParsePredicate(name, ts, FreeSink()).rest == ts[PredicateAt(name, ts)..]
  {
    hide ParseArguments, ArgumentsAt;
    if Peek(ts[1..]) == Some(RParen) {
      assert ts[1..][1..] == ts[2..];
    } else {
      ArgumentsUsed(name, ts[1..]);
      assert ts[1..][ArgumentsAt(ts[1..])..][1..] == ts[PredicateAt(name, ts)..];
    }
  }

  lemma {:induction false} PrimaryUsed(ts: seq<Token>, depth: nat)
    requires ParsePrimary(ts, depth, FreeSink()).Done?
    ensures ParsePrimary(ts, depth, FreeSink()).rest == ts[PrimaryAt(ts, depth)..]
    decreases |ts|, 0
  {
    hide ParsePredicate, ParseOr, OrAt, PredicateAt;
    if Peek(ts) == Some(LParen) {
      OrUsed(ts[1..], depth + 1);
      assert ts[1..][OrAt(ts[1..], depth + 1)..][1..] == ts[PrimaryAt(ts, depth)..];
    } else {
      PredicateUsed(ts[0].name, ts[1..]);
      assert ts[1..][PredicateAt(ts[0].name, ts[1..])..] == ts[PrimaryAt(ts, depth)..];
    }
  }

  lemma {:induction false} NotUsed(ts: seq<Token>, depth: nat)
    requires ParseNot(ts, depth, FreeSink()).Done?
    ensures ParseNot(ts, depth, FreeSink()).rest == ts[NotAt(ts, depth)..]
    decreases |ts|, 1
  {
    hide ParsePrimary, PrimaryAt;
    if Peek(ts) == Some(Token.Not) {
      NotUsed(ts[1..], depth + 1);
      assert ts[1..][NotAt(ts[1..], depth + 1)..] == ts[NotAt(ts, depth)..];
    } else {
      PrimaryUsed(ts, depth);
    }
  }

  lemma {:induction false} AndTermsUsed(ts: seq<Token>, depth: nat)
    requires ParseAndTerms(ts, depth, FreeSink()).Done?
    ensures ParseAndTerms(ts, depth, FreeSink()).rest == ts[AndAt(ts, depth)..]
    decreases |ts|, 2
  {
    hide ParseNot, NotAt;
    NotUsed(ts, depth);
    var first := ParseNot(ts, depth, FreeSink());
    if Peek(first.rest) == Some(Token.And) {
      AndTermsUsed(first.rest[1..], depth);
      assert ts[NotAt(ts, depth)..][1..][AndAt(first.rest[1..], depth)..] == ts[AndAt(ts, depth)..];
    }
  }

  lemma {:induction false} AndUsed(ts: seq<Token>, depth: nat)
    requires ParseAnd(ts, depth, FreeSink()).Done?
    ensures ParseAnd(ts, depth, FreeSink()).rest == ts[AndAt(ts, depth)..]
    decreases |ts|, 3
  {
    hide ParseAndTerms, AndAt;
    AndTermsUsed(ts, depth);
  }

  lemma {:induction false} OrTermsUsed(ts: seq<Token>, depth: nat)
    requires ParseOrTerms(ts, depth, FreeSink()).Done?
    ensures ParseOrTerms(ts, depth, FreeSink()).rest == ts[OrAt(ts, depth)..]
    decreases |ts|, 4
  {
    hide ParseAnd, AndAt;
    AndUsed(ts, depth);
    var first := ParseAnd(ts, depth, FreeSink());
    if Peek(first.rest) == Some(Token.Or) {
      OrTermsUsed(first.rest[1..], depth);
      assert ts[AndAt(ts, depth)..][1..][OrAt(first.rest[1..], depth)..] == ts[OrAt(ts, depth)..];
    }
  }

  lemma {:induction false} OrUsed(ts: seq<Token>, depth: nat)
    requires ParseOr(ts, depth, FreeSink()).Done?
    ensures ParseOr(ts, depth, FreeSink()).rest == ts[OrAt(ts, depth)..]
    decreases |ts|, 5
  {
    hide ParseOrTerms, OrAt;
    OrTermsUsed(ts, depth);
  }

  /** The lists agree on the first `n` tokens and on what comes next. */
  predicate Agree(ts: seq<Token>, us: seq<Token>, n: nat) {
    n <= |ts| && n <= |us| && ts[..n] == us[..n] && Peek(ts[n..]) == Peek(us[n..])
  }

  /** The same outcome, with the rest of the other list. */
  ghost predicate SameOutcome<T>(p: Parsed<T, SyntaxError>, q: Parsed<T, SyntaxError>, us: seq<Token>, n: nat) {
    match p
    case Done(v, _) => n <= |us| && q == Done(v, us[n..])
    case Fail(e) => q == Fail(e)
  }

  lemma AgreeParts(ts: seq<Token>, us: seq<Token>, k: nat, n: nat)
    requires k < n && Agree(ts, us, n)
    ensures Agree(ts, us, k) && ts[k] == us[k] && Agree(ts[k + 1..], us[k + 1..], n - k - 1)
    ensures Peek(ts) == Peek(us)
  {
    assert forall i :: 0 <= i < n ==> ts[i] == ts[..n][i] == us[..n][i] == us[i];
    assert ts[k + 1..][n - k - 1..] == ts[n..] && us[k + 1..][n - k - 1..] == us[n..];
  }

  lemma AgreeFirst(ts: seq<Token>, us: seq<Token>, n: nat)
    requires Agree(ts, us, n)
    ensures Peek(ts) == Peek(us)
  {
    if n > 0 { AgreeParts(ts, us, 0, n); } else { assert ts[0..] == ts && us[0..] == us; }
  }

  // The tokens up to there decide

  lemma ArgumentsStep(name: string, ts: seq<Token>)
    ensures ParseArguments(name, ts) ==
            if ts == [] || !ts[0].Number? then Fail(ExpectedArgument(name, Peek(ts)))
            else if |ts| > 1 && ts[1] == Comma then Prepend([ts[0].value], ParseArguments(name, ts[2..]))
            else Done([ts[0].value], ts[1..])
  {
    if |ts| > 1 { assert ts[1..][1..] == ts[2..]; }
  }

  lemma {:induction false} ArgumentsLocal(name: string, ts: seq<Token>, us: seq<Token>)
    requires Agree(ts, us, ArgumentsAt(ts))
    ensures SameOutcome(ParseArguments(name, ts), ParseArguments(name, us), us, ArgumentsAt(ts))
    decreases |ts|
  {
    hide ParseArguments;
    var n := ArgumentsAt(ts);
    ArgumentsStep(name, ts);
    ArgumentsStep(name, us);
    AgreeFirst(ts, us, n);
    if ts != [] && ts[0].Number? {
      AgreeUpTo(ts, us, 1, n);
      if |ts| > 1 && ts[1] == Comma {
        AgreeUpTo(ts, us, 2, n);
        ArgumentsLocal(name, ts[2..], us[2..]);
        assert us[2..][n - 2..] == us[n..];
      }
    }
  }

  lemma TailOfTail(us: seq<Token>, k: nat, n: nat)
    requires k <= n <= |us|
    ensures us[k..][n - k..] == us[n..]
  {
  }

  /** Agreement up to a place is agreement up to an earlier one, and from there on. */
  lemma AgreeUpTo(ts: seq<Token>, us: seq<Token>, k: nat, n: nat)
    requires k <= n && Agree(ts, us, n)
    ensures Agree(ts, us, k) && Agree(ts[k..], us[k..], n - k) && Peek(ts[k..]) == Peek(us[k..])
  {
    if k < n { AgreeParts(ts, us, k, n); }
    assert ts[k..][n - k..] == ts[n..] && us[k..][n - k..] == us[n..];
    assert ts[k..][..n - k] == ts[..n][k..] && us[k..][..n - k] == us[..n][k..];
  }

  lemma CallLocal(name: string, ts: seq<Token>, us: seq<Token>)
    requires Peek(ts) == Some(LParen) && Peek(ts[1..]) != Some(RParen) && Agree(ts, us, PredicateAt(name, ts))
    ensures SameOutcome(ParsePredicate(name, ts, FreeSink()), ParsePredicate(name, us, FreeSink()), us,
                        PredicateAt(name, ts))
  {
    hide ParseArguments, ArgumentsAt, Agree;
    var n, args, k := PredicateAt(name, ts), ParseArguments(name, ts[1..]), ArgumentsAt(ts[1..]);
    AgreeFirst(ts, us, n);
    AgreeUpTo(ts, us, 1, n);
    if args.Done? { ArgumentsUsed(name, ts[1..]); }
    AgreeUpTo(ts[1..], us[1..], k, n - 1);
    ArgumentsLocal(name, ts[1..], us[1..]);
    TailOfTail(us, 1, k + 1);
    TailOfTail(us, k + 1, n);
  }

  lemma PredicateLocal(name: string, ts: seq<Token>, us: seq<Token>)
    requires Agree(ts, us, PredicateAt(name, ts))
    ensures SameOutcome(ParsePredicate(name, ts, FreeSink()), ParsePredicate(name, us, FreeSink()), us,
                        PredicateAt(name, ts))
  {
    hide ParseArguments, ArgumentsAt;
    if Peek(ts) == Some(LParen) && Peek(ts[1..]) != Some(RParen) {
      CallLocal(name, ts, us);
    } else {
      var n := PredicateAt(name, ts);
      AgreeFirst(ts, us, n);
      if n == 2 {
        AgreeUpTo(ts, us, 1, n);
        assert us[1..][1..] == us[2..];
      }
    }
  }

  lemma {:induction false} ParensLocal(ts: seq<Token>, us: seq<Token>, depth: nat)
    requires ts != [] && ts[0] == LParen && depth + 1 <= MAX_CONDITION_DEPTH && Agree(ts, us, PrimaryAt(ts, depth))
    ensures SameOutcome(ParsePrimary(ts, depth, FreeSink()), ParsePrimary(us, depth, FreeSink()), us,
                        PrimaryAt(ts, depth))
    decreases |ts|, 0
  {
    hide ParsePredicate, ParseOr, OrAt, PredicateAt, Agree;
    var n, k := PrimaryAt(ts, depth), OrAt(ts[1..], depth + 1);
    var inner := ParseOr(ts[1..], depth + 1, FreeSink());
    AgreeFirst(ts, us, n);
    AgreeUpTo(ts, us, 1, n);
    if inner.Done? { OrUsed(ts[1..], depth + 1); }
    AgreeUpTo(ts[1..], us[1..], k, n - 1);
    OrLocal(ts[1..], us[1..], depth + 1);
    if inner.Done? && Peek(inner.rest) == Some(RParen) {
      assert us[1..][k..][1..] == us[n..];
    }
  }

  lemma {:induction false} PrimaryLocal(ts: seq<Token>, us: seq<Token>, depth: nat)
    requires Agree(ts, us, PrimaryAt(ts, depth))
    ensures SameOutcome(ParsePrimary(ts, depth, FreeSink()), ParsePrimary(us, depth, FreeSink()), us,
                        PrimaryAt(ts, depth))
    decreases |ts|, 1
  {
    hide ParsePredicate, ParseOr, OrAt, PredicateAt;
    var n := PrimaryAt(ts, depth);
    AgreeFirst(ts, us, n);
    match Peek(ts)
    case Some(LParen) => if depth + 1 <= MAX_CONDITION_DEPTH { ParensLocal(ts, us, depth); }
    case Some(Ident(name)) =>
      AgreeUpTo(ts, us, 1, n);
      PredicateLocal(name, ts[1..], us[1..]);
      assert us[1..][n - 1..] == us[n..];
    case _ =>
  }

  lemma {:induction false} NotLocal(ts: seq<Token>, us: seq<Token>, depth: nat)
    requires Agree(ts, us, NotAt(ts, depth))
    ensures SameOutcome(ParseNot(ts, depth, FreeSink()), ParseNot(us, depth, FreeSink()), us, NotAt(ts, depth))
    decreases |ts|, 2
  {
    hide ParsePrimary, PrimaryAt;
    var n := NotAt(ts, depth);
    AgreeFirst(ts, us, n);
    if Peek(ts) == Some(Token.Not) {
      if depth + 1 <= MAX_CONDITION_DEPTH {
        AgreeUpTo(ts, us, 1, n);
        NotLocal(ts[1..], us[1..], depth + 1);
        assert us[1..][n - 1..] == us[n..];
      }
    } else {
      PrimaryLocal(ts, us, depth);
    }
  }

  lemma {:induction false} AndTermsLocal(ts: seq<Token>, us: seq<Token>, depth: nat)
    requires Agree(ts, us, AndAt(ts, depth))
    ensures SameOutcome(ParseAndTerms(ts, depth, FreeSink()), ParseAndTerms(us, depth, FreeSink()), us,
                        AndAt(ts, depth))
    decreases |ts|, 3
  {
    hide ParseNot, NotAt, Agree;
    var n, k, first := AndAt(ts, depth), NotAt(ts, depth), ParseNot(ts, depth, FreeSink());
    if first.Done? { NotUsed(ts, depth); }
    AgreeUpTo(ts, us, k, n);
    NotLocal(ts, us, depth);
    if first.Done? && Peek(first.rest) == Some(Token.And) {
      AgreeUpTo(ts, us, k + 1, n);
      TailOfTail(ts, k, k + 1);
      TailOfTail(us, k, k + 1);
      AndTermsLocal(ts[k + 1..], us[k + 1..], depth);
      TailOfTail(us, k + 1, n);
    }
  }

  lemma {:induction false} AndLocal(ts: seq<Token>, us: seq<Token>, depth: nat)
    requires Agree(ts, us, AndAt(ts, depth))
    ensures SameOutcome(ParseAnd(ts, depth, FreeSink()), ParseAnd(us, depth, FreeSink()), us, AndAt(ts, depth))
    decreases |ts|, 4
  {
    hide ParseAndTerms, AndAt;
    AndTermsLocal(ts, us, depth);
  }

  lemma {:induction false} OrTermsLocal(ts: seq<Token>, us: seq<Token>, depth: nat)
    requires Agree(ts, us, OrAt(ts, depth))
    ensures SameOutcome(ParseOrTerms(ts, depth, FreeSink()), ParseOrTerms(us, depth, FreeSink()), us, OrAt(ts, depth))
    decreases |ts|, 5
  {
    hide ParseAnd, AndAt, Agree;
    var n, k, first := OrAt(ts, depth), AndAt(ts, depth), ParseAnd(ts, depth, FreeSink());
    if first.Done? { AndUsed(ts, depth); }
    AgreeUpTo(ts, us, k, n);
    AndLocal(ts, us, depth);
    if first.Done? && Peek(first.rest) == Some(Token.Or) {
      AgreeUpTo(ts, us, k + 1, n);
      TailOfTail(ts, k, k + 1);
      TailOfTail(us, k, k + 1);
      OrTermsLocal(ts[k + 1..], us[k + 1..], depth);
      TailOfTail(us, k + 1, n);
    }
  }

  /** The tokens up to the end of an expression, or up to the offending token, decide its parse. */
  lemma {:induction false} OrLocal(ts: seq<Token>, us: seq<Token>, depth: nat)
    requires Agree(ts, us, OrAt(ts, depth))
    ensures SameOutcome(ParseOr(ts, depth, FreeSink()), ParseOr(us, depth, FreeSink()), us, OrAt(ts, depth))
    decreases |ts|, 6
  {
    hide ParseOrTerms, OrAt;
    OrTermsLocal(ts, us, depth);
  }

  // What the error says about the offending token

  /** The error fits a list that goes on with `rest`. */
  predicate Shows(e: SyntaxError, rest: seq<Token>) {
    match e
    case ExpectedClose(found) => found == Peek(rest) && found != Some(RParen)
    case ExpectedExpression(found) =>
      found == Peek(rest) && found != Some(LParen) && found != Some(Token.Not) && !(found.Some? && found.value.Ident?)
    case ExpectedOpen(_) => Peek(rest) != Some(LParen)
    case ExpectedArgument(_, found) => found == Peek(rest) && !(found.Some? && found.value.Number?)
    case ExpectedPredicateClose(_) => Peek(rest) != Some(RParen)
    case TooDeep => Peek(rest) == Some(Token.Not) || Peek(rest) == Some(LParen)
    case _ => false
  }

  lemma {:induction false} ArgumentsShow(name: string, ts: seq<Token>)
    requires ParseArguments(name, ts).Fail?
    ensures Shows(ParseArguments(name, ts).error, ts[ArgumentsAt(ts)..])
    decreases |ts|
  {
    hide ParseArguments;
    ArgumentsStep(name, ts);
    if ts != [] && ts[0].Number? {
      ArgumentsShow(name, ts[2..]);
      assert ts[2..][ArgumentsAt(ts[2..])..] == ts[ArgumentsAt(ts)..];
    } else {
      assert ts[0..] == ts;
    }
  }

  lemma PredicateShows(name: string, ts: seq<Token>)
    requires ParsePredicate(name, ts, FreeSink()).Fail?
    ensures Shows(ParsePredicate(name, ts, FreeSink()).error, ts[PredicateAt(name, ts)..])
  {
    hide ParseArguments, ArgumentsAt;
    assert ts[0..] == ts;
    if Peek(ts) == Some(LParen) && Peek(ts[1..]) != Some(RParen) {
      if ParseArguments(name, ts[1..]).Fail? { ArgumentsShow(name, ts[1..]); } else { ArgumentsUsed(name, ts[1..]); }
      assert ts[1..][ArgumentsAt(ts[1..])..] == ts[1 + ArgumentsAt(ts[1..])..];
    }
  }

  lemma {:induction false} PrimaryShows(ts: seq<Token>, depth: nat)
    requires ParsePrimary(ts, depth, FreeSink()).Fail?
    ensures Peek(ts) == Some(Token.Not) || Shows(ParsePrimary(ts, depth, FreeSink()).error, ts[PrimaryAt(ts, depth)..])
    decreases |ts|, 0
  {
    hide ParsePredicate, ParseOr, OrAt, PredicateAt;
    assert ts[0..] == ts;
    match Peek(ts)
    case Some(LParen) =>
      if depth + 1 <= MAX_CONDITION_DEPTH {
        if ParseOr(ts[1..], depth + 1, FreeSink()).Fail? {
          OrShows(ts[1..], depth + 1);
        } else {
          OrUsed(ts[1..], depth + 1);
        }
        assert ts[1..][OrAt(ts[1..], depth + 1)..] == ts[1 + OrAt(ts[1..], depth + 1)..];
      }
    case Some(Ident(name)) =>
      PredicateShows(name, ts[1..]);
      assert ts[1..][PredicateAt(name, ts[1..])..] == ts[1 + PredicateAt(name, ts[1..])..];
    case _ =>
  }

  lemma {:induction false} NotShows(ts: seq<Token>, depth: nat)
    requires ParseNot(ts, depth, FreeSink()).Fail?
    ensures Shows(ParseNot(ts, depth, FreeSink()).error, ts[NotAt(ts, depth)..])
    decreases |ts|, 1
  {
    hide ParsePrimary, PrimaryAt;
    assert ts[0..] == ts;
    if Peek(ts) != Some(Token.Not) {
      PrimaryShows(ts, depth);
    } else if depth + 1 <= MAX_CONDITION_DEPTH {
      NotShows(ts[1..], depth + 1);
      assert ts[1..][NotAt(ts[1..], depth + 1)..] == ts[NotAt(ts, depth)..];
    }
  }

  lemma {:induction false} AndShows(ts: seq<Token>, depth: nat)
    requires ParseAndTerms(ts, depth, FreeSink()).Fail?
    ensures Shows(ParseAndTerms(ts, depth, FreeSink()).error, ts[AndAt(ts, depth)..])
    decreases |ts|, 2
  {
    hide ParseNot, NotAt;
    var first := ParseNot(ts, depth, FreeSink());
    if first.Fail? {
      NotShows(ts, depth);
    } else {
      NotUsed(ts, depth);
      AndShows(first.rest[1..], depth);
      assert ts[NotAt(ts, depth)..][1..][AndAt(first.rest[1..], depth)..] == ts[AndAt(ts, depth)..];
    }
  }

  lemma {:induction false} OrTermsShow(ts: seq<Token>, depth: nat)
    requires ParseOrTerms(ts, depth, FreeSink()).Fail?
    ensures Shows(ParseOrTerms(ts, depth, FreeSink()).error, ts[OrAt(ts, depth)..])
    decreases |ts|, 3
  {
    hide ParseAndTerms, AndAt;
    var first := ParseAnd(ts, depth, FreeSink());
    if first.Fail? {
      AndShows(ts, depth);
    } else {
      AndUsed(ts, depth);
      OrTermsShow(first.rest[1..], depth);
      assert ts[AndAt(ts, depth)..][1..][OrAt(first.rest[1..], depth)..] == ts[OrAt(ts, depth)..];
    }
  }

  lemma {:induction false} OrShows(ts: seq<Token>, depth: nat)
    requires ParseOr(ts, depth, FreeSink()).Fail?
    ensures Shows(ParseOr(ts, depth, FreeSink()).error, ts[OrAt(ts, depth)..])
    decreases |ts|, 4
  {
    hide ParseOrTerms, OrAt;
    OrTermsShow(ts, depth);
  }

  // Up to the offending token everything can be completed

  /** The parse ends well in front of `rest`. */
  predicate EndsBefore<T>(p: Parsed<T, SyntaxError>, rest: seq<Token>) { p.Done? && p.rest == rest }

  const ATOM: seq<Token> := [Ident("A"), LParen, RParen]

  lemma AtomParses(w: seq<Token>, depth: nat)
    ensures EndsBefore(ParseNot(ATOM + w, depth, FreeSink()), w)
    ensures EndsBefore(ParsePrimary(ATOM + w, depth, FreeSink()), w)
  {
    var u := ATOM + w;
    assert u[1..] == [LParen, RParen] + w && u[1..][1..] == [RParen] + w && u[1..][1..][1..] == w;
  }

  lemma {:induction false} ArgumentsViable(name: string, ts: seq<Token>, w: seq<Token>) returns (c: seq<Token>)
    requires ParseArguments(name, ts).Fail? && NotNext(Comma, w)
    ensures EndsBefore(ParseArguments(name, ts[..ArgumentsAt(ts)] + c + w), w)
    decreases |ts|
  {
    hide ParseArguments;
    ArgumentsStep(name, ts);
    if ts == [] || !ts[0].Number? {
      c := [Number(0)];
      var u := ts[..0] + c + w;
      ArgumentsStep(name, u);
      assert u[1..] == w;
    } else {
      c := ArgumentsViable(name, ts[2..], w);
      var u := ts[..ArgumentsAt(ts)] + c + w;
      ArgumentsStep(name, u);
      assert u[2..] == ts[2..][..ArgumentsAt(ts[2..])] + c + w;
    }
  }

  /** A finished argument list ends in the same place whatever follows but a comma. */
  lemma {:induction false} ArgumentsEnd(name: string, ts: seq<Token>, w: seq<Token>)
    requires ParseArguments(name, ts).Done? && NotNext(Comma, w)
    ensures EndsBefore(ParseArguments(name, ts[..ArgumentsAt(ts)] + w), w)
    decreases |ts|
  {
    hide ParseArguments;
    ArgumentsStep(name, ts);
    var u := ts[..ArgumentsAt(ts)] + w;
    ArgumentsStep(name, u);
    if |ts| > 1 && ts[1] == Comma {
      ArgumentsEnd(name, ts[2..], w);
      assert u[2..] == ts[2..][..ArgumentsAt(ts[2..])] + w;
    } else {
      assert u[1..] == w;
    }
  }

  lemma PredicateCloses(name: string, u: seq<Token>, w: seq<Token>)
    requires u != [] && u[0] == LParen && Peek(u[1..]) != Some(RParen)
    requires EndsBefore(ParseArguments(name, u[1..]), [RParen] + w)
    ensures EndsBefore(ParsePredicate(name, u, FreeSink()), w)
  {
    hide ParseArguments;
    assert ([RParen] + w)[1..] == w;
  }

  lemma PredicateViable(name: string, ts: seq<Token>, w: seq<Token>) returns (c: seq<Token>)
    requires ParsePredicate(name, ts, FreeSink()).Fail?
    ensures EndsBefore(ParsePredicate(name, ts[..PredicateAt(name, ts)] + c + w, FreeSink()), w)
  {
    hide ParseArguments, ArgumentsAt;
    if Peek(ts) != Some(LParen) {
      c := [LParen, RParen];
      var u := ts[..0] + c + w;
      assert u[1..] == [RParen] + w && u[1..][1..] == w;
    } else {
      var k := ArgumentsAt(ts[1..]);
      var v := [RParen] + w;
      if ParseArguments(name, ts[1..]).Fail? {
        var more := ArgumentsViable(name, ts[1..], v);
        c := more + [RParen];
        var u := ts[..k + 1] + c + w;
        assert u[1..] == ts[1..][..k] + more + v;
        ArgumentsStart(name, u[1..]);
        PredicateCloses(name, u, w);
      } else {
        ArgumentsUsed(name, ts[1..]);
        ArgumentsEnd(name, ts[1..], v);
        c := [RParen];
        var u := ts[..k + 1] + c + w;
        assert u[1..] == ts[1..][..k] + v;
        ArgumentsStart(name, u[1..]);
        PredicateCloses(name, u, w);
      }
    }
  }

  lemma ArgumentsStart(name: string, ts: seq<Token>)
    requires ParseArguments(name, ts).Done?
    ensures Peek(ts) != Some(RParen)
  {
    hide ParseArguments;
    ArgumentsStep(name, ts);
  }

  lemma ParensClose(u: seq<Token>, w: seq<Token>, depth: nat)
    requires u != [] && u[0] == LParen && depth + 1 <= MAX_CONDITION_DEPTH
    requires EndsBefore(ParseOr(u[1..], depth + 1, FreeSink()), [RParen] + w)
    ensures EndsBefore(ParsePrimary(u, depth, FreeSink()), w)
  {
    hide ParseOr;
    assert ([RParen] + w)[1..] == w;
  }

  lemma {:induction false} ParensViable(ts: seq<Token>, depth: nat, w: seq<Token>) returns (c: seq<Token>)
    requires ts != [] && ts[0] == LParen && depth + 1 <= MAX_CONDITION_DEPTH
    requires ParsePrimary(ts, depth, FreeSink()).Fail?
    ensures EndsBefore(ParsePrimary(ts[..PrimaryAt(ts, depth)] + c + w, depth, FreeSink()), w)
    ensures Peek(ts[..PrimaryAt(ts, depth)] + c + w) != Some(Token.Not)
    decreases |ts|, 0
  {
    hide ParseOr, OrAt;
    var k, v := OrAt(ts[1..], depth + 1), [RParen] + w;
    if ParseOr(ts[1..], depth + 1, FreeSink()).Fail? {
      var more := OrViable(ts[1..], depth + 1, v);
      c := more + [RParen];
      assert (ts[..k + 1] + c + w)[1..] == ts[1..][..k] + more + v;
    } else {
      OrUsed(ts[1..], depth + 1);
      OrEnds(ts[1..], depth + 1, v);
      c := [RParen];
      assert (ts[..k + 1] + c + w)[1..] == ts[1..][..k] + v;
    }
    ParensClose(ts[..k + 1] + c + w, w, depth);
  }

  lemma {:induction false} PrimaryViable(ts: seq<Token>, depth: nat, w: seq<Token>) returns (c: seq<Token>)
    requires ParsePrimary(ts, depth, FreeSink()).Fail? && Peek(ts) != Some(Token.Not)
    ensures EndsBefore(ParsePrimary(ts[..PrimaryAt(ts, depth)] + c + w, depth, FreeSink()), w)
    ensures Peek(ts[..PrimaryAt(ts, depth)] + c + w) != Some(Token.Not)
    decreases |ts|, 1
  {
    hide ParseOr, OrAt, PredicateAt, ParsePredicate;
    AtomParses(w, depth);
    c := ATOM;
    assert ts[..0] + c + w == ATOM + w;
    match Peek(ts)
    case Some(LParen) => if depth + 1 <= MAX_CONDITION_DEPTH { c := ParensViable(ts, depth, w); }
    case Some(Ident(name)) =>
      c := PredicateViable(name, ts[1..], w);
      var k := PredicateAt(name, ts[1..]);
      assert (ts[..k + 1] + c + w)[1..] == ts[1..][..k] + c + w;
    case _ =>
  }

  /** A finished expression ends in the same place whatever follows but an operator. */
  lemma OrEnds(ts: seq<Token>, depth: nat, w: seq<Token>)
    requires depth <= MAX_CONDITION_DEPTH && ParseOr(ts, depth, FreeSink()).Done?
    requires NotNext(Token.Or, w) && NotNext(Token.And, w)
    ensures EndsBefore(ParseOr(ts[..OrAt(ts, depth)] + w, depth, FreeSink()), w)
  {
    hide ParseOr, OrAt;
    OrUsed(ts, depth);
    var d := SoundOr(ts, depth);
    assert ts[..OrAt(ts, depth)] == SpellOr(d);
    CompleteOr(d, w, depth);
  }

  lemma {:induction false} NotViable(ts: seq<Token>, depth: nat, w: seq<Token>) returns (c: seq<Token>)
    requires ParseNot(ts, depth, FreeSink()).Fail?
    ensures EndsBefore(ParseNot(ts[..NotAt(ts, depth)] + c + w, depth, FreeSink()), w)
    decreases |ts|, 2
  {
    hide ParsePrimary, PrimaryAt;
    if Peek(ts) != Some(Token.Not) {
      c := PrimaryViable(ts, depth, w);
    } else if depth + 1 > MAX_CONDITION_DEPTH {
      c := ATOM;
      AtomParses(w, depth);
      assert ts[..0] + c + w == ATOM + w;
    } else {
      c := NotViable(ts[1..], depth + 1, w);
      var k := NotAt(ts[1..], depth + 1);
      assert (ts[..k + 1] + c + w)[1..] == ts[1..][..k] + c + w;
    }
  }

  /** Two lists that agree on a finished first term and the operator behind it. */
  lemma Replaced(ts: seq<Token>, k: nat, m: nat, c: seq<Token>, w: seq<Token>)
    requires k + 1 + m <= |ts|
    ensures var u := ts[..k + 1 + m] + c + w;
            Agree(ts, u, k) && k < |u| && u[k] == ts[k] && u[k..][1..] == ts[k + 1..][..m] + c + w
  {
    var u := ts[..k + 1 + m] + c + w;
    assert u[..k] == ts[..k] && u[k..][1..] == u[k + 1..];
  }

  lemma {:induction false} AndTermsViable(ts: seq<Token>, depth: nat, w: seq<Token>) returns (c: seq<Token>)
    requires ParseAndTerms(ts, depth, FreeSink()).Fail? && NotNext(Token.And, w)
    ensures EndsBefore(ParseAndTerms(ts[..AndAt(ts, depth)] + c + w, depth, FreeSink()), w)
    decreases |ts|, 3
  {
    hide ParseNot, NotAt;
    var first := ParseNot(ts, depth, FreeSink());
    if first.Fail? {
      c := NotViable(ts, depth, w);
    } else {
      NotUsed(ts, depth);
      var k := NotAt(ts, depth);
      var rest := ts[k + 1..];
      assert first.rest[1..] == rest;
      c := AndTermsViable(rest, depth, w);
      Replaced(ts, k, AndAt(rest, depth), c, w);
      NotLocal(ts, ts[..AndAt(ts, depth)] + c + w, depth);
    }
  }

  lemma {:induction false} OrTermsViable(ts: seq<Token>, depth: nat, w: seq<Token>) returns (c: seq<Token>)
    requires ParseOrTerms(ts, depth, FreeSink()).Fail? && NotNext(Token.Or, w) && NotNext(Token.And, w)
    ensures EndsBefore(ParseOrTerms(ts[..OrAt(ts, depth)] + c + w, depth, FreeSink()), w)
    decreases |ts|, 4
  {
    hide ParseAndTerms, AndAt;
    var first := ParseAnd(ts, depth, FreeSink());
    if first.Fail? {
      c := AndTermsViable(ts, depth, w);
    } else {
      AndUsed(ts, depth);
      var k := AndAt(ts, depth);
      var rest := ts[k + 1..];
      assert first.rest[1..] == rest;
      c := OrTermsViable(rest, depth, w);
      Replaced(ts, k, OrAt(rest, depth), c, w);
      AndLocal(ts, ts[..OrAt(ts, depth)] + c + w, depth);
    }
  }

  lemma {:induction false} OrViable(ts: seq<Token>, depth: nat, w: seq<Token>) returns (c: seq<Token>)
    requires ParseOr(ts, depth, FreeSink()).Fail? && NotNext(Token.Or, w) && NotNext(Token.And, w)
    ensures EndsBefore(ParseOr(ts[..OrAt(ts, depth)] + c + w, depth, FreeSink()), w)
    decreases |ts|, 5
  {
    hide ParseOrTerms, OrAt;
    c := OrTermsViable(ts, depth, w);
  }

  // The first token that nothing can continue

  ghost predicate Derivable(ts: seq<Token>) { exists d :: Derives(d, ts) && DepthOr(d) <= MAX_CONDITION_DEPTH }

  lemma DerivableIff(ts: seq<Token>)
    ensures Derivable(ts) <==> EndsBefore(ParseOr(ts, 0, FreeSink()), [])
  {
    hide ParseOr, SpellOr, DepthOr;
    if d :| Derives(d, ts) && DepthOr(d) <= MAX_CONDITION_DEPTH {
      CompleteOr(d, [], 0);
      assert SpellOr(d) + [] == ts;
    }
    if EndsBefore(ParseOr(ts, 0, FreeSink()), []) {
      var d := SoundOr(ts, 0);
      assert SpellOr(d) + [] == SpellOr(d);
      assert Derives(d, ts);
    }
  }

  /** What a refusal by the parser reports on the token at `n`. */
  predicate Reports(e: SyntaxError, ts: seq<Token>, n: nat)
    requires n <= |ts|
  {
    e == TrailingInput(n) || Shows(e, ts[n..])
  }

  /** No expression starts with these tokens. */
  ghost predicate DeadEnd(ts: seq<Token>) { forall us :: ts <= us ==> !Derivable(us) }

  /**
   * The parser refuses a token list at the first place where no continuation helps: what stands before can be completed
   * to an expression, what stands there as well cannot. The error shows what stands there, or that the list ends.
   */
  lemma FirstOffence(ts: seq<Token>) returns (n: nat, c: seq<Token>)
    requires |ts| <= MAX_CONDITION_TOKENS && !Derivable(ts)
    ensures n <= |ts| && ParseTokens(ts, FreeSink()).Err? && Reports(ParseTokens(ts, FreeSink()).error, ts, n)
    ensures Derivable(ts[..n] + c)
    ensures n < |ts| ==> DeadEnd(ts[..n + 1])
  {
    hide ParseOr, OrAt, Derivable, Agree;
    DerivableIff(ts);
    n := OrAt(ts, 0);
    var p := ParseOr(ts, 0, FreeSink());
    if p.Fail? {
      c := OrViable(ts, 0, []);
      OrShows(ts, 0);
    } else {
      c := [];
      OrUsed(ts, 0);
      OrEnds(ts, 0, []);
    }
    assert ts[..n] + c + [] == ts[..n] + c;
    DerivableIff(ts[..n] + c);
    if n < |ts| {
      forall us | ts[..n + 1] <= us ensures !Derivable(us) {
        SamePrefix(ts, n, us);
        OrLocal(ts, us, 0);
        DerivableIff(us);
      }
    }
  }

  lemma SamePrefix(ts: seq<Token>, n: nat, us: seq<Token>)
    requires n < |ts| && ts[..n + 1] <= us
    ensures Agree(ts, us, n) && us[n..] != []
  {
    assert us[..n] == us[..n + 1][..n] == ts[..n + 1][..n] == ts[..n] && us[n] == us[..n + 1][n] == ts[..n + 1][n];
  }
}
