/**
 * Trees and runtime conditions printed with few parentheses, and read back: only where precedence asks for them, or
 * where a list stands inside a list of its own kind.
 */
module ConditionPrinter {
  import opened Results
  import opened RustText
  import opened ConditionLexer
  import opened ConditionParser
  import opened ConditionFusion
  import opened ConditionGrammar
  import opened ConditionRuntime
  import opened ConditionRendering

  // Trees

  /** Trees that can be written down: chains have two or more terms, leaves are lexable. */
  ghost predicate Canonical(t: Ast) {
    match t
    case LeafNode(name, args) => IsName(name) && forall i :: 0 <= i < |args| ==> IsI64(args[i])
    case NotNode(inner) => Canonical(inner)
    case AllNode(terms) => |terms| >= 2 && forall i :: 0 <= i < |terms| ==> Canonical(terms[i])
    case AnyNode(terms) => |terms| >= 2 && forall i :: 0 <= i < |terms| ==> Canonical(terms[i])
  }

  function OrChain(terms: seq<Ast>): (d: OrD)
    requires terms != []
    decreases terms, 0
  {
    if |terms| == 1 then OrOne(AsAnd(terms[0])) else OrMore(AsAnd(terms[0]), OrChain(terms[1..]))
  }

  function AndChain(terms: seq<Ast>): (d: AndD)
    requires terms != []
    decreases terms, 0
  {
    if |terms| == 1 then AndOne(AsNot(terms[0])) else AndMore(AsNot(terms[0]), AndChain(terms[1..]))
  }

  function AsPrimary(t: Ast): PrimaryD
    decreases t, 1
  {
    match t
    case LeafNode(name, args) => Call(name, args)
    case NotNode(inner) => Parens(OrOne(AndOne(Negation(AsNot(inner)))))
    case AllNode(terms) => if terms == [] then Call("", []) else Parens(OrOne(AndChain(terms)))
    case AnyNode(terms) => if terms == [] then Call("", []) else Parens(OrChain(terms))
  }

  function AsNot(t: Ast): NotD
    decreases t, 2
  {
    if t.NotNode? then Negation(AsNot(t.inner)) else Plain(AsPrimary(t))
  }

  function AsAnd(t: Ast): AndD
    decreases t, 3
  {
    if t.AllNode? && t.terms != [] then AndChain(t.terms) else AndOne(AsNot(t))
  }

  /** The derivation that spells a tree with parentheses only where precedence needs them. */
  function AsOr(t: Ast): OrD {
    if t.AnyNode? && t.terms != [] then OrChain(t.terms) else OrOne(AsAnd(t))
  }

  function Print(t: Ast): string { Render(SpellOr(AsOr(t))) }

  lemma {:induction false} OrChainDenotes(terms: seq<Ast>)
    requires terms != [] && forall i :: 0 <= i < |terms| ==> Canonical(terms[i])
    ensures TreesOr(OrChain(terms)) == terms
    decreases terms, 0
  {
    AsAndDenotes(terms[0]);
    if |terms| > 1 { OrChainDenotes(terms[1..]); }
  }

  lemma {:induction false} AndChainDenotes(terms: seq<Ast>)
    requires terms != [] && forall i :: 0 <= i < |terms| ==> Canonical(terms[i])
    ensures TreesAnd(AndChain(terms)) == terms
    decreases terms, 0
  {
    AsNotDenotes(terms[0]);
    if |terms| > 1 { AndChainDenotes(terms[1..]); }
  }

  lemma {:induction false} AsNotDenotes(t: Ast)
    requires Canonical(t)
    ensures TreeNot(AsNot(t)) == t
    decreases t, 1
  {
    match t
    case LeafNode(_, _) =>
    case NotNode(inner) => AsNotDenotes(inner);
    case AllNode(terms) =>
      AndChainDenotes(terms);
      assert TreeAnd(AndChain(terms)) == t;
      assert TreeOr(OrOne(AndChain(terms))) == t;
    case AnyNode(terms) =>
      OrChainDenotes(terms);
      assert TreeOr(OrChain(terms)) == t;
  }

  lemma {:induction false} AsAndDenotes(t: Ast)
    requires Canonical(t)
    ensures TreeAnd(AsAnd(t)) == t
    decreases t, 2
  {
    if t.AllNode? { AndChainDenotes(t.terms); } else { AsNotDenotes(t); }
  }

  lemma AsOrDenotes(t: Ast)
    requires Canonical(t)
    ensures TreeOr(AsOr(t)) == t
  {
    if t.AnyNode? { OrChainDenotes(t.terms); } else { AsAndDenotes(t); }
  }

  // The printed tokens are separated, start with a solid character and end with ')'.

  ghost predicate WellSpelled(ts: seq<Token>) {
    Separated(ts) && |ts| > 0 && ts[|ts| - 1] == RParen
  }

  lemma {:induction false} ArgumentsSeparated(args: seq<int>)
    requires args != [] && forall i :: 0 <= i < |args| ==> IsI64(args[i])
    ensures Separated(SpellArguments(args) + [RParen]) && SpellArguments(args)[0].Number?
    decreases |args|
  {
    if |args| > 1 {
      ArgumentsSeparated(args[1..]);
      assert SpellArguments(args) + [RParen] == [Number(args[0]), Comma] + (SpellArguments(args[1..]) + [RParen]);
    }
  }

  lemma {:induction false} PrimarySpelled(d: PrimaryD)
    requires Canonical(TreePrimary(d))
    ensures WellSpelled(SpellPrimary(d))
    decreases d
  {
    match d
    case Call(name, args) =>
      if args != [] {
        ArgumentsSeparated(args);
        assert SpellPrimary(d) == [Ident(name), LParen] + (SpellArguments(args) + [RParen]);
      }
    case Parens(inner) => OrSpelled(inner);
  }

  lemma {:induction false} NotSpelled(d: NotD)
    requires Canonical(TreeNot(d))
    ensures WellSpelled(SpellNot(d))
    decreases d
  {
    match d case Negation(inner) => NotSpelled(inner); case Plain(p) => PrimarySpelled(p);
  }

  lemma {:induction false} AndSpelled(d: AndD)
    requires forall i :: 0 <= i < |TreesAnd(d)| ==> Canonical(TreesAnd(d)[i])
    ensures WellSpelled(SpellAnd(d))
    decreases d
  {
    assert Canonical(TreesAnd(d)[0]);
    NotSpelled(d.first);
    if d.AndMore? {
      assert TreesAnd(d.more) == TreesAnd(d)[1..];
      AndSpelled(d.more);
    }
  }

  lemma {:induction false} OrTermsSpelled(d: OrD)
    requires forall i :: 0 <= i < |TreesOr(d)| ==> Canonical(TreesOr(d)[i])
    ensures WellSpelled(SpellOr(d))
    decreases d, 0
  {
    assert TreesOr(d)[0] == TreeAnd(d.first);
    assert d.first.AndOne? ==> TreesAnd(d.first) == [TreeAnd(d.first)];
    AndSpelled(d.first);
    if d.OrMore? {
      assert TreesOr(d.more) == TreesOr(d)[1..];
      OrTermsSpelled(d.more);
    }
  }

  lemma {:induction false} OrSpelled(d: OrD)
    requires Canonical(TreeOr(d))
    ensures WellSpelled(SpellOr(d))
    decreases d, 1
  {
    assert d.OrOne? ==> TreesOr(d) == [TreeOr(d)];
    OrTermsSpelled(d);
  }

  lemma SpellStarts(d: OrD)
    ensures SpellOr(d)[0].Ident? || SpellOr(d)[0].LParen? || SpellOr(d)[0].Not?
  {
    assert SpellOr(d)[0] == SpellNot(d.first.first)[0];
  }

  lemma {:induction false} RenderEndsSolid(ts: seq<Token>)
    requires WellSpelled(ts)
    ensures Render(ts) != "" && Render(ts)[|Render(ts)| - 1] == ')'
    decreases |ts|
  {
    if |ts| > 1 { RenderEndsSolid(ts[1..]); }
  }

  /** The printed text lexes to the spelled tokens, and trimming leaves it alone. */
  lemma RenderStartsSolid(ts: seq<Token>)
    requires WellSpelled(ts) && ts != [] && (ts[0].Ident? || ts[0].LParen? || ts[0].Not?)
    ensures Render(ts) != "" && !IsWhitespace(Render(ts)[0])
  {
    assert Lexable(ts[0]);
    var head := RenderToken(ts[0]);
    assert head != "" && !IsWhitespace(head[0]);
    assert Render(ts)[0] == head[0];
  }

  lemma PrintLexes(t: Ast)
    requires Canonical(t)
    ensures Trim(Print(t)) == Print(t) && Lex(Print(t), 0) == Ok(SpellOr(AsOr(t)))
  {
    hide Lex, Trim, Canonical, AsOr, SpellOr, TreeOr, Render;
    var ts := SpellOr(AsOr(t));
    AsOrDenotes(t);
    OrSpelled(AsOr(t));
    SpellStarts(AsOr(t));
    LexRender(Print(t), ts, 0);
    RenderStartsSolid(ts);
    RenderEndsSolid(ts);
    TrimKeepsSolid(Print(t));
  }

  ghost predicate FitsGuards(t: Ast) {
    |SpellOr(AsOr(t))| <= MAX_CONDITION_TOKENS && DepthOr(AsOr(t)) <= MAX_CONDITION_DEPTH
  }

  /** Round trip: a canonical tree is read back from its printed text exactly when the text fits both guards. */
  lemma PrintParseTree(t: Ast)
    requires Canonical(t)
    ensures ParseText(Print(t), FreeSink()) == Ok(t) <==> FitsGuards(t)
  {
    var d := AsOr(t);
    PrintLexes(t);
    AsOrDenotes(t);
    if FitsGuards(t) {
      DerivableOutcome(d, FreeSink());
      FoldFree(t);
    } else if ParseText(Print(t), FreeSink()) == Ok(t) {
      ParseTextIff(Print(t), FreeSink(), t);
      var e :| Derives(e, SpellOr(d)) && DepthOr(e) <= MAX_CONDITION_DEPTH;
      DerivationIsUnique(d, e);
    }
  }

  lemma {:induction false} FoldFree(t: Ast)
    ensures Fold(t, FreeSink()) == Ok(t)
    decreases t
  {
    match t
    case LeafNode(_, _) =>
    case NotNode(inner) => FoldFree(inner);
    case AllNode(terms) => FoldFreeTerms(terms);
    case AnyNode(terms) => FoldFreeTerms(terms);
  }

  lemma {:induction false} FoldFreeTerms(terms: seq<Ast>)
    ensures FoldTerms(terms, FreeSink()) == Ok(terms)
    decreases terms
  {
    if terms != [] {
      FoldFree(terms[0]);
      FoldFreeTerms(terms[1..]);
      assert [terms[0]] + terms[1..] == terms;
    }
  }

  // Runtime conditions

  ghost predicate CanonicalCondition(c: RuntimeCondition) {
    match c
    case QuestAccepted(q) => IsU32(q)
    case QuestCompleted(q) => IsU32(q)
    case QuestRewarded(q) => IsU32(q)
    case ObjectiveComplete(q, i) => IsU32(q) && IsU8(i)
    case ItemCountAtLeast(item, n) => IsU32(item) && IsU32(n)
    case LevelAtLeast(l) => IsU8(l)
    case NotOf(inner) => CanonicalCondition(inner)
    case AllOf(terms) => |terms| >= 2 && forall i :: 0 <= i < |terms| ==> CanonicalCondition(terms[i])
    case AnyOf(terms) => |terms| >= 2 && forall i :: 0 <= i < |terms| ==> CanonicalCondition(terms[i])
  }

  function ToAst(c: RuntimeCondition): Ast
    decreases c
  {
    match c
    case QuestAccepted(q) => LeafNode("QuestAccepted", [q])
    case QuestCompleted(q) => LeafNode("QuestCompleted", [q])
    case QuestRewarded(q) => LeafNode("QuestRewarded", [q])
    case ObjectiveComplete(q, i) => LeafNode("Objective", [q, i])
    case ItemCountAtLeast(item, n) => LeafNode("ItemCount", [item, n])
    case LevelAtLeast(l) => LeafNode("LevelAtLeast", [l])
    case NotOf(inner) => NotNode(ToAst(inner))
    case AllOf(terms) => AllNode(ToAsts(terms))
    case AnyOf(terms) => AnyNode(ToAsts(terms))
  }

  function ToAsts(cs: seq<RuntimeCondition>): (ts: seq<Ast>)
    ensures |ts| == |cs|
    decreases cs
  {
    if cs == [] then [] else [ToAst(cs[0])] + ToAsts(cs[1..])
  }

  function PrintCondition(c: RuntimeCondition): string { Print(ToAst(c)) }

  lemma LeafNames()
    ensures IsName("QuestAccepted")
    ensures IsName("QuestCompleted")
    ensures IsName("QuestRewarded")
    ensures IsName("Objective")
    ensures IsName("ItemCount")
    ensures IsName("LevelAtLeast")
  {
    assert IsName("QuestAccepted") by { assert |"QuestAccepted"| == 13; }
    assert IsName("QuestCompleted") by { assert |"QuestCompleted"| == 14; }
    assert IsName("QuestRewarded") by { assert |"QuestRewarded"| == 13; }
    assert IsName("Objective") by { assert |"Objective"| == 9; }
    assert IsName("ItemCount") by { assert |"ItemCount"| == 9; }
    assert IsName("LevelAtLeast") by { assert |"LevelAtLeast"| == 12; }
  }

  predicate IsLeaf(c: RuntimeCondition) { !c.NotOf? && !c.AllOf? && !c.AnyOf? }

  lemma LeafCanonical(c: RuntimeCondition)
    requires CanonicalCondition(c) && IsLeaf(c)
    ensures Canonical(ToAst(c))
  {
    LeafNames();
  }

  lemma LeafFolds(c: RuntimeCondition)
    requires CanonicalCondition(c) && IsLeaf(c)
    ensures Fold(ToAst(c), RuntimeSink()) == Ok(c)
  {
    var t := ToAst(c);
    assert Fold(t, RuntimeSink()) == RuntimeLeaf(t.name, t.args);
    assert |"QuestAccepted"| == 13 == |"QuestRewarded"| && |"QuestCompleted"| == 14;
    assert |"Objective"| == 9 == |"ItemCount"| && |"LevelAtLeast"| == 12;
    assert "QuestAccepted"[5] != "QuestRewarded"[5] && "Objective"[0] != "ItemCount"[0];
  }

  lemma {:induction false} ToAstCanonical(c: RuntimeCondition)
    requires CanonicalCondition(c)
    ensures Canonical(ToAst(c)) && Fold(ToAst(c), RuntimeSink()) == Ok(c)
    decreases c
  {
    match c
    case NotOf(inner) => ToAstCanonical(inner);
    case AllOf(terms) => ToAstsCanonical(terms);
    case AnyOf(terms) => ToAstsCanonical(terms);
    case _ => LeafCanonical(c); LeafFolds(c);
  }

  lemma {:induction false} ToAstsCanonical(cs: seq<RuntimeCondition>)
    requires forall i :: 0 <= i < |cs| ==> CanonicalCondition(cs[i])
    ensures forall i :: 0 <= i < |cs| ==> Canonical(ToAsts(cs)[i])
    ensures FoldTerms(ToAsts(cs), RuntimeSink()) == Ok(cs)
    decreases cs
  {
    if cs != [] {
      ToAstCanonical(cs[0]);
      ToAstsCanonical(cs[1..]);
      assert ToAsts(cs)[1..] == ToAsts(cs[1..]);
      assert [cs[0]] + cs[1..] == cs;
    }
  }

  /** Character-level round trip of the runtime model. */
  lemma PrintParseCondition(c: RuntimeCondition)
    requires CanonicalCondition(c)
    ensures ParseText(PrintCondition(c), RuntimeSink()) == Ok(c) <==> FitsGuards(ToAst(c))
  {
    ToAstCanonical(c);
    PrintParseTree(ToAst(c));
    ParseTextIsFold(PrintCondition(c), RuntimeSink());
    if ParseText(PrintCondition(c), RuntimeSink()) == Ok(c) {
      ParseTextIff(PrintCondition(c), RuntimeSink(), c);
      PrintLexes(ToAst(c));
      var d := AsOr(ToAst(c));
      var e :| Derives(e, SpellOr(d)) && DepthOr(e) <= MAX_CONDITION_DEPTH;
      DerivationIsUnique(d, e);
    }
  }

  /** Everything the parser produces is canonical, so printing covers the parser's whole range. */
  lemma ParsedIsCanonical(input: string, c: RuntimeCondition)
    requires ParseText(input, RuntimeSink()) == Ok(c)
    ensures CanonicalCondition(c)
  {
    ParseTextIff(input, RuntimeSink(), c);
    var d :| Derives(d, Lex(Trim(input), 0).value) && Fold(TreeOr(d), RuntimeSink()) == Ok(c);
    OrShape(d);
    FoldCanonical(TreeOr(d), c);
  }

  /** Chains have two or more terms. */
  ghost predicate Shaped(t: Ast) {
    match t
    case LeafNode(_, _) => true
    case NotNode(inner) => Shaped(inner)
    case AllNode(terms) => |terms| >= 2 && forall i :: 0 <= i < |terms| ==> Shaped(terms[i])
    case AnyNode(terms) => |terms| >= 2 && forall i :: 0 <= i < |terms| ==> Shaped(terms[i])
  }

  lemma {:induction false} OrShape(d: OrD)
    ensures Shaped(TreeOr(d)) && forall i :: 0 <= i < |TreesOr(d)| ==> Shaped(TreesOr(d)[i])
    decreases d
  {
    AndShape(d.first);
    if d.OrMore? {
      OrShape(d.more);
      assert forall i :: 0 < i < |TreesOr(d)| ==> TreesOr(d)[i] == TreesOr(d.more)[i - 1];
    }
  }

  lemma {:induction false} AndShape(d: AndD)
    ensures Shaped(TreeAnd(d)) && forall i :: 0 <= i < |TreesAnd(d)| ==> Shaped(TreesAnd(d)[i])
    decreases d
  {
    NotShape(d.first);
    if d.AndMore? {
      AndShape(d.more);
      assert forall i :: 0 < i < |TreesAnd(d)| ==> TreesAnd(d)[i] == TreesAnd(d.more)[i - 1];
    }
  }

  lemma {:induction false} NotShape(d: NotD)
    ensures Shaped(TreeNot(d))
    decreases d
  {
    match d
    case Negation(inner) => NotShape(inner);
    case Plain(p) => if p.Parens? { OrShape(p.inner); }
  }

  lemma {:induction false} FoldCanonical(t: Ast, c: RuntimeCondition)
    requires Shaped(t) && Fold(t, RuntimeSink()) == Ok(c)
    ensures CanonicalCondition(c)
    decreases t
  {
    match t
    case LeafNode(_, _) =>
    case NotNode(inner) => FoldCanonical(inner, Fold(inner, RuntimeSink()).value);
    case AllNode(terms) => FoldTermsCanonical(terms);
    case AnyNode(terms) => FoldTermsCanonical(terms);
  }

  lemma {:induction false} FoldTermsCanonical(terms: seq<Ast>)
    requires forall i :: 0 <= i < |terms| ==> Shaped(terms[i])
    requires FoldTerms(terms, RuntimeSink()).Ok?
    ensures var cs := FoldTerms(terms, RuntimeSink()).value; forall i :: 0 <= i < |cs| ==> CanonicalCondition(cs[i])
    decreases terms
  {
    if terms != [] {
      FoldCanonical(terms[0], Fold(terms[0], RuntimeSink()).value);
      FoldTermsCanonical(terms[1..]);
    }
  }
}
