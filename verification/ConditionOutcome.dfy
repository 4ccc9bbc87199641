/** Which expressions the runtime sink accepts. */
module ConditionOutcome {
  import opened Results
  import opened RustText
  import opened ConditionLexer
  import opened ConditionParser
  import opened ConditionFusion
  import opened ConditionGrammar
  import opened ConditionRuntime
  import opened ConditionSpelling

  predicate LeavesAccepted(t: Ast) {
    match t
    case LeafNode(name, args) => Known(name, args) && InRange(name, args)
    case NotNode(inner) => LeavesAccepted(inner)
    case AllNode(terms) => forall i :: 0 <= i < |terms| ==> LeavesAccepted(terms[i])
    case AnyNode(terms) => forall i :: 0 <= i < |terms| ==> LeavesAccepted(terms[i])
  }

  lemma {:induction false} FoldAcceptedIff(t: Ast)
    ensures Fold(t, RuntimeSink()).Ok? <==> LeavesAccepted(t)
    decreases t
  {
    match t
    case LeafNode(name, args) => LeafAcceptedIff(name, args);
    case NotNode(inner) => FoldAcceptedIff(inner);
    case AllNode(terms) => FoldTermsAcceptedIff(terms);
    case AnyNode(terms) => FoldTermsAcceptedIff(terms);
  }

  lemma {:induction false} FoldTermsAcceptedIff(terms: seq<Ast>)
    ensures FoldTerms(terms, RuntimeSink()).Ok? <==> forall i :: 0 <= i < |terms| ==> LeavesAccepted(terms[i])
    decreases terms
  {
    hide LeavesAccepted, Fold;
    if terms != [] {
      FoldAcceptedIff(terms[0]);
      FoldTermsAcceptedIff(terms[1..]);
      assert forall i :: 0 < i < |terms| ==> terms[i] == terms[1..][i - 1];
    }
  }

  /** The text spells the derivation, which keeps within both guards and has only accepted leaves. */
  ghost predicate Accepts(input: string, d: OrD) {
    && Spells(input, SpellOr(d)) && |SpellOr(d)| <= MAX_CONDITION_TOKENS && DepthOr(d) <= MAX_CONDITION_DEPTH
    && LeavesAccepted(TreeOr(d))
  }

  /** The runtime parser accepts exactly the texts with such a derivation. */
  lemma ParseConditionIff(input: string)
    ensures ParseText(input, RuntimeSink()).Ok? <==> exists d :: Accepts(input, d)
  {
    hide ParseText, LeavesAccepted, Fold, TreeOr, DepthOr, Spells, SpellOr;
    var s := RuntimeSink();
    var r := ParseText(input, s);
    if r.Ok? {
      ExpressionIff(input, s, r.value);
      var d :| Denotes(input, d, s, r.value);
      FoldAcceptedIff(TreeOr(d));
      assert Accepts(input, d);
    }
    if d :| Accepts(input, d) {
      FoldAcceptedIff(TreeOr(d));
      var v := Fold(TreeOr(d), s).value;
      ExpressionIff(input, s, v);
      assert Denotes(input, d, s, v);
    }
  }

  /** An expression that fails only in its leaves reports the first refused one in text order. */
  lemma FirstBadLeafIsReported(input: string)
    requires ParseText(input, FreeSink()).Ok? && ParseText(input, RuntimeSink()).Err?
    ensures FirstRefused(CallsInText(input), RuntimeSink()) == Some(ParseText(input, RuntimeSink()).error)
  {
    hide ParseText, CallsInText, FirstRefused, Fold;
    ParseTextIsFold(input, RuntimeSink());
  }
}
