/** The runtime condition model, and the sink that builds it from the DSL. */
module ConditionRuntime {
  import opened Results
  import opened ConditionLexer
  import opened ConditionParser

  /** The variants that the DSL can express. */
  datatype RuntimeCondition =
    | QuestAccepted(quest: int)
    | QuestCompleted(quest: int)
    | QuestRewarded(quest: int)
    | ObjectiveComplete(quest: int, index: int)
    | ItemCountAtLeast(item: int, count: int)
    | LevelAtLeast(level: int)
    | NotOf(inner: RuntimeCondition)
    | AllOf(terms: seq<RuntimeCondition>)
    | AnyOf(terms: seq<RuntimeCondition>)

  predicate IsU32(n: int) { 0 <= n < 0x1_0000_0000 }

  predicate IsU8(n: int) { 0 <= n < 0x100 }

  function Build(ok: bool, what: string, n: int, c: RuntimeCondition): Result<RuntimeCondition, SyntaxError> {
    if ok then Ok(c) else Err(OutOfRange(what, n))
  }

  /** The predicate table: names, arities and integer widths. */
  function RuntimeLeaf(name: string, args: seq<int>): Result<RuntimeCondition, SyntaxError> {
    if name == "QuestAccepted" && |args| == 1 then Build(IsU32(args[0]), "quest id", args[0], QuestAccepted(args[0]))
    else if name == "QuestCompleted" && |args| == 1 then
      Build(IsU32(args[0]), "quest id", args[0], QuestCompleted(args[0]))
    else if name == "QuestRewarded" && |args| == 1 then
      Build(IsU32(args[0]), "quest id", args[0], QuestRewarded(args[0]))
    else if name == "Objective" && |args| == 2 then
      if !IsU32(args[0]) then Err(OutOfRange("quest id", args[0]))
      else Build(IsU8(args[1]), "objective index", args[1], ObjectiveComplete(args[0], args[1]))
    else if name == "ItemCount" && |args| == 2 then
      if !IsU32(args[0]) then Err(OutOfRange("item id", args[0]))
      else Build(IsU32(args[1]), "count", args[1], ItemCountAtLeast(args[0], args[1]))
    else if name == "LevelAtLeast" && |args| == 1 then
      Build(IsU8(args[0]), "level", args[0], LevelAtLeast(args[0]))
    else if name == "XpAtLeast" && |args| == 2 then
      Build(IsU8(args[0]), "level", args[0], LevelAtLeast(args[0]))
    else Err(UnknownPredicate(name, |args|))
  }

  // What the table accepts, said per predicate

  datatype Width = U8 | U32 | Ignored

  predicate Within(w: Width, n: int) {
    match w case U8 => IsU8(n) case U32 => IsU32(n) case Ignored => true
  }

  /** Name and argument widths of the seven predicates; the offset of `XpAtLeast` is read and dropped. */
  function Signature(name: string): Option<seq<Width>> {
    if name == "QuestAccepted" || name == "QuestCompleted" || name == "QuestRewarded" then Some([U32])
    else if name == "Objective" then Some([U32, U8])
    else if name == "ItemCount" then Some([U32, U32])
    else if name == "LevelAtLeast" then Some([U8])
    else if name == "XpAtLeast" then Some([U8, Ignored])
    else None
  }

  /** The predicate exists with this many arguments. */
  predicate Known(name: string, args: seq<int>) {
    Signature(name).Some? && |Signature(name).value| == |args|
  }

  predicate InRange(name: string, args: seq<int>)
    requires Known(name, args)
  {
    forall i :: 0 <= i < |args| ==> Within(Signature(name).value[i], args[i])
  }

  /** A leaf is accepted if and only if its predicate is known with that arity and every argument fits its width. */
  lemma LeafAcceptedIff(name: string, args: seq<int>)
    ensures RuntimeLeaf(name, args).Ok? <==> Known(name, args) && InRange(name, args)
  {
    if Known(name, args) { KnownWidths(name, args); }
  }

  /** `InRange` spelled out for the arities that occur. */
  lemma KnownWidths(name: string, args: seq<int>)
    requires Known(name, args)
    ensures 1 <= |args| <= 2
    ensures InRange(name, args) <==>
            Within(Signature(name).value[0], args[0]) && (|args| == 2 ==> Within(Signature(name).value[1], args[1]))
  {
  }

  /** What a refusal says: an unknown predicate with its arity, or the first argument that does not fit. */
  lemma LeafRefusal(name: string, args: seq<int>)
    requires RuntimeLeaf(name, args).Err?
    ensures !Known(name, args) ==> RuntimeLeaf(name, args) == Err(UnknownPredicate(name, |args|))
    ensures Known(name, args) ==>
              exists i, what ::
                && 0 <= i < |args| && !Within(Signature(name).value[i], args[i])
                && (forall j :: 0 <= j < i ==> Within(Signature(name).value[j], args[j]))
                && RuntimeLeaf(name, args) == Err(OutOfRange(what, args[i]))
  {
    if Known(name, args) {
      KnownWidths(name, args);
      var i := if Within(Signature(name).value[0], args[0]) then 1 else 0;
      var what := RuntimeLeaf(name, args).error.what;
      assert 0 <= i < |args| && !Within(Signature(name).value[i], args[i]);
      assert RuntimeLeaf(name, args) == Err(OutOfRange(what, args[i]));
    }
  }

  /** `XpAtLeast` gates on the level alone, whatever its offset. */
  lemma XpIsLevel(level: int, offset: int)
    ensures RuntimeLeaf("XpAtLeast", [level, offset]) == RuntimeLeaf("LevelAtLeast", [level])
  {
  }

  /** Accepted leaves keep their arguments: apart from `XpAtLeast` no two calls build the same condition. */
  lemma LeafKeepsArguments(name: string, args: seq<int>, other: string, more: seq<int>)
    requires RuntimeLeaf(name, args).Ok? && RuntimeLeaf(other, more) == RuntimeLeaf(name, args)
    requires name != "XpAtLeast" && other != "XpAtLeast"
    ensures name == other && args == more
  {
    assert |args| == |more|;
  }

  function MakeAny(terms: seq<RuntimeCondition>): RuntimeCondition { AnyOf(terms) }

  function MakeAll(terms: seq<RuntimeCondition>): RuntimeCondition { AllOf(terms) }

  function MakeNot(inner: RuntimeCondition): RuntimeCondition { NotOf(inner) }

  function KeepError(e: SyntaxError): SyntaxError { e }

  function RuntimeSink(): Sink<RuntimeCondition, SyntaxError> {
    Sink(MakeAny, MakeAll, MakeNot, RuntimeLeaf, KeepError)
  }

  method ParseCondition(input: string) returns (r: Result<RuntimeCondition, SyntaxError>)
    ensures r == ParseText(input, RuntimeSink())
  {
    r := ParseWith(input, RuntimeSink());
  }
}
