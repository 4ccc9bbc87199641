/** The undo/redo machine that both editors share. */
module HistoryMachine {
  import opened Results

  // The documents before and after every command still on a stack form one timeline. Undo and redo move along it,
  // execute cuts it behind the current document and extends it, and the depth limit drops documents from its far
  // end.

  datatype Machine<!S, !C, !E> = Machine(apply: (C, S) -> Result<S, E>, inverse: C -> C)

  datatype History<+S, +C> = History(undo: seq<C>, redo: seq<C>, max: nat, doc: S)

  datatype Outcome<+E> = Done | Nothing | Refused(error: E)

  datatype Event<+C> = Execute(cmd: C) | Undo | Redo | Clear

  function DropLast<T>(s: seq<T>): seq<T>
    requires s != []
  {
    s[..|s| - 1]
  }

  function Last<T>(s: seq<T>): T
    requires s != []
  {
    s[|s| - 1]
  }

  function Trimmed<C>(undo: seq<C>, max: nat): (r: seq<C>) {
    if max > 0 && |undo| > max then undo[1..] else undo
  }

  /** One operation on the history: the state it leaves and what it reports. */
  function Step<S, C, E>(m: Machine<S, C, E>, h: History<S, C>, e: Event<C>): (History<S, C>, Outcome<E>) {
    match e
    case Execute(c) =>
      (match m.apply(c, h.doc)
       case Err(err) => (h, Refused(err))
       case Ok(s) => (History(Trimmed(h.undo + [c], h.max), [], h.max, s), Done))
    case Undo =>
      if h.undo == [] then (h, Nothing) else
      (match m.apply(m.inverse(Last(h.undo)), h.doc)
       case Err(err) => (h.(undo := DropLast(h.undo)), Refused(err))
       case Ok(s) => (h.(undo := DropLast(h.undo), redo := h.redo + [Last(h.undo)], doc := s), Done))
    case Redo =>
      if h.redo == [] then (h, Nothing) else
      (match m.apply(Last(h.redo), h.doc)
       case Err(err) => (h.(redo := DropLast(h.redo)), Refused(err))
       case Ok(s) => (h.(redo := DropLast(h.redo), undo := h.undo + [Last(h.redo)], doc := s), Done))
    case Clear => (h.(undo := [], redo := []), Done)
  }

  function Run<S, C, E>(m: Machine<S, C, E>, h: History<S, C>, es: seq<Event<C>>): History<S, C>
    decreases |es|
  {
    if es == [] then h else Run(m, Step(m, h, es[0]).0, es[1..])
  }

  /** What the operations of a run report, one after the other. */
  function Outcomes<S, C, E>(m: Machine<S, C, E>, h: History<S, C>, es: seq<Event<C>>): seq<Outcome<E>>
    decreases |es|
  {
    if es == [] then [] else [Step(m, h, es[0]).1] + Outcomes(m, Step(m, h, es[0]).0, es[1..])
  }

  /**
   * What the editors owe the machine: `faithful(c, s)` says that command `c` carries correct snapshots of
   * document `s`, and the inverse of a faithful command must undo it exactly.
   */
  ghost predicate Exact<S(!new), C(!new), E>(m: Machine<S, C, E>, faithful: (C, S) -> bool) {
    forall c, s :: faithful(c, s) && m.apply(c, s).Ok? ==> m.apply(m.inverse(c), m.apply(c, s).value) == Ok(s)
  }

  /** Every command that the run manages to execute is faithful to the document it is executed on. */
  ghost predicate FaithfulRun<S, C, E>(m: Machine<S, C, E>, faithful: (C, S) -> bool, h: History<S, C>,
                                       es: seq<Event<C>>)
    decreases |es|
  {
    es == [] ||
    (&& (es[0].Execute? && m.apply(es[0].cmd, h.doc).Ok? ==> faithful(es[0].cmd, h.doc))
     && FaithfulRun(m, faithful, Step(m, h, es[0]).0, es[1..]))
  }

  /** The commands on the stacks in the order in which they act: oldest undo first, farthest redo last. */
  function CommandAt<S, C>(h: History<S, C>, i: nat): C
    requires i < |h.undo| + |h.redo|
  {
    if i < |h.undo| then h.undo[i] else h.redo[|h.redo| - 1 - (i - |h.undo|)]
  }

  ghost predicate Link<S, C, E>(m: Machine<S, C, E>, faithful: (C, S) -> bool, c: C, before: S, after: S) {
    faithful(c, before) && m.apply(c, before) == Ok(after)
  }

  /** `docs` is the timeline of `h`, which currently shows document number `|h.undo|`. */
  ghost predicate OnTimeline<S, C, E>(m: Machine<S, C, E>, faithful: (C, S) -> bool, h: History<S, C>, docs: seq<S>)
  {
    && |docs| == |h.undo| + |h.redo| + 1
    && h.doc == docs[|h.undo|]
    && forall i, j :: 0 <= i < j < |docs| && j == i + 1 ==> Link(m, faithful, CommandAt(h, i), docs[i], docs[j])
  }

  ghost predicate Bounded<S, C>(h: History<S, C>) { h.max > 0 ==> |h.undo| + |h.redo| <= h.max }

  /** The timeline after one operation. */
  ghost function NextTimeline<S, C, E>(m: Machine<S, C, E>, h: History<S, C>, e: Event<C>, docs: seq<S>): seq<S>
    requires |docs| == |h.undo| + |h.redo| + 1
  {
    match e
    case Execute(c) =>
      (match m.apply(c, h.doc)
       case Err(_) => docs
       case Ok(s) =>
         var past := docs[..|h.undo| + 1] + [s];
         if h.max > 0 && |h.undo| + 1 > h.max then past[1..] else past)
    case Undo => docs
    case Redo => docs
    case Clear => [h.doc]
  }

  lemma StepOnTimeline<S(!new), C(!new), E>(m: Machine<S, C, E>, faithful: (C, S) -> bool, h: History<S, C>,
                                            e: Event<C>, docs: seq<S>)
    requires Exact(m, faithful) && OnTimeline(m, faithful, h, docs)
    requires e.Execute? && m.apply(e.cmd, h.doc).Ok? ==> faithful(e.cmd, h.doc)
    ensures OnTimeline(m, faithful, Step(m, h, e).0, NextTimeline(m, h, e, docs))
    ensures Bounded(h) ==> Bounded(Step(m, h, e).0)
  {
    match e
    case Execute(c) => ExecuteOnTimeline(m, faithful, h, c, docs);
    case Undo => if h.undo != [] { UndoMovesBack(m, faithful, h, docs); }
    case Redo => if h.redo != [] { RedoMovesForward(m, faithful, h, docs); }
    case Clear =>
  }

  lemma ExecuteOnTimeline<S(!new), C(!new), E>(m: Machine<S, C, E>, faithful: (C, S) -> bool, h: History<S, C>,
                                               c: C, docs: seq<S>)
    requires OnTimeline(m, faithful, h, docs)
    requires m.apply(c, h.doc).Ok? ==> faithful(c, h.doc)
    ensures OnTimeline(m, faithful, Step(m, h, Execute(c)).0, NextTimeline(m, h, Execute(c), docs))
  {
    if m.apply(c, h.doc).Ok? {
      var g := Step(m, h, Execute(c)).0;
      var next := NextTimeline(m, h, Execute(c), docs);
      var dropped := |h.undo| + 1 - |g.undo|;
      forall i, j | 0 <= i < j < |next| && j == i + 1
        ensures Link(m, faithful, CommandAt(g, i), next[i], next[j])
      {
        if i + dropped < |h.undo| {
          assert Link(m, faithful, CommandAt(h, i + dropped), docs[i + dropped], docs[j + dropped]);
        }
      }
    }
  }

  /** Command number `i` leads from document `i` of the timeline to the next one. */
  lemma LinkAt<S, C, E>(m: Machine<S, C, E>, faithful: (C, S) -> bool, h: History<S, C>, docs: seq<S>, i: nat)
    requires OnTimeline(m, faithful, h, docs) && i < |h.undo| + |h.redo|
    ensures i + 1 < |docs| && Link(m, faithful, CommandAt(h, i), docs[i], docs[i + 1])
  {
    hide CommandAt, Link;
    assert 0 <= i < i + 1 < |docs|;
  }

  lemma InverseGoesBack<S(!new), C(!new), E>(m: Machine<S, C, E>, faithful: (C, S) -> bool, c: C, before: S, after: S)
    requires Exact(m, faithful) && Link(m, faithful, c, before, after)
    ensures m.apply(m.inverse(c), after) == Ok(before)
  {
  }

  lemma LinkHolds<S, C, E>(m: Machine<S, C, E>, faithful: (C, S) -> bool, c: C, before: S, after: S)
    requires Link(m, faithful, c, before, after)
    ensures faithful(c, before) && m.apply(c, before) == Ok(after)
  {
  }

  /** Moving along a timeline is staying on it. */
  lemma Moved<S, C, E>(m: Machine<S, C, E>, faithful: (C, S) -> bool, h: History<S, C>, g: History<S, C>, docs: seq<S>)
    requires OnTimeline(m, faithful, h, docs) && |g.undo| + |g.redo| == |h.undo| + |h.redo|
    requires g.doc == docs[|g.undo|]
    requires forall i :: 0 <= i < |g.undo| + |g.redo| ==> CommandAt(g, i) == CommandAt(h, i)
    ensures OnTimeline(m, faithful, g, docs)
  {
    hide CommandAt, Link;
    forall i, j | 0 <= i < j < |docs| && j == i + 1 ensures Link(m, faithful, CommandAt(g, i), docs[i], docs[j]) {
      LinkAt(m, faithful, h, docs, i);
    }
  }

  /** The stacks after one command moved from undo to redo hold the same commands in the same order. */
  lemma SameCommands<S, C>(h: History<S, C>, g: History<S, C>)
    requires h.undo != [] && g.undo == DropLast(h.undo) && g.redo == h.redo + [Last(h.undo)]
    ensures |g.undo| + |g.redo| == |h.undo| + |h.redo|
    ensures CommandAt(h, |h.undo| - 1) == Last(h.undo)
    ensures forall i :: 0 <= i < |h.undo| + |h.redo| ==> CommandAt(g, i) == CommandAt(h, i)
  {
  }

  /** Undo succeeds whenever there is something to undo, and shows the previous document of the timeline. */
  lemma UndoMovesBack<S(!new), C(!new), E>(m: Machine<S, C, E>, faithful: (C, S) -> bool, h: History<S, C>,
                                           docs: seq<S>)
    requires Exact(m, faithful) && OnTimeline(m, faithful, h, docs) && h.undo != []
    ensures Step(m, h, Undo).1 == Done && Step(m, h, Undo).0.doc == docs[|h.undo| - 1]
    ensures OnTimeline(m, faithful, Step(m, h, Undo).0, docs)
  {
    hide Exact, OnTimeline, CommandAt, Link;
    var n := |h.undo|;
    TimelineShape(m, faithful, h, docs);
    LinkAt(m, faithful, h, docs, n - 1);
    var g := History(DropLast(h.undo), h.redo + [Last(h.undo)], h.max, docs[n - 1]);
    SameCommands(h, g);
    InverseGoesBack(m, faithful, Last(h.undo), docs[n - 1], docs[n]);
    Moved(m, faithful, h, g, docs);
  }

  lemma TimelineShape<S, C, E>(m: Machine<S, C, E>, faithful: (C, S) -> bool, h: History<S, C>, docs: seq<S>)
    requires OnTimeline(m, faithful, h, docs)
    ensures |docs| == |h.undo| + |h.redo| + 1 && h.doc == docs[|h.undo|]
  {
  }

  /** Redo succeeds whenever there is something to redo, and shows the next document of the timeline. */
  lemma RedoMovesForward<S(!new), C(!new), E>(m: Machine<S, C, E>, faithful: (C, S) -> bool, h: History<S, C>,
                                              docs: seq<S>)
    requires OnTimeline(m, faithful, h, docs) && h.redo != []
    ensures Step(m, h, Redo).1 == Done && Step(m, h, Redo).0.doc == docs[|h.undo| + 1]
    ensures OnTimeline(m, faithful, Step(m, h, Redo).0, docs)
  {
    hide OnTimeline, CommandAt, Link;
    var n := |h.undo|;
    TimelineShape(m, faithful, h, docs);
    LinkAt(m, faithful, h, docs, n);
    var g := History(h.undo + [Last(h.redo)], DropLast(h.redo), h.max, docs[n + 1]);
    assert DropLast(g.undo) == h.undo && DropLast(h.redo) + [Last(h.redo)] == h.redo;
    SameCommands(g, h);
    LinkHolds(m, faithful, Last(h.redo), docs[n], docs[n + 1]);
    Moved(m, faithful, h, g, docs);
  }

  /** Redo takes an undo back: documents and both stacks. */
  lemma UndoThenRedo<S(!new), C(!new), E>(m: Machine<S, C, E>, faithful: (C, S) -> bool, h: History<S, C>,
                                          docs: seq<S>)
    requires Exact(m, faithful) && OnTimeline(m, faithful, h, docs) && h.undo != []
    ensures Step(m, h, Undo).1 == Done && Step(m, Step(m, h, Undo).0, Redo) == (h, Done)
  {
    hide Exact, OnTimeline;
    TimelineShape(m, faithful, h, docs);
    UndoMovesBack(m, faithful, h, docs);
    var back := Step(m, h, Undo).0;
    assert back.redo == h.redo + [Last(h.undo)] && Last(back.redo) == Last(h.undo);
    RedoMovesForward(m, faithful, back, docs);
    assert DropLast(h.undo) + [Last(h.undo)] == h.undo && DropLast(back.redo) == h.redo;
  }

  /** Undo takes a redo back. */
  lemma RedoThenUndo<S(!new), C(!new), E>(m: Machine<S, C, E>, faithful: (C, S) -> bool, h: History<S, C>,
                                          docs: seq<S>)
    requires Exact(m, faithful) && OnTimeline(m, faithful, h, docs) && h.redo != []
    ensures Step(m, h, Redo).1 == Done && Step(m, Step(m, h, Redo).0, Undo) == (h, Done)
  {
    hide Exact, OnTimeline;
    TimelineShape(m, faithful, h, docs);
    RedoMovesForward(m, faithful, h, docs);
    var ahead := Step(m, h, Redo).0;
    assert ahead.undo == h.undo + [Last(h.redo)] && Last(ahead.undo) == Last(h.redo);
    UndoMovesBack(m, faithful, ahead, docs);
    assert DropLast(h.redo) + [Last(h.redo)] == h.redo && DropLast(ahead.undo) == h.undo;
  }

  /** Over every run the history stays on a timeline and within its depth limit. */
  lemma {:induction false} RunOnTimeline<S(!new), C(!new), E>(m: Machine<S, C, E>, faithful: (C, S) -> bool,
      h: History<S, C>, es: seq<Event<C>>, docs: seq<S>) returns (end: seq<S>)
    requires Exact(m, faithful) && OnTimeline(m, faithful, h, docs) && FaithfulRun(m, faithful, h, es)
    ensures OnTimeline(m, faithful, Run(m, h, es), end)
    ensures Bounded(h) ==> Bounded(Run(m, h, es))
    decreases |es|
  {
    if es == [] { return docs; }
    StepOnTimeline(m, faithful, h, es[0], docs);
    end := RunOnTimeline(m, faithful, Step(m, h, es[0]).0, es[1..], NextTimeline(m, h, es[0], docs));
  }

  function Fresh<S, C>(doc: S, max: nat): History<S, C> { History([], [], max, doc) }

  /** What a run from a new history guarantees about the next undo and redo. */
  lemma UndoRedoAfterAnyRun<S(!new), C(!new), E>(m: Machine<S, C, E>, faithful: (C, S) -> bool, doc: S, max: nat,
                                                 es: seq<Event<C>>)
    requires Exact(m, faithful) && FaithfulRun(m, faithful, Fresh(doc, max), es)
    ensures var h := Run(m, Fresh(doc, max), es);
            && Bounded(h)
            && (Step(m, h, Undo).1 == if h.undo == [] then Nothing else Done)
            && (Step(m, h, Redo).1 == if h.redo == [] then Nothing else Done)
            && (h.undo != [] ==> Step(m, Step(m, h, Undo).0, Redo).0 == h)
            && (h.redo != [] ==> Step(m, Step(m, h, Redo).0, Undo).0 == h)
  {
    var docs := RunOnTimeline(m, faithful, Fresh(doc, max), es, [doc]);
    var h := Run(m, Fresh(doc, max), es);
    if h.undo != [] { UndoThenRedo(m, faithful, h, docs); }
    if h.redo != [] { RedoThenUndo(m, faithful, h, docs); }
  }

  /** Executing a command after any run and undoing it gives the document back. */
  lemma UndoRestores<S(!new), C(!new), E>(m: Machine<S, C, E>, faithful: (C, S) -> bool, doc: S, max: nat,
                                          es: seq<Event<C>>, c: C)
    requires Exact(m, faithful) && FaithfulRun(m, faithful, Fresh(doc, max), es)
    requires var h := Run(m, Fresh(doc, max), es); m.apply(c, h.doc).Ok? && faithful(c, h.doc)
    ensures var h := Run(m, Fresh(doc, max), es);
            var g := Step(m, h, Execute(c)).0;
            Step(m, g, Undo).1 == Done && Step(m, g, Undo).0.doc == h.doc && Step(m, g, Redo).1 == Nothing
  {
    var docs := RunOnTimeline(m, faithful, Fresh(doc, max), es, [doc]);
    var h := Run(m, Fresh(doc, max), es);
    ExecuteOnTimeline(m, faithful, h, c, docs);
    UndoMovesBack(m, faithful, Step(m, h, Execute(c)).0, NextTimeline(m, h, Execute(c), docs));
  }

  function Repeat<C>(e: Event<C>, n: nat): (es: seq<Event<C>>)
    ensures |es| == n
  {
    if n == 0 then [] else [e] + Repeat(e, n - 1)
  }

  lemma {:induction false} RunConcat<S, C, E>(m: Machine<S, C, E>, h: History<S, C>, a: seq<Event<C>>,
                                              b: seq<Event<C>>)
    ensures Run(m, h, a + b) == Run(m, Run(m, h, a), b)
    decreases |a|
  {
    if a == [] { assert a + b == b; } else {
      assert (a + b)[1..] == a[1..] + b;
      RunConcat(m, Step(m, h, a[0]).0, a[1..], b);
    }
  }

  /** Going back `n` steps shows the document `n` places earlier; going forward again changes nothing at all. */
  lemma {:induction false} TimeTravel<S(!new), C(!new), E>(m: Machine<S, C, E>, faithful: (C, S) -> bool,
      h: History<S, C>, docs: seq<S>, n: nat)
    requires Exact(m, faithful) && OnTimeline(m, faithful, h, docs) && n <= |h.undo|
    ensures Run(m, h, Repeat(Undo, n)).doc == docs[|h.undo| - n]
    ensures Run(m, h, Repeat(Undo, n) + Repeat(Redo, n)) == h
    decreases n
  {
    hide Exact, OnTimeline;
    TimelineShape(m, faithful, h, docs);
    if n == 0 {
      assert Repeat<C>(Undo, 0) + Repeat(Redo, 0) == [];
    } else {
      var back := Step(m, h, Undo).0;
      UndoMovesBack(m, faithful, h, docs);
      TimeTravel(m, faithful, back, docs, n - 1);
      var inner := Repeat<C>(Undo, n - 1) + Repeat(Redo, n - 1);
      RepeatSnoc<C>(Redo, n - 1);
      assert Repeat<C>(Undo, n) + Repeat(Redo, n) == [Undo] + (inner + [Redo]);
      assert ([Undo] + (inner + [Redo]))[1..] == inner + [Redo];
      RunConcat(m, back, inner, [Redo]);
      var once: seq<Event<C>> := [Redo];
      assert once[1..] == [] && Run(m, back, once) == Step(m, back, Redo).0;
      UndoThenRedo(m, faithful, h, docs);
    }
  }

  lemma {:induction false} RepeatSnoc<C>(e: Event<C>, n: nat)
    ensures Repeat(e, n + 1) == Repeat(e, n) + [e]
    decreases n
  {
    if n > 0 { RepeatSnoc(e, n - 1); }
  }

  // What is kept and what is lost

  /** A refused operation leaves the document alone; a refused undo or redo loses the command it popped. */
  lemma RefusedSteps<S, C, E>(m: Machine<S, C, E>, h: History<S, C>, e: Event<C>)
    requires Step(m, h, e).1.Refused?
    ensures var g := Step(m, h, e).0;
            && g.doc == h.doc && g.max == h.max
            && (e.Execute? ==> g == h && m.apply(e.cmd, h.doc) == Err(Step(m, h, e).1.error))
            && (e.Undo? ==> |g.undo| == |h.undo| - 1 && g.undo <= h.undo && g.redo == h.redo)
            && (e.Redo? ==> |g.redo| == |h.redo| - 1 && g.redo <= h.redo && g.undo == h.undo)
  {
  }

  /** The newest commands that fit the limit. */
  function Newest<C>(cs: seq<C>, max: nat): seq<C> {
    if max > 0 && |cs| > max then cs[|cs| - max..] else cs
  }

  function Executes<C>(cs: seq<C>): (es: seq<Event<C>>)
    ensures |es| == |cs| && forall i :: 0 <= i < |es| ==> es[i] == Execute(cs[i])
  {
    seq(|cs|, i requires 0 <= i < |cs| => Execute(cs[i]))
  }

  /** After commands that all apply, exactly the newest ones that fit the limit can be undone. */
  lemma {:induction false} ExecutesKept<S, C, E>(m: Machine<S, C, E>, doc: S, max: nat, cs: seq<C>)
    requires Outcomes(m, Fresh<S, C>(doc, max), Executes(cs)) == seq(|cs|, _ => Done)
    ensures Run(m, Fresh<S, C>(doc, max), Executes(cs)).undo == Newest(cs, max)
    ensures Run(m, Fresh<S, C>(doc, max), Executes(cs)).redo == []
  {
    hide Step;
    KeptSoFar(m, Fresh<S, C>(doc, max), [], cs);
    assert [] + cs == cs;
  }

  lemma {:induction false} KeptSoFar<S, C, E>(m: Machine<S, C, E>, h: History<S, C>, before: seq<C>, cs: seq<C>)
    requires h.undo == Newest(before, h.max) && h.redo == []
    requires Outcomes(m, h, Executes(cs)) == seq(|cs|, _ => Done)
    ensures Run(m, h, Executes(cs)).undo == Newest(before + cs, h.max) && Run(m, h, Executes(cs)).redo == []
    decreases |cs|
  {
    hide Step;
    if cs == [] {
      assert before + cs == before;
    } else {
      var es, g := Executes(cs), Step(m, h, Execute(cs[0])).0;
      assert es[1..] == Executes(cs[1..]);
      assert Outcomes(m, h, es)[0] == Step(m, h, es[0]).1;
      assert Outcomes(m, h, es)[1..] == Outcomes(m, g, es[1..]);
      assert seq(|cs|, _ => Outcome<E>.Done)[1..] == seq(|cs[1..]|, _ => Done);
      OneMoreKept(m, h, before, cs[0]);
      KeptSoFar(m, g, before + [cs[0]], cs[1..]);
      assert before + [cs[0]] + cs[1..] == before + cs;
    }
  }

  lemma OneMoreKept<S, C, E>(m: Machine<S, C, E>, h: History<S, C>, before: seq<C>, c: C)
    requires h.undo == Newest(before, h.max) && h.redo == [] && Step(m, h, Execute(c)).1 == Done
    ensures var g := Step(m, h, Execute(c)).0; g.undo == Newest(before + [c], h.max) && g.redo == [] && g.max == h.max
  {
  }
}
