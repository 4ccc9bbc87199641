/** What every run of server-built project commands guarantees, middle removals included. */
module ProjectShapes {
  import opened Results
  import opened HistoryMachine
  import opened ProjectHistory

  // Whether a command is refused depends on the number of actions in each operation alone, and on these numbers undo
  // is exact even where it is not exact on the project.

  type Shape = seq<nat>

  function ShapeOf(p: ProjectDoc): (s: Shape)
    ensures |s| == |p.operations| && forall i :: 0 <= i < |s| ==> s[i] == |p.operations[i].actions|
  {
    seq(|p.operations|, i requires 0 <= i < |p.operations| => |p.operations[i].actions|)
  }

  function ShapeApply(c: Command, s: Shape): Result<Shape, CommandError> {
    match c
    case AddOperation(i, op) =>
      if i > |s| then Err(BadOperationIndex(i, |s|)) else Ok(InsertAt(s, i, |op.actions|))
    case RemoveOperation(i, _) => if i >= |s| then Err(BadOperationIndex(i, |s|)) else Ok(RemoveAt(s, i))
    case ModifyOperation(i, _, op) => if i >= |s| then Err(BadOperationIndex(i, |s|)) else Ok(s[i := |op.actions|])
    case MoveOperation(from, to) =>
      if from >= |s| || to >= |s| then Err(BadMove(from, to, |s|)) else Ok(InsertAt(RemoveAt(s, from), to, s[from]))
    case AddAction(i, _) => if i >= |s| then Err(BadOperationIndex(i, |s|)) else Ok(s[i := s[i] + 1])
    case RemoveAction(i, k, _) =>
      if i >= |s| then Err(BadOperationIndex(i, |s|))
      else if Resolve(k, s[i]) >= s[i] then Err(BadActionIndex(Resolve(k, s[i]), s[i]))
      else Ok(s[i := s[i] - 1])
    case ModifyAction(i, k, _, _) =>
      if i >= |s| then Err(BadOperationIndex(i, |s|))
      else if k >= s[i] then Err(BadActionIndex(k, s[i]))
      else Ok(s)
    case ModifyProjectMeta(_, _) => Ok(s)
  }

  function ShapeMachine(): Machine<Shape, Command, CommandError> { Machine(ShapeApply, Inverse) }

  /** A replaced operation had as many actions as its snapshot. */
  predicate ShapeFaithful(c: Command, s: Shape) {
    match c
    case RemoveOperation(i, op) => i < |s| && s[i] == |op.actions|
    case ModifyOperation(i, before, _) => i < |s| && s[i] == |before.actions|
    case _ => true
  }

  function Shaped(r: Result<ProjectDoc, CommandError>): Result<Shape, CommandError> {
    match r case Ok(p) => Ok(ShapeOf(p)) case Err(e) => Err(e)
  }

  lemma ActionsShape(p: ProjectDoc, i: nat, actions: seq<Action>)
    requires i < |p.operations|
    ensures ShapeOf(WithActions(p, i, actions)) == ShapeOf(p)[i := |actions|]
  {
  }

  lemma ActionCommandsRefine(c: Command, p: ProjectDoc)
    requires c.AddAction? || c.RemoveAction? || c.ModifyAction?
    ensures ShapeApply(c, ShapeOf(p)) == Shaped(Apply(c, p))
  {
    hide ShapeOf, WithActions;
    if c.opIndex < |p.operations| {
      var actions := p.operations[c.opIndex].actions;
      match c
      case AddAction(i, a) => ActionsShape(p, i, actions + [a]);
      case RemoveAction(i, k, _) =>
        var at := Resolve(k, |actions|);
        if at < |actions| { ActionsShape(p, i, RemoveAt(actions, at)); }
      case ModifyAction(i, k, _, a) =>
        if k < |actions| {
          ActionsShape(p, i, actions[k := a]);
          assert ShapeOf(p)[i := |actions|] == ShapeOf(p);
        }
    }
  }

  lemma InsertShape(p: ProjectDoc, q: ProjectDoc, i: nat, op: Operation)
    requires i <= |p.operations| && q.operations == InsertAt(p.operations, i, op)
    ensures ShapeOf(q) == InsertAt(ShapeOf(p), i, |op.actions|)
  {
  }

  lemma RemoveShape(p: ProjectDoc, q: ProjectDoc, i: nat)
    requires i < |p.operations| && q.operations == RemoveAt(p.operations, i)
    ensures ShapeOf(q) == RemoveAt(ShapeOf(p), i)
  {
  }

  lemma MoveShape(p: ProjectDoc, q: ProjectDoc, from: nat, to: nat)
    requires from < |p.operations| && to < |p.operations|
    requires q.operations == InsertAt(RemoveAt(p.operations, from), to, p.operations[from])
    ensures ShapeOf(q) == InsertAt(RemoveAt(ShapeOf(p), from), to, ShapeOf(p)[from])
  {
    hide ShapeOf;
    var without := p.(operations := RemoveAt(p.operations, from));
    RemoveShape(p, without, from);
    InsertShape(without, q, to, p.operations[from]);
  }

  lemma SameShape(p: ProjectDoc, q: ProjectDoc)
    requires q.operations == p.operations
    ensures ShapeOf(q) == ShapeOf(p)
  {
  }

  lemma OperationCommandsRefine(c: Command, p: ProjectDoc)
    requires !c.AddAction? && !c.RemoveAction? && !c.ModifyAction?
    ensures ShapeApply(c, ShapeOf(p)) == Shaped(Apply(c, p))
  {
    hide ShapeOf, InsertAt, RemoveAt;
    if Apply(c, p).Ok? {
      var q := Apply(c, p).value;
      match c
      case AddOperation(i, op) => InsertShape(p, q, i, op);
      case RemoveOperation(i, _) => RemoveShape(p, q, i);
      case ModifyOperation(i, _, op) => assert ShapeOf(q) == ShapeOf(p)[i := |op.actions|];
      case MoveOperation(from, to) => MoveShape(p, q, from, to);
      case ModifyProjectMeta(_, _) => SameShape(p, q);
    }
  }

  /** Every command acts on shapes as on projects, refusals included. */
  lemma ShapeRefines(c: Command, p: ProjectDoc)
    ensures ShapeApply(c, ShapeOf(p)) == Shaped(Apply(c, p))
  {
    hide ShapeApply, Apply;
    if c.AddAction? || c.RemoveAction? || c.ModifyAction? {
      ActionCommandsRefine(c, p);
    } else {
      OperationCommandsRefine(c, p);
    }
  }

  lemma ShapeInverse(c: Command, s: Shape)
    requires ShapeFaithful(c, s) && ShapeApply(c, s).Ok?
    ensures ShapeApply(Inverse(c), ShapeApply(c, s).value) == Ok(s)
  {
    match c
    case AddOperation(i, op) => assert RemoveAt(InsertAt(s, i, |op.actions|), i) == s;
    case RemoveOperation(i, op) => assert InsertAt(RemoveAt(s, i), i, |op.actions|) == s;
    case ModifyOperation(i, before, after) => assert s[i := |after.actions|][i := |before.actions|] == s;
    case MoveOperation(from, to) => MoveAndBack(s, from, to);
    case AddAction(i, _) => assert s[i := s[i] + 1][i := s[i]] == s;
    case RemoveAction(i, _, _) => assert s[i := s[i] - 1][i := s[i]] == s;
    case ModifyAction(_, _, _, _) =>
    case ModifyProjectMeta(_, _) =>
  }

  lemma ShapeExact()
    ensures Exact(ShapeMachine(), ShapeFaithful)
  {
    forall c, s | ShapeFaithful(c, s) && ShapeApply(c, s).Ok?
      ensures ShapeApply(Inverse(c), ShapeApply(c, s).value) == Ok(s)
    {
      ShapeInverse(c, s);
    }
  }

  function ShapeHistory(h: History<ProjectDoc, Command>): History<Shape, Command> {
    History(h.undo, h.redo, h.max, ShapeOf(h.doc))
  }

  /** One operation of the history reports on shapes what it reports on projects. */
  lemma StepShaped(h: History<ProjectDoc, Command>, e: Event<Command>)
    ensures var (g, r) := Step(ProjectMachine(), h, e);
            Step(ShapeMachine(), ShapeHistory(h), e) == (ShapeHistory(g), r)
  {
    hide Apply, ShapeApply, ShapeOf, Inverse;
    match e
    case Execute(c) => ShapeRefines(c, h.doc);
    case Undo => if h.undo != [] { ShapeRefines(Inverse(Last(h.undo)), h.doc); }
    case Redo => if h.redo != [] { ShapeRefines(Last(h.redo), h.doc); }
    case Clear =>
  }

  lemma HandlerIsFaithful(c: Command, p: ProjectDoc)
    requires BuiltByHandler(c, p)
    ensures ShapeFaithful(c, ShapeOf(p))
  {
  }

  lemma {:induction false} RunShaped(h: History<ProjectDoc, Command>, es: seq<Event<Command>>)
    requires FaithfulRun(ProjectMachine(), BuiltByHandler, h, es)
    ensures FaithfulRun(ShapeMachine(), ShapeFaithful, ShapeHistory(h), es)
    ensures Run(ShapeMachine(), ShapeHistory(h), es) == ShapeHistory(Run(ProjectMachine(), h, es))
    decreases |es|
  {
    hide Apply, ShapeApply, ShapeOf, Inverse, BuiltByHandler, ShapeFaithful;
    if es != [] {
      if es[0].Execute? {
        ShapeRefines(es[0].cmd, h.doc);
        if Apply(es[0].cmd, h.doc).Ok? { HandlerIsFaithful(es[0].cmd, h.doc); }
      }
      StepShaped(h, es[0]);
      RunShaped(Step(ProjectMachine(), h, es[0]).0, es[1..]);
    }
  }

  /**
   * After every run of commands as the server builds them: both stacks together stay within a positive limit, undo
   * and redo fail only when there is nothing to undo or redo, and each takes the other back in both stacks and in
   * the number of actions of every operation.
   */
  lemma HandlerRuns(doc: ProjectDoc, max: nat, es: seq<Event<Command>>)
    requires FaithfulRun(ProjectMachine(), BuiltByHandler, HistoryMachine.Fresh(doc, max), es)
    ensures var m := ProjectMachine();
            var h := Run(m, HistoryMachine.Fresh(doc, max), es);
            && Bounded(h)
            && (Step(m, h, Undo).1 == if h.undo == [] then Nothing else Done)
            && (Step(m, h, Redo).1 == if h.redo == [] then Nothing else Done)
            && (h.undo != [] ==> ShapeHistory(Step(m, Step(m, h, Undo).0, Redo).0) == ShapeHistory(h))
            && (h.redo != [] ==> ShapeHistory(Step(m, Step(m, h, Redo).0, Undo).0) == ShapeHistory(h))
  {
    hide Apply, ShapeApply, ShapeOf, Inverse, BuiltByHandler, ShapeFaithful, Step;
    var m := ProjectMachine();
    var start := HistoryMachine.Fresh<ProjectDoc, Command>(doc, max);
    var h := Run(m, start, es);
    RunShaped(start, es);
    ShapeExact();
    UndoRedoAfterAnyRun(ShapeMachine(), ShapeFaithful, ShapeOf(doc), max, es);
    StepShaped(h, Undo);
    StepShaped(Step(m, h, Undo).0, Redo);
    StepShaped(h, Redo);
    StepShaped(Step(m, h, Redo).0, Undo);
  }
}
