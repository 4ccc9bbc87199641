/** Undo/redo of the project editor: eight index-based commands on a project and their history. */
module ProjectHistory {
  import opened Results
  import opened HistoryMachine

  datatype Action = Action(id: string, payload: string)

  datatype Operation = Operation(id: string, name: string, actions: seq<Action>, attributes: string)

  datatype ProjectDoc = ProjectDoc(name: string, operations: seq<Operation>, attributes: string)

  /** `usize::MAX`, which RemoveAction reads as "the last action". */
  const USIZE_MAX: nat := 0xFFFF_FFFF_FFFF_FFFF

  datatype Command =
    | AddOperation(index: nat, operation: Operation)
    | RemoveOperation(index: nat, operation: Operation)
    | ModifyOperation(index: nat, oldOp: Operation, newOp: Operation)
    | MoveOperation(from: nat, to: nat)
    | AddAction(opIndex: nat, action: Action)
    | RemoveAction(opIndex: nat, index: nat, action: Action)
    | ModifyAction(opIndex: nat, index: nat, oldAction: Action, newAction: Action)
    | ModifyProjectMeta(oldName: string, newName: string)

  datatype CommandError =
    | BadOperationIndex(index: nat, len: nat)
    | BadMove(from: nat, to: nat, len: nat)
    | BadActionIndex(index: nat, len: nat)

  function InsertAt<T>(s: seq<T>, i: nat, x: T): seq<T>
    requires i <= |s|
  {
    s[..i] + [x] + s[i..]
  }

  function RemoveAt<T>(s: seq<T>, i: nat): seq<T>
    requires i < |s|
  {
    s[..i] + s[i + 1..]
  }

  function WithActions(p: ProjectDoc, i: nat, actions: seq<Action>): ProjectDoc
    requires i < |p.operations|
  {
    p.(operations := p.operations[i := p.operations[i].(actions := actions)])
  }

  /** The action index a RemoveAction means. */
  function Resolve(index: nat, len: nat): nat {
    if index == USIZE_MAX then (if len == 0 then 0 else len - 1) else index
  }

  function Apply(c: Command, p: ProjectDoc): Result<ProjectDoc, CommandError> {
    var len := |p.operations|;
    match c
    case AddOperation(i, op) =>
      if i > len then Err(BadOperationIndex(i, len)) else Ok(p.(operations := InsertAt(p.operations, i, op)))
    case RemoveOperation(i, _) =>
      if i >= len then Err(BadOperationIndex(i, len)) else Ok(p.(operations := RemoveAt(p.operations, i)))
    case ModifyOperation(i, _, op) =>
      if i >= len then Err(BadOperationIndex(i, len)) else Ok(p.(operations := p.operations[i := op]))
    case MoveOperation(from, to) =>
      if from >= len || to >= len then Err(BadMove(from, to, len))
      else Ok(p.(operations := InsertAt(RemoveAt(p.operations, from), to, p.operations[from])))
    case AddAction(i, a) =>
      if i >= len then Err(BadOperationIndex(i, len)) else Ok(WithActions(p, i, p.operations[i].actions + [a]))
    case RemoveAction(i, k, _) =>
      if i >= len then Err(BadOperationIndex(i, len)) else
      var actions := p.operations[i].actions;
      var at := Resolve(k, |actions|);
      if at >= |actions| then Err(BadActionIndex(at, |actions|)) else Ok(WithActions(p, i, RemoveAt(actions, at)))
    case ModifyAction(i, k, _, a) =>
      if i >= len then Err(BadOperationIndex(i, len)) else
      var actions := p.operations[i].actions;
      if k >= |actions| then Err(BadActionIndex(k, |actions|)) else Ok(WithActions(p, i, actions[k := a]))
    case ModifyProjectMeta(_, name) => Ok(p.(name := name))
  }

  function Inverse(c: Command): Command {
    match c
    case AddOperation(i, op) => RemoveOperation(i, op)
    case RemoveOperation(i, op) => AddOperation(i, op)
    case ModifyOperation(i, before, after) => ModifyOperation(i, after, before)
    case MoveOperation(from, to) => MoveOperation(to, from)
    case AddAction(i, a) => RemoveAction(i, USIZE_MAX, a)
    case RemoveAction(i, _, a) => AddAction(i, a)
    case ModifyAction(i, k, before, after) => ModifyAction(i, k, after, before)
    case ModifyProjectMeta(before, after) => ModifyProjectMeta(after, before)
  }

  function ProjectMachine(): Machine<ProjectDoc, Command, CommandError> { Machine(Apply, Inverse) }

  /**
   * The snapshots a command carries are those of the document; a removed action equals every action after
   * it as well, because undo re-appends it at the end.
   */
  predicate Faithful(c: Command, p: ProjectDoc) {
    var len := |p.operations|;
    match c
    case AddOperation(_, _) => true
    case RemoveOperation(i, op) => i < len && p.operations[i] == op
    case ModifyOperation(i, before, _) => i < len && p.operations[i] == before
    case MoveOperation(_, _) => true
    case AddAction(_, _) => true
    case RemoveAction(i, k, a) =>
      i < len &&
      var actions := p.operations[i].actions;
      forall j :: Resolve(k, |actions|) <= j < |actions| ==> actions[j] == a
    case ModifyAction(i, k, before, _) =>
      i < len && k < |p.operations[i].actions| && p.operations[i].actions[k] == before
    case ModifyProjectMeta(before, _) => p.name == before
  }

  /** The commands the request handlers build: snapshots are read from the current project. */
  predicate BuiltByHandler(c: Command, p: ProjectDoc) {
    if c.RemoveAction? then
      && c.opIndex < |p.operations|
      && var actions := p.operations[c.opIndex].actions;
         Resolve(c.index, |actions|) < |actions| && c.action == actions[Resolve(c.index, |actions|)]
    else Faithful(c, p)
  }

  lemma MoveAndBack<T>(s: seq<T>, from: nat, to: nat)
    requires from < |s| && to < |s|
    ensures var moved := InsertAt(RemoveAt(s, from), to, s[from]);
            |moved| == |s| && moved[to] == s[from] && InsertAt(RemoveAt(moved, to), from, moved[to]) == s
  {
    var moved := InsertAt(RemoveAt(s, from), to, s[from]);
    assert RemoveAt(moved, to) == RemoveAt(s, from);
  }

  lemma {:induction false} ReappendedTail<T>(s: seq<T>, i: nat, x: T, k: nat)
    requires i < |s| && RemoveAt(s, i) + [x] == s && i <= k < |s|
    ensures s[k] == x
    decreases |s| - k
  {
    if k == |s| - 1 {
      assert s[k] == (RemoveAt(s, i) + [x])[k];
    } else {
      ReappendedTail(s, i, x, k + 1);
      assert s[k] == (RemoveAt(s, i) + [x])[k] == s[k + 1];
    }
  }

  lemma ReappendIff<T>(s: seq<T>, i: nat, x: T)
    requires i < |s|
    ensures RemoveAt(s, i) + [x] == s <==> forall j :: i <= j < |s| ==> s[j] == x
  {
    if RemoveAt(s, i) + [x] == s {
      forall j | i <= j < |s| ensures s[j] == x { ReappendedTail(s, i, x, j); }
    }
  }

  lemma UpdateIff<T>(s: seq<T>, i: nat, x: T)
    requires i < |s|
    ensures s[i := x] == s <==> s[i] == x
  {
    assert s[i := x][i] == x;
  }

  lemma ActionInverse(p: ProjectDoc, i: nat, actions: seq<Action>)
    requires i < |p.operations|
    ensures WithActions(p, i, actions) == p <==> actions == p.operations[i].actions
    ensures forall more :: WithActions(WithActions(p, i, actions), i, more) == WithActions(p, i, more)
  {
    var q := WithActions(p, i, actions);
    assert q.operations[i].actions == actions;
    assert actions == p.operations[i].actions ==> q.operations == p.operations;
    forall more ensures WithActions(q, i, more) == WithActions(p, i, more) {
      assert WithActions(q, i, more).operations == WithActions(p, i, more).operations;
    }
  }

  /** Undo of `c` on `p` is exact precisely if `c` is faithful. */
  ghost predicate UndoneIffFaithful(c: Command, p: ProjectDoc) {
    Apply(c, p).Ok? ==> (Apply(Inverse(c), Apply(c, p).value) == Ok(p) <==> Faithful(c, p))
  }

  /** A project is its operations and the rest. */
  lemma SameOperations(p: ProjectDoc, ops: seq<Operation>)
    ensures p.(operations := ops) == p <==> ops == p.operations
  {
  }

  lemma AddRemoveOperation(c: Command, p: ProjectDoc)
    requires c.AddOperation? || c.RemoveOperation?
    ensures UndoneIffFaithful(c, p)
  {
    var ops := p.operations;
    match c
    case AddOperation(i, op) =>
      if i <= |ops| { assert RemoveAt(InsertAt(ops, i, op), i) == ops; }
    case RemoveOperation(i, op) =>
      if i < |ops| {
        assert InsertAt(RemoveAt(ops, i), i, op) == ops[i := op];
        UpdateIff(ops, i, op);
        SameOperations(p, ops[i := op]);
      }
  }

  lemma ModifyMoveOperation(c: Command, p: ProjectDoc)
    requires c.ModifyOperation? || c.MoveOperation?
    ensures UndoneIffFaithful(c, p)
  {
    var ops := p.operations;
    match c
    case ModifyOperation(i, before, after) =>
      if i < |ops| {
        assert ops[i := after][i := before] == ops[i := before];
        UpdateIff(ops, i, before);
        SameOperations(p, ops[i := before]);
      }
    case MoveOperation(from, to) =>
      if from < |ops| && to < |ops| { MoveAndBack(ops, from, to); }
  }

  lemma AddActionUndone(c: Command, p: ProjectDoc)
    requires c.AddAction?
    ensures UndoneIffFaithful(c, p)
  {
    hide WithActions;
    if c.opIndex < |p.operations| {
      var actions := p.operations[c.opIndex].actions;
      ActionsChange(p, c.opIndex, actions + [c.action]);
      ActionsBack(p, c.opIndex, actions + [c.action], actions);
      assert RemoveAt(actions + [c.action], |actions|) == actions;
    }
  }

  lemma RemoveActionUndone(c: Command, p: ProjectDoc)
    requires c.RemoveAction?
    ensures UndoneIffFaithful(c, p)
  {
    hide WithActions, RemoveAt;
    if c.opIndex < |p.operations| {
      var actions := p.operations[c.opIndex].actions;
      var at := Resolve(c.index, |actions|);
      if at < |actions| {
        ReappendIff(actions, at, c.action);
        ActionsChange(p, c.opIndex, RemoveAt(actions, at));
        ActionsBack(p, c.opIndex, RemoveAt(actions, at), RemoveAt(actions, at) + [c.action]);
      }
    }
  }

  lemma ModifyActionUndone(c: Command, p: ProjectDoc)
    requires c.ModifyAction?
    ensures UndoneIffFaithful(c, p)
  {
    hide WithActions;
    if c.opIndex < |p.operations| {
      var actions := p.operations[c.opIndex].actions;
      if c.index < |actions| {
        ActionsChange(p, c.opIndex, actions[c.index := c.newAction]);
        ActionsBack(p, c.opIndex, actions[c.index := c.newAction], actions[c.index := c.oldAction]);
        assert actions[c.index := c.newAction][c.index := c.oldAction] == actions[c.index := c.oldAction];
        UpdateIff(actions, c.index, c.oldAction);
      }
    }
  }

  lemma ActionsChange(p: ProjectDoc, i: nat, actions: seq<Action>)
    requires i < |p.operations|
    ensures var q := WithActions(p, i, actions); |q.operations| == |p.operations| && q.operations[i].actions == actions
  {
  }

  lemma ActionsBack(p: ProjectDoc, i: nat, actions: seq<Action>, more: seq<Action>)
    requires i < |p.operations|
    ensures |WithActions(p, i, actions).operations| == |p.operations|
    ensures WithActions(WithActions(p, i, actions), i, more) == p <==> more == p.operations[i].actions
  {
    hide WithActions;
    ActionsChange(p, i, actions);
    ActionInverse(p, i, actions);
    ActionInverse(p, i, more);
  }

  /** Undo of a successful command is exact precisely for faithful commands. */
  lemma InverseExactIff(c: Command, p: ProjectDoc)
    requires Apply(c, p).Ok?
    ensures Apply(Inverse(c), Apply(c, p).value) == Ok(p) <==> Faithful(c, p)
  {
    hide Apply, Inverse, Faithful;
    assert UndoneIffFaithful(c, p) by {
      hide UndoneIffFaithful;
      match c
      case AddOperation(_, _) => AddRemoveOperation(c, p);
      case RemoveOperation(_, _) => AddRemoveOperation(c, p);
      case ModifyOperation(_, _, _) => ModifyMoveOperation(c, p);
      case MoveOperation(_, _) => ModifyMoveOperation(c, p);
      case AddAction(_, _) => AddActionUndone(c, p);
      case RemoveAction(_, _, _) => RemoveActionUndone(c, p);
      case ModifyAction(_, _, _, _) => ModifyActionUndone(c, p);
      case ModifyProjectMeta(_, _) => RenameUndone(c, p);
    }
  }

  lemma RenameUndone(c: Command, p: ProjectDoc)
    requires c.ModifyProjectMeta?
    ensures UndoneIffFaithful(c, p)
  {
  }

  lemma ProjectExact()
    ensures Exact(ProjectMachine(), Faithful)
  {
    forall c, p | Faithful(c, p) && Apply(c, p).Ok?
      ensures Apply(Inverse(c), Apply(c, p).value) == Ok(p)
    {
      InverseExactIff(c, p);
    }
  }

  /** A handler-built removal is undone exactly when no different action follows the removed one. */
  lemma HandlerRemovalExactIff(c: Command, p: ProjectDoc)
    requires c.RemoveAction? && BuiltByHandler(c, p)
    ensures Apply(c, p).Ok?
    ensures Apply(Inverse(c), Apply(c, p).value) == Ok(p) <==>
            var actions := p.operations[c.opIndex].actions;
            var at := Resolve(c.index, |actions|);
            forall j :: at < j < |actions| ==> actions[j] == actions[at]
  {
    InverseExactIff(c, p);
  }

  /** Removing an action from the middle and undoing it leaves the actions reordered. */
  lemma MiddleRemovalIsNotUndone() returns (c: Command, p: ProjectDoc)
    ensures BuiltByHandler(c, p) && Apply(c, p).Ok? && Apply(Inverse(c), Apply(c, p).value) != Ok(p)
  {
    var a, b := Action("a", ""), Action("b", "");
    p := ProjectDoc("demo", [Operation("op", "Op", [a, b], "")], "");
    c := RemoveAction(0, 0, a);
    assert p.operations[0].actions[1] != a;
    InverseExactIff(c, p);
  }

  /** Every run of faithful commands: undo and redo work whenever possible and take each other back. */
  lemma ProjectRuns(doc: ProjectDoc, max: nat, es: seq<Event<Command>>)
    requires FaithfulRun(ProjectMachine(), Faithful, HistoryMachine.Fresh(doc, max), es)
    ensures var m := ProjectMachine();
            var h := Run(m, HistoryMachine.Fresh(doc, max), es);
            && Bounded(h)
            && (Step(m, h, Undo).1 == if h.undo == [] then Nothing else Done)
            && (Step(m, h, Redo).1 == if h.redo == [] then Nothing else Done)
            && (h.undo != [] ==> Step(m, Step(m, h, Undo).0, Redo).0 == h)
            && (h.redo != [] ==> Step(m, Step(m, h, Redo).0, Undo).0 == h)
  {
    ProjectExact();
    UndoRedoAfterAnyRun(ProjectMachine(), Faithful, doc, max, es);
  }

  /** After every such run some base document replays to the current one along the undo stack. */
  lemma ProjectReplays(doc: ProjectDoc, max: nat, es: seq<Event<Command>>) returns (docs: seq<ProjectDoc>)
    requires FaithfulRun(ProjectMachine(), Faithful, HistoryMachine.Fresh(doc, max), es)
    ensures OnTimeline(ProjectMachine(), Faithful, Run(ProjectMachine(), HistoryMachine.Fresh(doc, max), es), docs)
    ensures var m := ProjectMachine();
            var h := Run(m, HistoryMachine.Fresh(doc, max), es);
            forall n :: 0 <= n <= |h.undo| ==>
              && Run(m, h, Repeat(Undo, n)).doc == docs[|h.undo| - n]
              && Run(m, h, Repeat(Undo, n) + Repeat(Redo, n)) == h
  {
    hide Exact, OnTimeline, Apply, Inverse, Faithful, Run, FaithfulRun;
    ProjectExact();
    FreshTimeline(doc, max);
    var m := ProjectMachine();
    docs := RunOnTimeline(m, Faithful, HistoryMachine.Fresh(doc, max), es, [doc]);
    var h := Run(m, HistoryMachine.Fresh(doc, max), es);
    TimelineShape(m, Faithful, h, docs);
    forall n | 0 <= n <= |h.undo|
      ensures Run(m, h, Repeat(Undo, n)).doc == docs[|h.undo| - n]
      ensures Run(m, h, Repeat(Undo, n) + Repeat(Redo, n)) == h
    {
      TimeTravel(m, Faithful, h, docs, n);
    }
  }

  lemma FreshTimeline(doc: ProjectDoc, max: nat)
    ensures OnTimeline(ProjectMachine(), Faithful, HistoryMachine.Fresh(doc, max), [doc])
  {
  }

  class Project {
    var name: string
    var operations: seq<Operation>
    const attributes: string

    constructor (doc: ProjectDoc)
      ensures Doc() == doc
    {
      name, operations, attributes := doc.name, doc.operations, doc.attributes;
    }

    function Doc(): (doc: ProjectDoc)
      reads this
    {
      ProjectDoc(name, operations, attributes)
    }

    /** Runs one command in place; a refused command leaves the project untouched. */
    method Perform(c: Command) returns (r: Result<(), CommandError>)
      modifies this
      ensures match Apply(c, old(Doc()))
              case Ok(doc) => r == Ok(()) && Doc() == doc
              case Err(e) => r == Err(e) && Doc() == old(Doc())
    {
      var len := |operations|;
      match c {
      case AddOperation(i, op) =>
        if i > len { return Err(BadOperationIndex(i, len)); }
        operations := operations[..i] + [op] + operations[i..];
      case RemoveOperation(i, _) =>
        if i >= len { return Err(BadOperationIndex(i, len)); }
        operations := operations[..i] + operations[i + 1..];
      case ModifyOperation(i, _, op) =>
        if i >= len { return Err(BadOperationIndex(i, len)); }
        operations := operations[i := op];
      case MoveOperation(from, to) =>
        if from >= len || to >= len { return Err(BadMove(from, to, len)); }
        var op := operations[from];
        operations := operations[..from] + operations[from + 1..];
        operations := operations[..to] + [op] + operations[to..];
      case AddAction(i, a) =>
        if i >= len { return Err(BadOperationIndex(i, len)); }
        operations := operations[i := operations[i].(actions := operations[i].actions + [a])];
      case RemoveAction(i, k, _) =>
        if i >= len { return Err(BadOperationIndex(i, len)); }
        var actions := operations[i].actions;
        var at := if k == USIZE_MAX then (if |actions| == 0 then 0 else |actions| - 1) else k;
        if at >= |actions| { return Err(BadActionIndex(at, |actions|)); }
        operations := operations[i := operations[i].(actions := actions[..at] + actions[at + 1..])];
      case ModifyAction(i, k, _, a) =>
        if i >= len { return Err(BadOperationIndex(i, len)); }
        var actions := operations[i].actions;
        if k >= |actions| { return Err(BadActionIndex(k, |actions|)); }
        operations := operations[i := operations[i].(actions := actions[k := a])];
      case ModifyProjectMeta(_, newName) =>
        name := newName;
      }
      r := Ok(());
    }
  }

  class CommandHistory {
    var undoStack: seq<Command>
    var redoStack: seq<Command>
    const maxHistory: nat

    constructor (maxHistory: nat)
      ensures undoStack == [] && redoStack == [] && this.maxHistory == maxHistory
    {
      undoStack, redoStack := [], [];
      this.maxHistory := maxHistory;
    }

    /** The history machine state this object and the project stand for. */
    ghost function State(project: Project): History<ProjectDoc, Command>
      reads this, project
    {
      History(undoStack, redoStack, maxHistory, project.Doc())
    }

    method Execute(c: Command, project: Project) returns (r: Outcome<CommandError>)
      modifies this, project
      ensures (State(project), r) == Step(ProjectMachine(), old(State(project)), HistoryMachine.Execute(c))
    {
      var applied := project.Perform(c);
      if applied.Err? { return Refused(applied.error); }
      undoStack := undoStack + [c];
      redoStack := [];
      if maxHistory > 0 && |undoStack| > maxHistory { undoStack := undoStack[1..]; }
      r := Done;
    }

    method Undo(project: Project) returns (r: Outcome<CommandError>)
      modifies this, project
      ensures (State(project), r) == Step(ProjectMachine(), old(State(project)), HistoryMachine.Undo)
    {
      if undoStack == [] { return Nothing; }
      var c := undoStack[|undoStack| - 1];
      undoStack := undoStack[..|undoStack| - 1];
      var applied := project.Perform(Inverse(c));
      if applied.Err? { return Refused(applied.error); }
      redoStack := redoStack + [c];
      r := Done;
    }

    method Redo(project: Project) returns (r: Outcome<CommandError>)
      modifies this, project
      ensures (State(project), r) == Step(ProjectMachine(), old(State(project)), HistoryMachine.Redo)
    {
      if redoStack == [] { return Nothing; }
      var c := redoStack[|redoStack| - 1];
      redoStack := redoStack[..|redoStack| - 1];
      var applied := project.Perform(c);
      if applied.Err? { return Refused(applied.error); }
      undoStack := undoStack + [c];
      r := Done;
    }

    method Clear(project: Project)
      modifies this
      ensures State(project) == Step(ProjectMachine(), old(State(project)), HistoryMachine.Clear).0
    {
      undoStack, redoStack := [], [];
    }
  }
}
