/** What each project command does to the project, position by position. */
module ProjectEffects {
  import opened Results
  import opened ListEdits
  import opened ProjectHistory

  /** One operation has other actions, and nothing else changes. */
  ghost predicate ActionsBecome(p: ProjectDoc, q: ProjectDoc, i: nat, actions: seq<Action>) {
    && i < |p.operations| && q.name == p.name && q.attributes == p.attributes
    && Replaced(p.operations, q.operations, i,
                Operation(p.operations[i].id, p.operations[i].name, actions, p.operations[i].attributes))
  }

  /** `c` takes `p` to `q`. The greatest index a removal can name stands for the last action. */
  ghost predicate Effect(c: Command, p: ProjectDoc, q: ProjectDoc) {
    match c
    case AddOperation(i, op) =>
      q.name == p.name && q.attributes == p.attributes && Inserted(p.operations, q.operations, i, op)
    case RemoveOperation(i, _) =>
      && q.name == p.name && q.attributes == p.attributes
      && i < |p.operations| && Inserted(q.operations, p.operations, i, p.operations[i])
    case ModifyOperation(i, _, op) =>
      q.name == p.name && q.attributes == p.attributes && Replaced(p.operations, q.operations, i, op)
    case MoveOperation(from, to) =>
      q.name == p.name && q.attributes == p.attributes && Moved(p.operations, q.operations, from, to)
    case AddAction(i, a) => i < |p.operations| && ActionsBecome(p, q, i, p.operations[i].actions + [a])
    case RemoveAction(i, k, _) =>
      && i < |p.operations| && i < |q.operations|
      && var before, after := p.operations[i].actions, q.operations[i].actions;
         && before != []
         && var at := if k == 0xFFFF_FFFF_FFFF_FFFF then |before| - 1 else k;
            at < |before| && Inserted(after, before, at, before[at]) && ActionsBecome(p, q, i, after)
    case ModifyAction(i, k, _, a) =>
      && i < |p.operations| && i < |q.operations|
      && var before, after := p.operations[i].actions, q.operations[i].actions;
         Replaced(before, after, k, a) && ActionsBecome(p, q, i, after)
    case ModifyProjectMeta(_, name) =>
      q.name == name && q.attributes == p.attributes && q.operations == p.operations
  }

  lemma InsertedIff<T(!new)>(s: seq<T>, t: seq<T>, i: nat, x: T)
    ensures Inserted(s, t, i, x) <==> i <= |s| && t == InsertAt(s, i, x)
  {
  }

  lemma RemovedIff<T(!new)>(s: seq<T>, t: seq<T>, i: nat)
    requires i < |s|
    ensures Inserted(t, s, i, s[i]) <==> t == RemoveAt(s, i)
  {
    if Inserted(t, s, i, s[i]) {
      forall k | 0 <= k < |t| ensures t[k] == RemoveAt(s, i)[k] { if k >= i { assert s[k + 1] == t[k]; } }
    }
  }

  lemma ReplacedIff<T(!new)>(s: seq<T>, t: seq<T>, i: nat, x: T)
    ensures Replaced(s, t, i, x) <==> i < |s| && t == s[i := x]
  {
  }

  lemma MovedIff<T(!new)>(s: seq<T>, t: seq<T>, from: nat, to: nat)
    ensures Moved(s, t, from, to) <==> from < |s| && to < |s| && t == InsertAt(RemoveAt(s, from), to, s[from])
  {
    if from < |s| && to < |s| {
      var u := InsertAt(RemoveAt(s, from), to, s[from]);
      forall k | 0 <= k < |s| ensures Landing(k, from, to) < |s| && u[Landing(k, from, to)] == s[k] {}
      if Moved(s, t, from, to) {
        forall l | 0 <= l < |s| ensures t[l] == u[l] { assert Landing(Landing(l, to, from), from, to) == l; }
      }
    }
  }

  lemma ActionsBecomeIff(p: ProjectDoc, q: ProjectDoc, i: nat, actions: seq<Action>)
    ensures ActionsBecome(p, q, i, actions) <==> i < |p.operations| && q == WithActions(p, i, actions)
  {
    if i < |p.operations| { ReplacedIff(p.operations, q.operations, i, p.operations[i].(actions := actions)); }
  }

  lemma OperationEffect(c: Command, p: ProjectDoc, q: ProjectDoc)
    requires !c.AddAction? && !c.RemoveAction? && !c.ModifyAction?
    ensures Apply(c, p) == Ok(q) <==> Effect(c, p, q)
  {
    hide InsertAt, RemoveAt, Inserted, Replaced, Moved;
    var s, t := p.operations, q.operations;
    match c
    case AddOperation(i, op) => InsertedIff(s, t, i, op);
    case RemoveOperation(i, _) => if i < |s| { RemovedIff(s, t, i); }
    case ModifyOperation(i, _, op) => ReplacedIff(s, t, i, op);
    case MoveOperation(from, to) => MovedIff(s, t, from, to);
    case ModifyProjectMeta(_, name) =>
  }

  lemma WithActionsAt(p: ProjectDoc, i: nat, actions: seq<Action>)
    requires i < |p.operations|
    ensures i < |WithActions(p, i, actions).operations| && WithActions(p, i, actions).operations[i].actions == actions
  {
  }

  lemma RemoveActionEffect(c: Command, p: ProjectDoc, q: ProjectDoc)
    requires c.RemoveAction?
    ensures Apply(c, p) == Ok(q) <==> Effect(c, p, q)
  {
    hide RemoveAt, Inserted, WithActions, ActionsBecome;
    if c.opIndex < |p.operations| {
      var before := p.operations[c.opIndex].actions;
      var at := Resolve(c.index, |before|);
      if at < |before| {
        WithActionsAt(p, c.opIndex, RemoveAt(before, at));
        if c.opIndex < |q.operations| {
          var after := q.operations[c.opIndex].actions;
          RemovedIff(before, after, at);
          ActionsBecomeIff(p, q, c.opIndex, after);
        }
      }
    }
  }

  lemma ActionEffect(c: Command, p: ProjectDoc, q: ProjectDoc)
    requires c.AddAction? || c.ModifyAction?
    ensures Apply(c, p) == Ok(q) <==> Effect(c, p, q)
  {
    hide Replaced, WithActions, ActionsBecome;
    if c.opIndex < |p.operations| {
      var before := p.operations[c.opIndex].actions;
      if c.AddAction? {
        ActionsBecomeIff(p, q, c.opIndex, before + [c.action]);
      } else {
        if c.index < |before| { WithActionsAt(p, c.opIndex, before[c.index := c.newAction]); }
        if c.opIndex < |q.operations| {
          var after := q.operations[c.opIndex].actions;
          ReplacedIff(before, after, c.index, c.newAction);
          ActionsBecomeIff(p, q, c.opIndex, after);
        }
      }
    }
  }

  /** A command takes a project to another one exactly as its effect says. */
  lemma AppliesIff(c: Command, p: ProjectDoc, q: ProjectDoc)
    ensures Apply(c, p) == Ok(q) <==> Effect(c, p, q)
  {
    hide Apply, Effect;
    if c.RemoveAction? { RemoveActionEffect(c, p, q); }
    else if c.AddAction? || c.ModifyAction? { ActionEffect(c, p, q); }
    else { OperationEffect(c, p, q); }
  }

  /** A command is refused exactly if an index it names is out of range, and the error says which. */
  ghost predicate RefusedFor(c: Command, p: ProjectDoc, e: CommandError) {
    var n := |p.operations|;
    match c
    case AddOperation(i, _) => i > n && e == BadOperationIndex(i, n)
    case RemoveOperation(i, _) => i >= n && e == BadOperationIndex(i, n)
    case ModifyOperation(i, _, _) => i >= n && e == BadOperationIndex(i, n)
    case MoveOperation(from, to) => (from >= n || to >= n) && e == BadMove(from, to, n)
    case AddAction(i, _) => i >= n && e == BadOperationIndex(i, n)
    case RemoveAction(i, k, _) =>
      if i >= n then e == BadOperationIndex(i, n) else
      var m := |p.operations[i].actions|;
      if k == 0xFFFF_FFFF_FFFF_FFFF then m == 0 && e == BadActionIndex(0, 0) else k >= m && e == BadActionIndex(k, m)
    case ModifyAction(i, k, _, _) =>
      if i >= n then e == BadOperationIndex(i, n)
      else k >= |p.operations[i].actions| && e == BadActionIndex(k, |p.operations[i].actions|)
    case ModifyProjectMeta(_, _) => false
  }

  lemma RefusedIff(c: Command, p: ProjectDoc, e: CommandError)
    ensures Apply(c, p) == Err(e) <==> RefusedFor(c, p, e)
  {
    hide InsertAt, RemoveAt, WithActions;
  }
}
