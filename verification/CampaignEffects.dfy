/** What each campaign command does to the lists, position by position. */
module CampaignEffects {
  import opened Results
  import opened KeyedList
  import opened ListEdits
  import opened CampaignHistory

  /** The first element with the id stands at `k`. */
  ghost predicate First<T(!new)>(s: seq<T>, key: T -> Uuid, id: Uuid, k: nat) {
    k < |s| && key(s[k]) == id && forall j :: 0 <= j < k ==> key(s[j]) != id
  }

  ghost predicate Absent<T(!new)>(s: seq<T>, key: T -> Uuid, id: Uuid) { forall j :: 0 <= j < |s| ==> key(s[j]) != id }

  /** `t` is `s` without its first element with the id. */
  ghost predicate FirstRemoved<T(!new)>(s: seq<T>, t: seq<T>, key: T -> Uuid, id: Uuid) {
    exists k: nat :: First(s, key, id, k) && Inserted(t, s, k, s[k])
  }

  /** `t` is `s` with its first element with the id replaced by `x`. */
  ghost predicate FirstReplaced<T(!new)>(s: seq<T>, t: seq<T>, key: T -> Uuid, id: Uuid, x: T) {
    exists k: nat :: First(s, key, id, k) && Replaced(s, t, k, x)
  }

  ghost predicate GraphEffect(c: Command, g: Graph, h: Graph)
    requires ActsInGraph(c)
  {
    && h.id == g.id && h.name == g.name && h.entryNode == g.entryNode
    && match c
       case AddNode(_, n) => h.nodes == g.nodes + [n] && h.edges == g.edges
       case RemoveNode(_, n) => FirstRemoved(g.nodes, h.nodes, NodeId, n.id) && h.edges == g.edges
       case ModifyNode(_, before, after) =>
         FirstReplaced(g.nodes, h.nodes, NodeId, before.id, after) && h.edges == g.edges
       case AddEdge(_, e) => h.edges == g.edges + [e] && h.nodes == g.nodes
       case RemoveEdge(_, e) => FirstRemoved(g.edges, h.edges, EdgeId, e.id) && h.nodes == g.nodes
  }

  /** `c` takes `s` to `t`. */
  ghost predicate Effect(c: Command, s: CampaignDoc, t: CampaignDoc) {
    && t.attributes == s.attributes
    && match c
       case AddGraph(g) =>
         Absent(s.graphs, GraphId, g.id) && t.graphs == s.graphs + [g] && t.conditions == s.conditions
       case RemoveGraph(g) => FirstRemoved(s.graphs, t.graphs, GraphId, g.id) && t.conditions == s.conditions
       case AddCondition(d) =>
         Absent(s.conditions, ConditionId, d.id) && t.conditions == s.conditions + [d] && t.graphs == s.graphs
       case RemoveCondition(d) =>
         FirstRemoved(s.conditions, t.conditions, ConditionId, d.id) && t.graphs == s.graphs
       case _ =>
         && t.conditions == s.conditions
         && exists k: nat, h :: First(s.graphs, GraphId, c.graphId, k) && Replaced(s.graphs, t.graphs, k, h)
              && GraphEffect(c, s.graphs[k], h)
  }

  lemma FirstIff<T(!new)>(s: seq<T>, key: T -> Uuid, id: Uuid, k: nat)
    ensures First(s, key, id, k) <==> Position(s, key, id) == Some(k)
    ensures Absent(s, key, id) <==> Position(s, key, id).None?
  {
    hide Position;
    var p := Position(s, key, id);
    if p.Some? { assert !Absent(s, key, id); }
  }

  lemma RemovalIff<T(!new)>(s: seq<T>, t: seq<T>, key: T -> Uuid, id: Uuid)
    ensures FirstRemoved(s, t, key, id) <==>
            Position(s, key, id).Some? && t == Without(s, Position(s, key, id).value)
  {
    hide Position;
    var p := Position(s, key, id);
    if p.Some? {
      FirstIff(s, key, id, p.value);
      if t == Without(s, p.value) { assert Inserted(t, s, p.value, s[p.value]); }
    }
    if k: nat :| First(s, key, id, k) && Inserted(t, s, k, s[k]) {
      FirstIff(s, key, id, k);
      forall i | 0 <= i < |t| ensures t[i] == Without(s, k)[i] { if i >= k { assert s[i + 1] == t[i]; } }
    }
  }

  lemma ReplacementIff<T(!new)>(s: seq<T>, t: seq<T>, key: T -> Uuid, id: Uuid, x: T)
    ensures FirstReplaced(s, t, key, id, x) <==>
            Position(s, key, id).Some? && t == s[Position(s, key, id).value := x]
  {
    hide Position, First;
    var p := Position(s, key, id);
    if p.Some? {
      FirstIff(s, key, id, p.value);
      if t == s[p.value := x] { assert Replaced(s, t, p.value, x); }
    }
    if k: nat :| First(s, key, id, k) && Replaced(s, t, k, x) { FirstIff(s, key, id, k); }
  }

  lemma GraphEffectIff(c: Command, g: Graph, h: Graph)
    requires ActsInGraph(c)
    ensures ApplyInGraph(c, g) == Ok(h) <==> GraphEffect(c, g, h)
  {
    hide Position, Without, FirstRemoved, FirstReplaced;
    match c
    case AddNode(_, _) =>
    case RemoveNode(_, n) => RemovalIff(g.nodes, h.nodes, NodeId, n.id);
    case ModifyNode(_, before, after) => ReplacementIff(g.nodes, h.nodes, NodeId, before.id, after);
    case AddEdge(_, _) =>
    case RemoveEdge(_, e) => RemovalIff(g.edges, h.edges, EdgeId, e.id);
  }

  lemma InGraphEffectIff(c: Command, s: CampaignDoc, t: CampaignDoc)
    requires ActsInGraph(c)
    ensures Apply(c, s) == Ok(t) <==> Effect(c, s, t)
  {
    hide Position, ApplyInGraph, GraphEffect, First;
    var p := Position(s.graphs, GraphId, c.graphId);
    if p.Some? {
      var k := p.value;
      FirstIff(s.graphs, GraphId, c.graphId, k);
      if ApplyInGraph(c, s.graphs[k]).Ok? {
        var h := ApplyInGraph(c, s.graphs[k]).value;
        GraphEffectIff(c, s.graphs[k], h);
        if t.graphs == s.graphs[k := h] { assert Replaced(s.graphs, t.graphs, k, h); }
      }
    }
    if k: nat, h :|
      First(s.graphs, GraphId, c.graphId, k) && Replaced(s.graphs, t.graphs, k, h) && GraphEffect(c, s.graphs[k], h)
    {
      FirstIff(s.graphs, GraphId, c.graphId, k);
      GraphEffectIff(c, s.graphs[k], h);
      assert t.graphs == s.graphs[k := h];
    }
  }

  /** A command takes a campaign to another one exactly as its effect says. */
  lemma AppliesIff(c: Command, s: CampaignDoc, t: CampaignDoc)
    ensures Apply(c, s) == Ok(t) <==> Effect(c, s, t)
  {
    hide Position, Without, FirstRemoved, First;
    match c
    case AddGraph(g) => FirstIff(s.graphs, GraphId, g.id, 0);
    case RemoveGraph(g) => RemovalIff(s.graphs, t.graphs, GraphId, g.id);
    case AddCondition(d) => FirstIff(s.conditions, ConditionId, d.id, 0);
    case RemoveCondition(d) => RemovalIff(s.conditions, t.conditions, ConditionId, d.id);
    case _ => InGraphEffectIff(c, s, t);
  }

  ghost predicate GraphRefuses(c: Command, g: Graph, e: CommandError)
    requires ActsInGraph(c)
  {
    match c
    case RemoveNode(_, n) => Absent(g.nodes, NodeId, n.id) && e == NodeNotFound(n.id)
    case ModifyNode(_, before, _) => Absent(g.nodes, NodeId, before.id) && e == NodeNotFound(before.id)
    case RemoveEdge(_, d) => Absent(g.edges, EdgeId, d.id) && e == EdgeNotFound(d.id)
    case _ => false
  }

  /**
   * A command is refused exactly if an id it needs is missing, or if that of a graph or condition it adds is taken.
   */
  ghost predicate RefusedFor(c: Command, s: CampaignDoc, e: CommandError) {
    match c
    case AddGraph(g) => !Absent(s.graphs, GraphId, g.id) && e == GraphExists(g.id)
    case RemoveGraph(g) => Absent(s.graphs, GraphId, g.id) && e == GraphNotFound(g.id)
    case AddCondition(d) => !Absent(s.conditions, ConditionId, d.id) && e == ConditionExists(d.id)
    case RemoveCondition(d) => Absent(s.conditions, ConditionId, d.id) && e == ConditionNotFound(d.id)
    case _ =>
      || (Absent(s.graphs, GraphId, c.graphId) && e == GraphNotFound(c.graphId))
      || exists k: nat :: First(s.graphs, GraphId, c.graphId, k) && GraphRefuses(c, s.graphs[k], e)
  }

  lemma GraphRefusesIff(c: Command, g: Graph, e: CommandError)
    requires ActsInGraph(c)
    ensures ApplyInGraph(c, g) == Err(e) <==> GraphRefuses(c, g, e)
  {
    hide Position, Absent;
    match c
    case RemoveNode(_, n) => FirstIff(g.nodes, NodeId, n.id, 0);
    case ModifyNode(_, before, _) => FirstIff(g.nodes, NodeId, before.id, 0);
    case RemoveEdge(_, d) => FirstIff(g.edges, EdgeId, d.id, 0);
    case _ =>
  }

  lemma InGraphRefusedIff(c: Command, s: CampaignDoc, e: CommandError)
    requires ActsInGraph(c)
    ensures Apply(c, s) == Err(e) <==> RefusedFor(c, s, e)
  {
    hide Position, ApplyInGraph, GraphRefuses, Absent;
    var p := Position(s.graphs, GraphId, c.graphId);
    FirstIff(s.graphs, GraphId, c.graphId, 0);
    if p.Some? {
      FirstIff(s.graphs, GraphId, c.graphId, p.value);
      GraphRefusesIff(c, s.graphs[p.value], e);
    }
    if k: nat :| First(s.graphs, GraphId, c.graphId, k) && GraphRefuses(c, s.graphs[k], e) {
      FirstIff(s.graphs, GraphId, c.graphId, k);
    }
  }

  lemma RefusedIff(c: Command, s: CampaignDoc, e: CommandError)
    ensures Apply(c, s) == Err(e) <==> RefusedFor(c, s, e)
  {
    hide Position, Without, First, Absent;
    match c
    case AddGraph(g) => FirstIff(s.graphs, GraphId, g.id, 0);
    case RemoveGraph(g) => FirstIff(s.graphs, GraphId, g.id, 0);
    case AddCondition(d) => FirstIff(s.conditions, ConditionId, d.id, 0);
    case RemoveCondition(d) => FirstIff(s.conditions, ConditionId, d.id, 0);
    case _ => InGraphRefusedIff(c, s, e);
  }
}
