/** When undoing a campaign command restores the campaign up to the order of its lists. */
module CampaignUndo {
  import opened Results
  import opened KeyedList
  import opened CampaignHistory

  // Campaigns up to order

  /** A graph without the order of its lists. */
  datatype GraphBag = GraphBag(id: Uuid, name: string, entryNode: Uuid, nodes: multiset<Node>, edges: multiset<Edge>)

  function Bag(g: Graph): GraphBag { GraphBag(g.id, g.name, g.entryNode, multiset(g.nodes), multiset(g.edges)) }

  function BagId(b: GraphBag): Uuid { b.id }

  function Bags(gs: seq<Graph>): (bs: seq<GraphBag>)
    ensures |bs| == |gs| && forall i :: 0 <= i < |gs| ==> bs[i] == Bag(gs[i])
  {
    seq(|gs|, i requires 0 <= i < |gs| => Bag(gs[i]))
  }

  /** Equal up to the order of graphs, of the nodes and edges in each graph, and of conditions. */
  ghost predicate SameUpToOrder(s: CampaignDoc, t: CampaignDoc) {
    && multiset(Bags(s.graphs)) == multiset(Bags(t.graphs))
    && multiset(s.conditions) == multiset(t.conditions)
    && s.attributes == t.attributes
  }

  lemma BagIffAbs(g: Graph, h: Graph)
    requires UniqueGraph(g) && UniqueGraph(h) && g.id == h.id
    ensures Bag(g) == Bag(h) <==> AbsGraph(g) == AbsGraph(h)
  {
    hide ToMap;
    SameMapIffPermutation(g.nodes, h.nodes, NodeId);
    SameMapIffPermutation(g.edges, h.edges, EdgeId);
  }

  ghost function BagMap(m: map<Uuid, Graph>): map<Uuid, GraphBag> { map id | id in m :: Bag(m[id]) }

  /** The bags of a list with unique ids, as a map. */
  lemma BagsMap(gs: seq<Graph>)
    requires Unique(gs, GraphId)
    ensures Unique(Bags(gs), BagId) && ToMap(Bags(gs), BagId) == BagMap(ToMap(gs, GraphId))
  {
    hide ToMap;
    ToMapRepresents(gs, GraphId);
    var bs, m := Bags(gs), ToMap(gs, GraphId);
    forall i | 0 <= i < |bs| ensures BagId(bs[i]) in BagMap(m) && BagMap(m)[BagId(bs[i])] == bs[i] {
      assert GraphId(gs[i]) in m;
    }
    forall id | id in BagMap(m) ensures HasId(bs, BagId, id) {
      var i :| 0 <= i < |gs| && GraphId(gs[i]) == id;
      assert BagId(bs[i]) == id;
    }
    forall i, j | 0 <= i < j < |bs| ensures BagId(bs[i]) != BagId(bs[j]) {
      assert GraphId(gs[i]) != GraphId(gs[j]);
    }
    MapOf(bs, BagId, BagMap(m));
  }

  lemma UniqueIn(gs: seq<Graph>, id: Uuid)
    requires Unique(gs, GraphId) && (forall i :: 0 <= i < |gs| ==> UniqueGraph(gs[i])) && id in ToMap(gs, GraphId)
    ensures UniqueGraph(ToMap(gs, GraphId)[id]) && ToMap(gs, GraphId)[id].id == id
  {
    hide ToMap, UniqueGraph;
    ToMapRepresents(gs, GraphId);
    var i :| 0 <= i < |gs| && GraphId(gs[i]) == id;
  }

  lemma GraphMapsAgree(gs: seq<Graph>, hs: seq<Graph>)
    requires Unique(gs, GraphId) && forall i :: 0 <= i < |gs| ==> UniqueGraph(gs[i])
    requires Unique(hs, GraphId) && forall i :: 0 <= i < |hs| ==> UniqueGraph(hs[i])
    ensures BagMap(ToMap(gs, GraphId)) == BagMap(ToMap(hs, GraphId)) <==>
            AbsGraphs(ToMap(gs, GraphId)) == AbsGraphs(ToMap(hs, GraphId))
  {
    hide ToMap, UniqueGraph, Bag, AbsGraph;
    var m, n := ToMap(gs, GraphId), ToMap(hs, GraphId);
    assert BagMap(m).Keys == m.Keys == AbsGraphs(m).Keys && BagMap(n).Keys == n.Keys == AbsGraphs(n).Keys;
    forall id | id in m && id in n ensures Bag(m[id]) == Bag(n[id]) <==> AbsGraph(m[id]) == AbsGraph(n[id]) {
      UniqueIn(gs, id);
      UniqueIn(hs, id);
      BagIffAbs(m[id], n[id]);
    }
    if AbsGraphs(m) == AbsGraphs(n) {
      assert m.Keys == n.Keys;
      forall id | id in m ensures Bag(m[id]) == Bag(n[id]) {
        assert AbsGraphs(m)[id] == AbsGraphs(n)[id];
      }
    }
    if BagMap(m) == BagMap(n) {
      assert m.Keys == n.Keys;
      forall id | id in m ensures AbsGraph(m[id]) == AbsGraph(n[id]) {
        assert BagMap(m)[id] == BagMap(n)[id];
      }
    }
  }

  /** The map by id forgets the order of the lists and nothing else. */
  lemma AbsIsUpToOrder(s: CampaignDoc, t: CampaignDoc)
    requires UniqueIds(s) && UniqueIds(t)
    ensures Abs(s) == Abs(t) <==> SameUpToOrder(s, t)
  {
    hide ToMap, UniqueGraph, AbsGraphs, BagMap, Bags;
    BagsMap(s.graphs);
    BagsMap(t.graphs);
    GraphMapsAgree(s.graphs, t.graphs);
    SameMapIffPermutation(Bags(s.graphs), Bags(t.graphs), BagId);
    SameMapIffPermutation(s.conditions, t.conditions, ConditionId);
  }

  // Undoing on one list

  lemma SwapOne<T>(a: multiset<T>, b: multiset<T>, x: T, y: T)
    requires a + multiset{x} == b + multiset{y}
    ensures a == b <==> x == y
  {
    if a == b { assert (a + multiset{x})[x] == (b + multiset{y})[x]; }
    if x == y { assert a == (a + multiset{x}) - multiset{x} == b; }
  }

  /** Appending an element and removing the first one with its id. */
  lemma AppendThenRemoveFirst<T>(s: seq<T>, key: T -> Uuid, x: T)
    ensures Position(s + [x], key, key(x)).Some?
    ensures var after := Without(s + [x], Position(s + [x], key, key(x)).value);
            multiset(after) == multiset(s) <==> var p := Position(s, key, key(x)); p.None? || s[p.value] == x
  {
    hide Position, Without;
    var longer := s + [x];
    assert longer[|s|] == x;
    assert forall i :: 0 <= i < |s| ==> longer[i] == s[i];
    var k := Position(longer, key, key(x)).value;
    var p := Position(s, key, key(x));
    assert longer[k] == if p.Some? then s[p.value] else x;
    MultisetWithout(longer, k);
    SwapOne(multiset(s), multiset(Without(longer, k)), x, longer[k]);
  }

  /** Removing the element at a position and appending another. */
  lemma RemoveThenAppend<T>(s: seq<T>, k: nat, x: T)
    requires k < |s|
    ensures multiset(Without(s, k) + [x]) == multiset(s) <==> s[k] == x
  {
    hide Without;
    MultisetWithout(s, k);
    SwapOne(multiset(Without(s, k)) + multiset{x}, multiset(s), s[k], x);
  }

  lemma ReplaceOne<T>(s: seq<T>, k: nat, x: T)
    requires k < |s|
    ensures multiset(s[k := x]) == multiset(s) <==> s[k] == x
    ensures multiset(s[k := x]) + multiset{s[k]} == multiset(s) + multiset{x}
  {
    assert s == s[..k] + [s[k]] + s[k + 1..] && s[k := x] == s[..k] + [x] + s[k + 1..];
    SwapOne(multiset(s[k := x]), multiset(s), s[k], x);
  }

  /**
   * Replacing the first element with the id of `before` by `after`, and then the first one with the id of `after` by
   * `before`. An earlier element with the id of `after` is overwritten unless it equals `after`.
   */
  lemma ReplaceAndBack<T>(s: seq<T>, key: T -> Uuid, before: T, after: T)
    requires Position(s, key, key(before)).Some?
    ensures var k := Position(s, key, key(before)).value;
            var q := Position(s[k := after], key, key(after));
            q.Some? &&
            (multiset(s[k := after][q.value := before]) == multiset(s) <==>
             s[k] == before && var e := Position(s[..k], key, key(after)); e.None? || s[e.value] == after)
  {
    hide Position;
    var k := Position(s, key, key(before)).value;
    var changed := s[k := after];
    assert changed[k] == after;
    var q := Position(changed, key, key(after)).value;
    var e := Position(s[..k], key, key(after));
    assert forall i :: 0 <= i < k ==> s[..k][i] == s[i] == changed[i];
    if q == k {
      assert e.None?;
      assert changed[k := before] == s[k := before];
      ReplaceOne(s, k, before);
    } else {
      assert q < k && e == Some(q);
      ReplaceOne(s, k, after);
      ReplaceOne(changed, q, before);
      TwoReplaced(multiset(s), multiset(changed[q := before]), s[k], s[q], before, after);
    }
  }

  lemma TwoReplaced<T>(s: multiset<T>, t: multiset<T>, x: T, y: T, before: T, after: T)
    requires t + multiset{y} + multiset{x} == s + multiset{after} + multiset{before}
    requires x != after
    ensures t == s <==> x == before && y == after
  {
    if x == before {
      assert t + multiset{y} == (t + multiset{y} + multiset{x}) - multiset{x} == s + multiset{after};
      SwapOne(t, s, y, after);
    } else {
      assert (t + multiset{y} + multiset{x})[x] >= t[x] + 1;
      assert (s + multiset{after} + multiset{before})[x] == s[x];
    }
  }

  // Undoing in a campaign

  /** What a caller can check in the graph before a command to know that undo restores the graph. */
  predicate UndoableInGraph(c: Command, g: Graph)
    requires ActsInGraph(c)
  {
    match c
    case AddNode(_, n) => (var p := Position(g.nodes, NodeId, n.id); p.None? || g.nodes[p.value] == n)
    case RemoveNode(_, n) => (var p := Position(g.nodes, NodeId, n.id); p.Some? && g.nodes[p.value] == n)
    case ModifyNode(_, before, after) =>
      (var p := Position(g.nodes, NodeId, before.id);
       p.Some? && g.nodes[p.value] == before &&
       var e := Position(g.nodes[..p.value], NodeId, after.id); e.None? || g.nodes[e.value] == after)
    case AddEdge(_, e) => (var p := Position(g.edges, EdgeId, e.id); p.None? || g.edges[p.value] == e)
    case RemoveEdge(_, e) => (var p := Position(g.edges, EdgeId, e.id); p.Some? && g.edges[p.value] == e)
  }

  /** The same for a campaign: added ids are free or taken by an equal element, and snapshots are current. */
  predicate Undoable(c: Command, s: CampaignDoc) {
    match c
    case AddGraph(_) => true
    case AddCondition(_) => true
    case RemoveGraph(g) =>
      (var p := Position(s.graphs, GraphId, g.id); p.Some? && Bag(s.graphs[p.value]) == Bag(g))
    case RemoveCondition(d) =>
      (var p := Position(s.conditions, ConditionId, d.id); p.Some? && s.conditions[p.value] == d)
    case _ => (var p := Position(s.graphs, GraphId, c.graphId); p.Some? && UndoableInGraph(c, s.graphs[p.value]))
  }

  /** `c` applied to `g` and undone: the undo applies, and restores the graph up to order iff `undoable`. */
  ghost predicate UndoneIff(c: Command, g: Graph, undoable: bool)
    requires ActsInGraph(c)
  {
    ApplyInGraph(c, g).Ok? ==>
      var h := ApplyInGraph(c, g).value;
      var back := ApplyInGraph(Inverse(c), h);
      h.id == g.id && back.Ok? && back.value.id == g.id && (Bag(back.value) == Bag(g) <==> undoable)
  }

  lemma AddUndoIff(c: Command, g: Graph)
    requires c.AddNode? || c.AddEdge?
    ensures UndoneIff(c, g, UndoableInGraph(c, g))
  {
    hide Position, Without;
    if c.AddNode? { AppendThenRemoveFirst(g.nodes, NodeId, c.node); }
    else { AppendThenRemoveFirst(g.edges, EdgeId, c.edge); }
  }

  lemma RemoveUndoIff(c: Command, g: Graph)
    requires c.RemoveNode? || c.RemoveEdge?
    ensures UndoneIff(c, g, UndoableInGraph(c, g))
  {
    hide Position, Without;
    if c.RemoveNode? {
      var k := Position(g.nodes, NodeId, c.node.id);
      if k.Some? { RemoveThenAppend(g.nodes, k.value, c.node); }
    } else {
      var k := Position(g.edges, EdgeId, c.edge.id);
      if k.Some? { RemoveThenAppend(g.edges, k.value, c.edge); }
    }
  }

  lemma ModifyUndoIff(c: Command, g: Graph)
    requires c.ModifyNode?
    ensures UndoneIff(c, g, UndoableInGraph(c, g))
  {
    hide Position, Without;
    if Position(g.nodes, NodeId, c.oldNode.id).Some? { ReplaceAndBack(g.nodes, NodeId, c.oldNode, c.newNode); }
  }

  lemma GraphUndoIff(c: Command, g: Graph)
    requires ActsInGraph(c)
    ensures UndoneIff(c, g, UndoableInGraph(c, g))
  {
    hide UndoneIff, UndoableInGraph;
    if c.AddNode? || c.AddEdge? { AddUndoIff(c, g); }
    else if c.RemoveNode? || c.RemoveEdge? { RemoveUndoIff(c, g); }
    else { ModifyUndoIff(c, g); }
  }

  /**
   * On a campaign with unique ids, the inverse of a command that applies applies as well, and it restores the
   * campaign up to order if and only if the command was undoable.
   */
  lemma UndoIff(c: Command, s: CampaignDoc)
    requires UniqueIds(s) && Apply(c, s).Ok?
    ensures var t := Apply(c, s).value;
            Apply(Inverse(c), t).Ok? && (SameUpToOrder(Apply(Inverse(c), t).value, s) <==> Undoable(c, s))
  {
    if ActsInGraph(c) {
      UndoInGraphIff(c, s);
    } else if c.AddGraph? || c.RemoveGraph? {
      UndoGraphIff(c, s);
    } else {
      UndoConditionIff(c, s);
    }
  }

  lemma PositionKept<T>(s: seq<T>, key: T -> Uuid, id: Uuid, x: T)
    requires Position(s, key, id).Some? && key(x) == id
    ensures Position(s[Position(s, key, id).value := x], key, id) == Position(s, key, id)
  {
    hide Position;
    var k := Position(s, key, id).value;
    assert s[k := x][k] == x;
  }

  lemma BagsReplaced(gs: seq<Graph>, k: nat, g: Graph)
    requires k < |gs|
    ensures multiset(Bags(gs[k := g])) == multiset(Bags(gs)) <==> Bag(g) == Bag(gs[k])
  {
    hide Bag;
    assert Bags(gs[k := g]) == Bags(gs)[k := Bag(g)];
    ReplaceOne(Bags(gs), k, Bag(g));
  }

  lemma UndoInGraphIff(c: Command, s: CampaignDoc)
    requires ActsInGraph(c) && Apply(c, s).Ok?
    ensures var t := Apply(c, s).value;
            Apply(Inverse(c), t).Ok? && (SameUpToOrder(Apply(Inverse(c), t).value, s) <==> Undoable(c, s))
  {
    hide Position, ApplyInGraph, UndoableInGraph, Bags, Bag;
    var k := Position(s.graphs, GraphId, c.graphId).value;
    var g := s.graphs[k];
    GraphUndoIff(c, g);
    var h := ApplyInGraph(c, g).value;
    PositionKept(s.graphs, GraphId, c.graphId, h);
    var back := ApplyInGraph(Inverse(c), h).value;
    assert s.graphs[k := h][k := back] == s.graphs[k := back];
    BagsReplaced(s.graphs, k, back);
  }

  lemma WithoutHasNot<T>(s: seq<T>, key: T -> Uuid, id: Uuid)
    requires Unique(s, key) && Position(s, key, id).Some?
    ensures Position(Without(s, Position(s, key, id).value), key, id).None?
  {
    hide Without, Position;
    UniqueWithout(s, key, Position(s, key, id).value);
    WithoutAt(s, Position(s, key, id).value);
  }

  lemma LastPosition<T>(s: seq<T>, key: T -> Uuid, x: T)
    requires Position(s, key, key(x)).None?
    ensures Position(s + [x], key, key(x)) == Some(|s|) && Without(s + [x], |s|) == s
  {
    hide Position;
    assert (s + [x])[|s|] == x;
    assert forall i :: 0 <= i < |s| ==> (s + [x])[i] == s[i];
  }

  lemma UndoGraphIff(c: Command, s: CampaignDoc)
    requires UniqueIds(s) && (c.AddGraph? || c.RemoveGraph?) && Apply(c, s).Ok?
    ensures var t := Apply(c, s).value;
            Apply(Inverse(c), t).Ok? && (SameUpToOrder(Apply(Inverse(c), t).value, s) <==> Undoable(c, s))
  {
    hide Position, Without, Bag, UniqueGraph;
    var g := c.graph;
    if c.AddGraph? {
      LastPosition(s.graphs, GraphId, g);
    } else {
      var k := Position(s.graphs, GraphId, g.id).value;
      WithoutHasNot(s.graphs, GraphId, g.id);
      var kept := Without(s.graphs, k);
      BagsWithout(s.graphs, k);
      assert Bags(kept + [g]) == Bags(kept) + [Bag(g)];
      RemoveThenAppend(Bags(s.graphs), k, Bag(g));
    }
  }

  lemma BagsWithout(gs: seq<Graph>, k: nat)
    requires k < |gs|
    ensures Bags(Without(gs, k)) == Without(Bags(gs), k)
  {
    hide Bag, Without;
    WithoutAt(gs, k);
    WithoutAt(Bags(gs), k);
  }

  lemma UndoConditionIff(c: Command, s: CampaignDoc)
    requires UniqueIds(s) && (c.AddCondition? || c.RemoveCondition?) && Apply(c, s).Ok?
    ensures var t := Apply(c, s).value;
            Apply(Inverse(c), t).Ok? && (SameUpToOrder(Apply(Inverse(c), t).value, s) <==> Undoable(c, s))
  {
    hide Position, Without, Bags, UniqueGraph;
    var d := c.condition;
    if c.AddCondition? {
      LastPosition(s.conditions, ConditionId, d);
    } else {
      var k := Position(s.conditions, ConditionId, d.id).value;
      WithoutHasNot(s.conditions, ConditionId, d.id);
      RemoveThenAppend(s.conditions, k, d);
    }
  }

  // Inputs on which undo does not restore the campaign

  /** The command applies, its undo applies, and the campaign is not the one before. */
  ghost predicate UndoLoses(c: Command, s: CampaignDoc) {
    && UniqueIds(s) && Apply(c, s).Ok? && Apply(Inverse(c), Apply(c, s).value).Ok?
    && !SameUpToOrder(Apply(Inverse(c), Apply(c, s).value).value, s)
  }

  /** One graph with id 7 that holds two nodes and an edge. */
  function Demo(): CampaignDoc {
    var nodes := [Node(1, "accept", ""), Node(2, "turn in", "")];
    CampaignDoc([Graph(7, "demo", 1, nodes, [Edge(5, 1, 2, None)])], [], "")
  }

  lemma DemoIsUnique()
    ensures UniqueIds(Demo())
    ensures Position(Demo().graphs, GraphId, 7) == Some(0)
    ensures var g := Demo().graphs[0];
            && Position(g.nodes, NodeId, 1) == Some(0) && Position(g.nodes, NodeId, 2) == Some(1)
            && Position(g.nodes[..1], NodeId, 1) == Some(0) && Position(g.edges, EdgeId, 5) == Some(0)
  {
    var g := Demo().graphs[0];
    assert g.nodes[0].id == 1 && g.nodes[1].id == 2 && g.nodes[..1] == [g.nodes[0]];
  }

  /** A node added under a taken id: undo removes the older node. */
  lemma DuplicateNodeIsNotUndone()
    ensures UndoLoses(AddNode(7, Node(1, "", "")), Demo())
  {
    hide UniqueIds, Position;
    DemoIsUnique();
    assert |Demo().graphs[0].nodes[0].nodeType| > 0;
    UndoIff(AddNode(7, Node(1, "", "")), Demo());
  }

  /** An edge added under a taken id: undo removes the older edge. */
  lemma DuplicateEdgeIsNotUndone()
    ensures UndoLoses(AddEdge(7, Edge(5, 2, 1, None)), Demo())
  {
    hide UniqueIds, Position;
    DemoIsUnique();
    UndoIff(AddEdge(7, Edge(5, 2, 1, None)), Demo());
  }

  /** A node that takes over the id of an earlier one: undo overwrites the earlier node. */
  lemma TakenOverIdIsNotUndone()
    ensures UndoLoses(ModifyNode(7, Demo().graphs[0].nodes[1], Node(1, "", "")), Demo())
  {
    hide UniqueIds, Position;
    DemoIsUnique();
    assert |Demo().graphs[0].nodes[0].nodeType| > 0;
    UndoIff(ModifyNode(7, Demo().graphs[0].nodes[1], Node(1, "", "")), Demo());
  }
}
