/** Undo/redo of the campaign editor: id-based commands on lists, refining maps by id. */
module CampaignHistory {
  import opened Results
  import opened KeyedList
  import opened HistoryMachine

  // Commands find nodes, edges, graphs and conditions by id, and undoing a removal appends, so list order is not
  // restored. The lists refine maps by id, and on maps every inverse is exact.

  datatype Node = Node(id: Uuid, nodeType: string, intent: string)

  datatype Edge = Edge(id: Uuid, from: Uuid, to: Uuid, guard: Option<Uuid>)

  datatype Graph = Graph(id: Uuid, name: string, entryNode: Uuid, nodes: seq<Node>, edges: seq<Edge>)

  datatype ConditionDef = ConditionDef(id: Uuid, condition: string)

  datatype CampaignDoc = CampaignDoc(graphs: seq<Graph>, conditions: seq<ConditionDef>, attributes: string)

  datatype Command =
    | AddNode(graphId: Uuid, node: Node)
    | RemoveNode(graphId: Uuid, node: Node)
    | ModifyNode(graphId: Uuid, oldNode: Node, newNode: Node)
    | AddEdge(graphId: Uuid, edge: Edge)
    | RemoveEdge(graphId: Uuid, edge: Edge)
    | AddGraph(graph: Graph)
    | RemoveGraph(graph: Graph)
    | AddCondition(condition: ConditionDef)
    | RemoveCondition(condition: ConditionDef)

  datatype CommandError =
    | GraphNotFound(id: Uuid)
    | NodeNotFound(id: Uuid)
    | EdgeNotFound(id: Uuid)
    | GraphExists(id: Uuid)
    | ConditionExists(id: Uuid)
    | ConditionNotFound(id: Uuid)

  function NodeId(n: Node): Uuid { n.id }

  function EdgeId(e: Edge): Uuid { e.id }

  function GraphId(g: Graph): Uuid { g.id }

  function ConditionId(c: ConditionDef): Uuid { c.id }

  function Inverse(c: Command): Command {
    match c
    case AddNode(g, n) => RemoveNode(g, n)
    case RemoveNode(g, n) => AddNode(g, n)
    case ModifyNode(g, before, after) => ModifyNode(g, after, before)
    case AddEdge(g, e) => RemoveEdge(g, e)
    case RemoveEdge(g, e) => AddEdge(g, e)
    case AddGraph(g) => RemoveGraph(g)
    case RemoveGraph(g) => AddGraph(g)
    case AddCondition(d) => RemoveCondition(d)
    case RemoveCondition(d) => AddCondition(d)
  }

  // The commands on lists

  predicate ActsInGraph(c: Command) {
    c.AddNode? || c.RemoveNode? || c.ModifyNode? || c.AddEdge? || c.RemoveEdge?
  }

  /** The part of a command that acts inside the graph it names. */
  function ApplyInGraph(c: Command, g: Graph): Result<Graph, CommandError>
    requires ActsInGraph(c)
  {
    match c
    case AddNode(_, n) => Ok(g.(nodes := g.nodes + [n]))
    case RemoveNode(_, n) =>
      (match Position(g.nodes, NodeId, n.id)
       case None => Err(NodeNotFound(n.id))
       case Some(k) => Ok(g.(nodes := Without(g.nodes, k))))
    case ModifyNode(_, before, after) =>
      (match Position(g.nodes, NodeId, before.id)
       case None => Err(NodeNotFound(before.id))
       case Some(k) => Ok(g.(nodes := g.nodes[k := after])))
    case AddEdge(_, e) => Ok(g.(edges := g.edges + [e]))
    case RemoveEdge(_, e) =>
      (match Position(g.edges, EdgeId, e.id)
       case None => Err(EdgeNotFound(e.id))
       case Some(k) => Ok(g.(edges := Without(g.edges, k))))
  }

  function Apply(c: Command, s: CampaignDoc): Result<CampaignDoc, CommandError> {
    match c
    case AddGraph(g) =>
      if Position(s.graphs, GraphId, g.id).Some? then Err(GraphExists(g.id)) else Ok(s.(graphs := s.graphs + [g]))
    case RemoveGraph(g) =>
      (match Position(s.graphs, GraphId, g.id)
       case None => Err(GraphNotFound(g.id))
       case Some(k) => Ok(s.(graphs := Without(s.graphs, k))))
    case AddCondition(d) =>
      if Position(s.conditions, ConditionId, d.id).Some? then Err(ConditionExists(d.id))
      else Ok(s.(conditions := s.conditions + [d]))
    case RemoveCondition(d) =>
      (match Position(s.conditions, ConditionId, d.id)
       case None => Err(ConditionNotFound(d.id))
       case Some(k) => Ok(s.(conditions := Without(s.conditions, k))))
    case _ =>
      match Position(s.graphs, GraphId, c.graphId)
      case None => Err(GraphNotFound(c.graphId))
      case Some(k) =>
        match ApplyInGraph(c, s.graphs[k])
        case Err(e) => Err(e)
        case Ok(g) => Ok(s.(graphs := s.graphs[k := g]))
  }

  function CampaignMachine(): Machine<CampaignDoc, Command, CommandError> { Machine(Apply, Inverse) }

  // The commands on maps

  datatype GraphMap = GraphMap(name: string, entryNode: Uuid, nodes: map<Uuid, Node>, edges: map<Uuid, Edge>)

  datatype CampaignMap = CampaignMap(graphs: map<Uuid, GraphMap>, conditions: map<Uuid, ConditionDef>,
                                     attributes: string)

  function AbsGraph(g: Graph): GraphMap {
    GraphMap(g.name, g.entryNode, ToMap(g.nodes, NodeId), ToMap(g.edges, EdgeId))
  }

  function AbsGraphs(m: map<Uuid, Graph>): map<Uuid, GraphMap> { map id | id in m :: AbsGraph(m[id]) }

  function Abs(s: CampaignDoc): CampaignMap {
    CampaignMap(AbsGraphs(ToMap(s.graphs, GraphId)), ToMap(s.conditions, ConditionId), s.attributes)
  }

  function MapApplyInGraph(c: Command, g: GraphMap): Result<GraphMap, CommandError>
    requires ActsInGraph(c)
  {
    match c
    case AddNode(_, n) => Ok(g.(nodes := g.nodes[n.id := n]))
    case RemoveNode(_, n) =>
      if n.id !in g.nodes then Err(NodeNotFound(n.id)) else Ok(g.(nodes := g.nodes - {n.id}))
    case ModifyNode(_, before, after) =>
      if before.id !in g.nodes then Err(NodeNotFound(before.id))
      else Ok(g.(nodes := (g.nodes - {before.id})[after.id := after]))
    case AddEdge(_, e) => Ok(g.(edges := g.edges[e.id := e]))
    case RemoveEdge(_, e) =>
      if e.id !in g.edges then Err(EdgeNotFound(e.id)) else Ok(g.(edges := g.edges - {e.id}))
  }

  function MapApply(c: Command, a: CampaignMap): Result<CampaignMap, CommandError> {
    match c
    case AddGraph(g) =>
      if g.id in a.graphs then Err(GraphExists(g.id)) else Ok(a.(graphs := a.graphs[g.id := AbsGraph(g)]))
    case RemoveGraph(g) =>
      if g.id !in a.graphs then Err(GraphNotFound(g.id)) else Ok(a.(graphs := a.graphs - {g.id}))
    case AddCondition(d) =>
      if d.id in a.conditions then Err(ConditionExists(d.id)) else Ok(a.(conditions := a.conditions[d.id := d]))
    case RemoveCondition(d) =>
      if d.id !in a.conditions then Err(ConditionNotFound(d.id)) else Ok(a.(conditions := a.conditions - {d.id}))
    case _ =>
      if c.graphId !in a.graphs then Err(GraphNotFound(c.graphId)) else
      match MapApplyInGraph(c, a.graphs[c.graphId])
      case Err(e) => Err(e)
      case Ok(g) => Ok(a.(graphs := a.graphs[c.graphId := g]))
  }

  function MapMachine(): Machine<CampaignMap, Command, CommandError> { Machine(MapApply, Inverse) }

  ghost predicate UniqueGraph(g: Graph) { Unique(g.nodes, NodeId) && Unique(g.edges, EdgeId) }

  ghost predicate UniqueIds(s: CampaignDoc) {
    && Unique(s.graphs, GraphId) && Unique(s.conditions, ConditionId)
    && forall i :: 0 <= i < |s.graphs| ==> UniqueGraph(s.graphs[i])
  }

  ghost predicate FaithfulInGraph(c: Command, g: GraphMap)
    requires ActsInGraph(c)
  {
    match c
    case AddNode(_, n) => n.id !in g.nodes
    case RemoveNode(_, n) => n.id in g.nodes && g.nodes[n.id] == n
    case ModifyNode(_, before, after) =>
      before.id in g.nodes && g.nodes[before.id] == before && (after.id == before.id || after.id !in g.nodes)
    case AddEdge(_, e) => e.id !in g.edges
    case RemoveEdge(_, e) => e.id in g.edges && g.edges[e.id] == e
  }

  /** Added ids are fresh and snapshots are those of the campaign. */
  ghost predicate Faithful(c: Command, a: CampaignMap) {
    match c
    case AddGraph(g) => UniqueGraph(g)
    case RemoveGraph(g) => UniqueGraph(g) && g.id in a.graphs && a.graphs[g.id] == AbsGraph(g)
    case AddCondition(_) => true
    case RemoveCondition(d) => d.id in a.conditions && a.conditions[d.id] == d
    case _ => c.graphId in a.graphs && FaithfulInGraph(c, a.graphs[c.graphId])
  }

  ghost predicate ListFaithful(c: Command, s: CampaignDoc) { Faithful(c, Abs(s)) }

  // On maps the inverses are exact.

  lemma GraphInverse(c: Command, g: GraphMap)
    requires ActsInGraph(c)
    requires FaithfulInGraph(c, g)
    ensures MapApplyInGraph(c, g).Ok?
    ensures var h := MapApplyInGraph(c, g).value;
            MapApplyInGraph(Inverse(c), h) == Ok(g) && FaithfulInGraph(Inverse(c), h)
  {
    var h := MapApplyInGraph(c, g).value;
    var back := MapApplyInGraph(Inverse(c), h);
    assert back.value.nodes == g.nodes && back.value.edges == g.edges;
  }

  lemma MapInverse(c: Command, a: CampaignMap)
    requires Faithful(c, a) && MapApply(c, a).Ok?
    ensures var b := MapApply(c, a).value; MapApply(Inverse(c), b) == Ok(a) && Faithful(Inverse(c), b)
  {
    var b := MapApply(c, a).value;
    match c
    case AddGraph(g) => assert (a.graphs[g.id := AbsGraph(g)]) - {g.id} == a.graphs;
    case RemoveGraph(g) => assert (a.graphs - {g.id})[g.id := AbsGraph(g)] == a.graphs;
    case AddCondition(d) => assert (a.conditions[d.id := d]) - {d.id} == a.conditions;
    case RemoveCondition(d) => assert (a.conditions - {d.id})[d.id := d] == a.conditions;
    case _ =>
      var g := a.graphs[c.graphId];
      GraphInverse(c, g);
      assert a.graphs[c.graphId := MapApplyInGraph(c, g).value][c.graphId := g] == a.graphs;
  }

  lemma MapExact()
    ensures Exact(MapMachine(), Faithful)
  {
    forall c, a | Faithful(c, a) && MapApply(c, a).Ok?
      ensures MapApply(Inverse(c), MapApply(c, a).value) == Ok(a)
    {
      MapInverse(c, a);
    }
  }

  // The lists refine the maps.

  lemma GraphRefines(c: Command, g: Graph)
    requires ActsInGraph(c)
    requires UniqueGraph(g)
    requires ApplyInGraph(c, g).Ok? ==> FaithfulInGraph(c, AbsGraph(g))
    ensures match ApplyInGraph(c, g)
            case Err(e) => MapApplyInGraph(c, AbsGraph(g)) == Err(e)
            case Ok(h) => UniqueGraph(h) && h.id == g.id && MapApplyInGraph(c, AbsGraph(g)) == Ok(AbsGraph(h))
  {
    hide ToMap;
    match c
    case AddNode(_, n) => PushRefines(g.nodes, NodeId, n);
    case RemoveNode(_, n) =>
      PositionIff(g.nodes, NodeId, n.id);
      var p := Position(g.nodes, NodeId, n.id);
      if p.Some? { RemoveRefines(g.nodes, NodeId, p.value); }
    case ModifyNode(_, before, after) =>
      PositionIff(g.nodes, NodeId, before.id);
      var p := Position(g.nodes, NodeId, before.id);
      if p.Some? { UpdateRefines(g.nodes, NodeId, p.value, after); }
    case AddEdge(_, e) => PushRefines(g.edges, EdgeId, e);
    case RemoveEdge(_, e) =>
      PositionIff(g.edges, EdgeId, e.id);
      var p := Position(g.edges, EdgeId, e.id);
      if p.Some? { RemoveRefines(g.edges, EdgeId, p.value); }
  }

  /** What a list-based command does agrees with the map-based one, refusals included. */
  ghost predicate Refined(r: Result<CampaignDoc, CommandError>, m: Result<CampaignMap, CommandError>) {
    match r
    case Err(e) => m == Err(e)
    case Ok(t) => UniqueIds(t) && m == Ok(Abs(t))
  }

  lemma InGraphRefines(c: Command, s: CampaignDoc)
    requires ActsInGraph(c)
    requires UniqueIds(s) && (Apply(c, s).Ok? ==> ListFaithful(c, s))
    ensures Refined(Apply(c, s), MapApply(c, Abs(s)))
  {
    hide ToMap, ApplyInGraph, MapApplyInGraph;
    PositionIff(s.graphs, GraphId, c.graphId);
    var p := Position(s.graphs, GraphId, c.graphId);
    if p.Some? {
      var g := s.graphs[p.value];
      GraphRefines(c, g);
      if ApplyInGraph(c, g).Ok? {
        var h := ApplyInGraph(c, g).value;
        UpdateRefines(s.graphs, GraphId, p.value, h);
        assert AbsGraphs((ToMap(s.graphs, GraphId) - {g.id})[g.id := h]) == Abs(s).graphs[g.id := AbsGraph(h)];
      }
    }
  }

  lemma GraphsRefine(c: Command, s: CampaignDoc)
    requires UniqueIds(s) && (c.AddGraph? || c.RemoveGraph?) && (Apply(c, s).Ok? ==> ListFaithful(c, s))
    ensures Refined(Apply(c, s), MapApply(c, Abs(s)))
  {
    hide ToMap, Without, Position;
    var g := c.graph;
    PositionIff(s.graphs, GraphId, g.id);
    var p := Position(s.graphs, GraphId, g.id);
    if c.AddGraph? && p.None? {
      PushRefines(s.graphs, GraphId, g);
      assert AbsGraphs(ToMap(s.graphs, GraphId)[g.id := g]) == Abs(s).graphs[g.id := AbsGraph(g)];
    }
    if c.RemoveGraph? && p.Some? {
      RemoveRefines(s.graphs, GraphId, p.value);
      WithoutAt(s.graphs, p.value);
      assert AbsGraphs(ToMap(s.graphs, GraphId) - {g.id}) == Abs(s).graphs - {g.id};
    }
  }

  lemma ConditionsRefine(c: Command, s: CampaignDoc)
    requires UniqueIds(s) && (c.AddCondition? || c.RemoveCondition?)
    ensures Refined(Apply(c, s), MapApply(c, Abs(s)))
  {
    hide ToMap, Without, Position, UniqueGraph, AbsGraphs;
    var d := c.condition;
    PositionIff(s.conditions, ConditionId, d.id);
    var p := Position(s.conditions, ConditionId, d.id);
    if c.AddCondition? && p.None? { PushRefines(s.conditions, ConditionId, d); }
    if c.RemoveCondition? && p.Some? { RemoveRefines(s.conditions, ConditionId, p.value); }
  }

  lemma CommandRefines(c: Command, s: CampaignDoc)
    requires UniqueIds(s) && (Apply(c, s).Ok? ==> ListFaithful(c, s))
    ensures Refined(Apply(c, s), MapApply(c, Abs(s)))
  {
    hide Refined, Apply, MapApply, Abs, UniqueIds, ListFaithful;
    if c.AddGraph? || c.RemoveGraph? { GraphsRefine(c, s); }
    else if c.AddCondition? || c.RemoveCondition? { ConditionsRefine(c, s); }
    else { InGraphRefines(c, s); }
  }

  // Runs

  function AbsHistory(h: History<CampaignDoc, Command>): History<CampaignMap, Command> {
    History(h.undo, h.redo, h.max, Abs(h.doc))
  }

  /** One history operation on lists is the same operation on maps. */
  lemma StepRefines(h: History<CampaignDoc, Command>, e: Event<Command>, docs: seq<CampaignMap>)
    requires UniqueIds(h.doc) && OnTimeline(MapMachine(), Faithful, AbsHistory(h), docs)
    requires e.Execute? && Apply(e.cmd, h.doc).Ok? ==> ListFaithful(e.cmd, h.doc)
    ensures var (g, r) := Step(CampaignMachine(), h, e);
            UniqueIds(g.doc) && Step(MapMachine(), AbsHistory(h), e) == (AbsHistory(g), r)
  {
    hide Apply, MapApply, Abs, UniqueIds, Faithful;
    var n := |h.undo|;
    match e
    case Execute(c) => CommandRefines(c, h.doc);
    case Undo =>
      if h.undo != [] {
        var c := Last(h.undo);
        assert CommandAt(AbsHistory(h), n - 1) == c;
        assert Link(MapMachine(), Faithful, c, docs[n - 1], docs[n]);
        MapInverse(c, docs[n - 1]);
        CommandRefines(Inverse(c), h.doc);
      }
    case Redo =>
      if h.redo != [] {
        var c := Last(h.redo);
        assert CommandAt(AbsHistory(h), n) == c;
        assert Link(MapMachine(), Faithful, c, docs[n], docs[n + 1]);
        CommandRefines(c, h.doc);
      }
    case Clear =>
  }

  /** Whole runs on lists refine whole runs on maps. */
  lemma {:induction false} RunRefines(h: History<CampaignDoc, Command>, es: seq<Event<Command>>,
                                      docs: seq<CampaignMap>)
    requires UniqueIds(h.doc) && OnTimeline(MapMachine(), Faithful, AbsHistory(h), docs)
    requires FaithfulRun(CampaignMachine(), ListFaithful, h, es)
    ensures UniqueIds(Run(CampaignMachine(), h, es).doc)
    ensures AbsHistory(Run(CampaignMachine(), h, es)) == Run(MapMachine(), AbsHistory(h), es)
    ensures FaithfulRun(MapMachine(), Faithful, AbsHistory(h), es)
    decreases |es|
  {
    hide Apply, MapApply, Abs, UniqueIds, Faithful;
    if es != [] {
      var g := Step(CampaignMachine(), h, es[0]).0;
      StepRefines(h, es[0], docs);
      MapExact();
      if es[0].Execute? { RefusalsAgree(es[0].cmd, h.doc); }
      StepOnTimeline(MapMachine(), Faithful, AbsHistory(h), es[0], docs);
      RunRefines(g, es[1..], NextTimeline(MapMachine(), AbsHistory(h), es[0], docs));
    }
  }

  /** Whether a command is refused depends only on which ids are present. */
  lemma RefusalsAgree(c: Command, s: CampaignDoc)
    requires UniqueIds(s)
    ensures Apply(c, s).Ok? <==> MapApply(c, Abs(s)).Ok?
  {
    hide ToMap;
    if ActsInGraph(c) {
      PositionIff(s.graphs, GraphId, c.graphId);
      var p := Position(s.graphs, GraphId, c.graphId);
      if p.Some? {
        var g := s.graphs[p.value];
        if c.RemoveNode? { PositionIff(g.nodes, NodeId, c.node.id); }
        if c.ModifyNode? { PositionIff(g.nodes, NodeId, c.oldNode.id); }
        if c.RemoveEdge? { PositionIff(g.edges, EdgeId, c.edge.id); }
      }
    } else if c.AddGraph? || c.RemoveGraph? {
      PositionIff(s.graphs, GraphId, c.graph.id);
    } else {
      PositionIff(s.conditions, ConditionId, c.condition.id);
    }
  }

  /**
   * After any run of faithful commands on a campaign with unique ids: ids are still unique, undo and redo
   * succeed whenever possible, and each takes the other back up to the order of the lists.
   */
  lemma CampaignRuns(doc: CampaignDoc, max: nat, es: seq<Event<Command>>)
    requires UniqueIds(doc) && FaithfulRun(CampaignMachine(), ListFaithful, HistoryMachine.Fresh(doc, max), es)
    ensures var m := CampaignMachine();
            var h := Run(m, HistoryMachine.Fresh(doc, max), es);
            && UniqueIds(h.doc) && Bounded(h)
            && (Step(m, h, Undo).1 == if h.undo == [] then Nothing else Done)
            && (Step(m, h, Redo).1 == if h.redo == [] then Nothing else Done)
            && (h.undo != [] ==> AbsHistory(Step(m, Step(m, h, Undo).0, Redo).0) == AbsHistory(h))
            && (h.redo != [] ==> AbsHistory(Step(m, Step(m, h, Redo).0, Undo).0) == AbsHistory(h))
  {
    hide Apply, MapApply, Abs, UniqueIds, Faithful;
    var m, a := CampaignMachine(), MapMachine();
    var start := HistoryMachine.Fresh<CampaignDoc, Command>(doc, max);
    var h := Run(m, start, es);
    RunRefines(start, es, [Abs(doc)]);
    MapExact();
    UndoRedoAfterAnyRun(a, Faithful, Abs(doc), max, es);
    var docs := RunOnTimeline(a, Faithful, AbsHistory(start), es, [Abs(doc)]);
    StepRefines(h, Undo, docs);
    StepOnTimeline(a, Faithful, AbsHistory(h), Undo, docs);
    StepRefines(Step(m, h, Undo).0, Redo, docs);
    StepRefines(h, Redo, docs);
    StepOnTimeline(a, Faithful, AbsHistory(h), Redo, docs);
    StepRefines(Step(m, h, Redo).0, Undo, docs);
  }

  /** Executing a faithful command after any such run and undoing it restores the campaign up to list order. */
  lemma CampaignUndoRestores(doc: CampaignDoc, max: nat, es: seq<Event<Command>>, c: Command)
    requires UniqueIds(doc) && FaithfulRun(CampaignMachine(), ListFaithful, HistoryMachine.Fresh(doc, max), es)
    requires var h := Run(CampaignMachine(), HistoryMachine.Fresh(doc, max), es);
             Apply(c, h.doc).Ok? && ListFaithful(c, h.doc)
    ensures var m := CampaignMachine();
            var h := Run(m, HistoryMachine.Fresh(doc, max), es);
            var g := Step(m, h, Execute(c)).0;
            Step(m, g, Undo).1 == Done && Abs(Step(m, g, Undo).0.doc) == Abs(h.doc)
  {
    hide Apply, MapApply, Abs, UniqueIds, Faithful;
    var m, a := CampaignMachine(), MapMachine();
    var start := HistoryMachine.Fresh<CampaignDoc, Command>(doc, max);
    var h := Run(m, start, es);
    RunRefines(start, es, [Abs(doc)]);
    MapExact();
    var docs := RunOnTimeline(a, Faithful, AbsHistory(start), es, [Abs(doc)]);
    RefusalsAgree(c, h.doc);
    StepRefines(h, Execute(c), docs);
    UndoRestores(a, Faithful, Abs(doc), max, es, c);
    StepOnTimeline(a, Faithful, AbsHistory(h), Execute(c), docs);
    StepRefines(Step(m, h, Execute(c)).0, Undo, NextTimeline(a, AbsHistory(h), Execute(c), docs));
  }

  /** Campaigns that differ only in list order report the same and stay that way over every run. */
  lemma {:induction false} OrderNeverMatters(h: History<CampaignDoc, Command>, k: History<CampaignDoc, Command>,
                                             es: seq<Event<Command>>, docs: seq<CampaignMap>)
    requires UniqueIds(h.doc) && UniqueIds(k.doc) && AbsHistory(h) == AbsHistory(k)
    requires OnTimeline(MapMachine(), Faithful, AbsHistory(h), docs)
    requires FaithfulRun(CampaignMachine(), ListFaithful, h, es)
    ensures FaithfulRun(CampaignMachine(), ListFaithful, k, es)
    ensures AbsHistory(Run(CampaignMachine(), h, es)) == AbsHistory(Run(CampaignMachine(), k, es))
    ensures Outcomes(CampaignMachine(), h, es) == Outcomes(CampaignMachine(), k, es)
    decreases |es|
  {
    hide Apply, MapApply, Abs, UniqueIds, Faithful;
    if es != [] {
      if es[0].Execute? {
        RefusalsAgree(es[0].cmd, h.doc);
        RefusalsAgree(es[0].cmd, k.doc);
      }
      StepRefines(h, es[0], docs);
      StepRefines(k, es[0], docs);
      MapExact();
      StepOnTimeline(MapMachine(), Faithful, AbsHistory(h), es[0], docs);
      OrderNeverMatters(Step(CampaignMachine(), h, es[0]).0, Step(CampaignMachine(), k, es[0]).0, es[1..],
                        NextTimeline(MapMachine(), AbsHistory(h), es[0], docs));
    }
  }

  class Campaign {
    var graphs: seq<Graph>
    var conditions: seq<ConditionDef>
    const attributes: string

    constructor (doc: CampaignDoc)
      ensures Doc() == doc
    {
      graphs, conditions, attributes := doc.graphs, doc.conditions, doc.attributes;
    }

    function Doc(): (doc: CampaignDoc)
      reads this
    {
      CampaignDoc(graphs, conditions, attributes)
    }

    static method PerformInGraph(c: Command, g: Graph) returns (r: Result<Graph, CommandError>)
      requires ActsInGraph(c)
      ensures r == ApplyInGraph(c, g)
    {
      match c
      case AddNode(_, n) => r := Ok(g.(nodes := g.nodes + [n]));
      case RemoveNode(_, n) =>
        var p := FindPosition(g.nodes, NodeId, n.id);
        if p.None? { return Err(NodeNotFound(n.id)); }
        r := Ok(g.(nodes := g.nodes[..p.value] + g.nodes[p.value + 1..]));
      case ModifyNode(_, before, after) =>
        var p := FindPosition(g.nodes, NodeId, before.id);
        if p.None? { return Err(NodeNotFound(before.id)); }
        r := Ok(g.(nodes := g.nodes[p.value := after]));
      case AddEdge(_, e) => r := Ok(g.(edges := g.edges + [e]));
      case RemoveEdge(_, e) =>
        var p := FindPosition(g.edges, EdgeId, e.id);
        if p.None? { return Err(EdgeNotFound(e.id)); }
        r := Ok(g.(edges := g.edges[..p.value] + g.edges[p.value + 1..]));
    }

    /** Runs one command in place; a refused command leaves the campaign untouched. */
    method Perform(c: Command) returns (r: Result<(), CommandError>)
      modifies this
      ensures match Apply(c, old(Doc()))
              case Ok(doc) => r == Ok(()) && Doc() == doc
              case Err(e) => r == Err(e) && Doc() == old(Doc())
    {
      if ActsInGraph(c) {
        var k := FindPosition(graphs, GraphId, c.graphId);
        if k.None? { return Err(GraphNotFound(c.graphId)); }
        var g := PerformInGraph(c, graphs[k.value]);
        if g.Err? { return Err(g.error); }
        graphs := graphs[k.value := g.value];
        return Ok(());
      }
      match c {
      case AddGraph(g) =>
        var p := FindPosition(graphs, GraphId, g.id);
        if p.Some? { return Err(GraphExists(g.id)); }
        graphs := graphs + [g];
      case RemoveGraph(g) =>
        var p := FindPosition(graphs, GraphId, g.id);
        if p.None? { return Err(GraphNotFound(g.id)); }
        graphs := graphs[..p.value] + graphs[p.value + 1..];
      case AddCondition(d) =>
        var p := FindPosition(conditions, ConditionId, d.id);
        if p.Some? { return Err(ConditionExists(d.id)); }
        conditions := conditions + [d];
      case RemoveCondition(d) =>
        var p := FindPosition(conditions, ConditionId, d.id);
        if p.None? { return Err(ConditionNotFound(d.id)); }
        conditions := conditions[..p.value] + conditions[p.value + 1..];
      }
      r := Ok(());
    }
  }

  class CommandHistory {
    var undoStack: seq<Command>
    var redoStack: seq<Command>
    const maxHistory: nat

    constructor (maxHistory: nat)
      ensures undoStack == [] && redoStack == [] && this.maxHistory == maxHistory
    {
      undoStack, redoStack := [], [];
      this.maxHistory := maxHistory;
    }

    /** The history machine state this object and the campaign stand for. */
    ghost function State(campaign: Campaign): History<CampaignDoc, Command>
      reads this, campaign
    {
      History(undoStack, redoStack, maxHistory, campaign.Doc())
    }

    method Execute(c: Command, campaign: Campaign) returns (r: Outcome<CommandError>)
      modifies this, campaign
      ensures (State(campaign), r) == Step(CampaignMachine(), old(State(campaign)), HistoryMachine.Execute(c))
    {
      hide Apply;
      var applied := campaign.Perform(c);
      if applied.Err? { return Refused(applied.error); }
      undoStack := undoStack + [c];
      redoStack := [];
      if maxHistory > 0 && |undoStack| > maxHistory { undoStack := undoStack[1..]; }
      r := Done;
    }

    method Undo(campaign: Campaign) returns (r: Outcome<CommandError>)
      modifies this, campaign
      ensures (State(campaign), r) == Step(CampaignMachine(), old(State(campaign)), HistoryMachine.Undo)
    {
      hide Apply;
      if undoStack == [] { return Nothing; }
      var c := undoStack[|undoStack| - 1];
      undoStack := undoStack[..|undoStack| - 1];
      var applied := campaign.Perform(Inverse(c));
      if applied.Err? { return Refused(applied.error); }
      redoStack := redoStack + [c];
      r := Done;
    }

    method Redo(campaign: Campaign) returns (r: Outcome<CommandError>)
      modifies this, campaign
      ensures (State(campaign), r) == Step(CampaignMachine(), old(State(campaign)), HistoryMachine.Redo)
    {
      hide Apply;
      if redoStack == [] { return Nothing; }
      var c := redoStack[|redoStack| - 1];
      redoStack := redoStack[..|redoStack| - 1];
      var applied := campaign.Perform(c);
      if applied.Err? { return Refused(applied.error); }
      undoStack := undoStack + [c];
      r := Done;
    }
  }
}
