/** Clients searching one navmesh under a readers-writer lock, in every interleaving. */
module AvoidanceProtocol {
  import opened Results
  import opened Avoidance

  // Plain searches hold the lock for reading; avoidance searches hold it for writing while they stamp, search and
  // restore polygon by polygon.

  type Client = nat

  datatype Phase =
    | Idle
    | Reading
    | Stamping(asked: seq<PolyRef>, todo: seq<PolyRef>, originals: Originals)
    | Searching(asked: seq<PolyRef>, originals: Originals)
    | Restoring(left: Originals)

  /** What a search saw of the area map; `asked` are the targets of an avoidance search. */
  datatype Observation = Observation(client: Client, areas: Areas, plain: bool, asked: seq<PolyRef>)

  datatype State = State(areas: Areas, readers: set<Client>, writer: Option<Client>, phases: map<Client, Phase>,
                         seen: seq<Observation>)

  datatype Action =
    | BeginRead(c: Client)
    | Read(c: Client)
    | EndRead(c: Client)
    | BeginWrite(c: Client, targets: seq<PolyRef>)
    | StampNext(c: Client)
    | Abandon(c: Client)
    | FinishStamping(c: Client)
    | SearchStamped(c: Client)
    | RestoreNext(c: Client)
    | EndWrite(c: Client)

  function PhaseOf(s: State, c: Client): Phase { if c in s.phases then s.phases[c] else Idle }

  function Enter(s: State, c: Client, p: Phase): State { s.(phases := s.phases[c := p]) }

  /**
   * One atomic step. A lock request waits until the lock is free; a client that abandons stamping or searching,
   * through an early error or otherwise, drops its guard and so restores.
   */
  predicate Enabled(s: State, a: Action, readOnly: set<PolyRef>) {
    var p := PhaseOf(s, a.c);
    match a
    case BeginRead(_) => p.Idle? && s.writer.None?
    case Read(_) => p.Reading?
    case EndRead(_) => p.Reading?
    case BeginWrite(_, _) => p.Idle? && s.writer.None? && s.readers == {}
    case StampNext(_) =>
      p.Stamping? && p.todo != [] &&
      (p.todo[0] !in s.areas || s.areas[p.todo[0]] == NAV_AREA_AVOID || p.todo[0] !in readOnly)
    case Abandon(_) => p.Stamping? || p.Searching?
    case FinishStamping(_) => p.Stamping? && p.todo == []
    case SearchStamped(_) => p.Searching?
    case RestoreNext(_) => p.Restoring? && p.left != []
    case EndWrite(_) => p.Restoring? && p.left == []
  }

  function Perform(s: State, a: Action, readOnly: set<PolyRef>): State
    requires Enabled(s, a, readOnly)
  {
    var p := PhaseOf(s, a.c);
    match a
    case BeginRead(c) => Enter(s, c, Reading).(readers := s.readers + {c})
    case Read(c) => s.(seen := s.seen + [Observation(c, s.areas, true, [])])
    case EndRead(c) => Enter(s, c, Idle).(readers := s.readers - {c})
    case BeginWrite(c, targets) => Enter(s, c, Stamping(targets, targets, [])).(writer := Some(c))
    case StampNext(c) =>
      var q := p.todo[0];
      if q !in s.areas || s.areas[q] == NAV_AREA_AVOID then Enter(s, c, Stamping(p.asked, p.todo[1..], p.originals))
      else
        var stamped := Stamping(p.asked, p.todo[1..], p.originals + [(q, s.areas[q])]);
        Enter(s, c, stamped).(areas := s.areas[q := NAV_AREA_AVOID])
    case Abandon(c) => Enter(s, c, Restoring(p.originals))
    case FinishStamping(c) => Enter(s, c, Searching(p.asked, p.originals))
    case SearchStamped(c) => s.(seen := s.seen + [Observation(c, s.areas, false, p.asked)])
    case RestoreNext(c) =>
      var (q, area) := p.left[0];
      Enter(s, c, Restoring(p.left[1..])).(areas := s.areas[q := area])
    case EndWrite(c) => Enter(s, c, Idle).(writer := None)
  }

  function Start(base: Areas): State { State(base, {}, None, map[], []) }

  /** The state after a list of steps, if every one of them was enabled in turn. */
  function Run(s: State, actions: seq<Action>, readOnly: set<PolyRef>): Option<State>
    decreases |actions|
  {
    if actions == [] then Some(s)
    else if !Enabled(s, actions[0], readOnly) then None
    else Run(Perform(s, actions[0], readOnly), actions[1..], readOnly)
  }

  predicate Writes(p: Phase) { p.Stamping? || p.Searching? || p.Restoring? }

  /** The originals a writing client still has to put back. */
  function Pending(p: Phase): Originals
    requires Writes(p)
  {
    if p.Restoring? then p.left else p.originals
  }

  /** The readers-writer lock: the lock state agrees with what the clients do, and writing excludes everything. */
  ghost predicate LockHolds(s: State) {
    && (forall c: Client :: c in s.readers <==> PhaseOf(s, c).Reading?)
    && (forall c: Client :: s.writer == Some(c) <==> Writes(PhaseOf(s, c)))
    && (s.writer.Some? ==> s.readers == {})
  }

  /** The area map is the base map up to what the writer has yet to restore. */
  ghost predicate AreasHold(base: Areas, s: State) {
    match s.writer
    case None => s.areas == base
    case Some(c) => Writes(PhaseOf(s, c)) && StampedFrom(base, s.areas, Pending(PhaseOf(s, c)))
  }

  /** The map is the base map with the targets `asked` stamped except for those still `todo`. */
  ghost predicate StampedSoFar(base: Areas, areas: Areas, asked: seq<PolyRef>, todo: seq<PolyRef>,
                               readOnly: set<PolyRef>)
  {
    exists made :: made + todo == asked && Stamp(base, made, readOnly) == Some(areas)
  }

  /** While a client stamps or searches, the map shows what it asked for. */
  ghost predicate TargetsHold(base: Areas, s: State, readOnly: set<PolyRef>) {
    match s.writer
    case None => true
    case Some(c) =>
      match PhaseOf(s, c)
      case Stamping(asked, todo, _) => StampedSoFar(base, s.areas, asked, todo, readOnly)
      case Searching(asked, _) => Stamp(base, asked, readOnly) == Some(s.areas)
      case _ => true
  }

  ghost predicate SeenHolds(base: Areas, s: State, readOnly: set<PolyRef>) {
    forall i :: 0 <= i < |s.seen| ==>
      if s.seen[i].plain then s.seen[i].areas == base
      else Stamp(base, s.seen[i].asked, readOnly) == Some(s.seen[i].areas)
  }

  ghost predicate Invariant(base: Areas, s: State, readOnly: set<PolyRef>) {
    LockHolds(s) && AreasHold(base, s) && TargetsHold(base, s, readOnly) && SeenHolds(base, s, readOnly)
  }

  lemma LockStep(s: State, a: Action, readOnly: set<PolyRef>)
    requires LockHolds(s) && Enabled(s, a, readOnly)
    ensures LockHolds(Perform(s, a, readOnly))
  {
    var t := Perform(s, a, readOnly);
    forall c ensures PhaseOf(t, c) == if c == a.c then PhaseOf(t, a.c) else PhaseOf(s, c) {}
  }

  lemma AreasStep(base: Areas, s: State, a: Action, readOnly: set<PolyRef>)
    requires LockHolds(s) && AreasHold(base, s) && Enabled(s, a, readOnly)
    ensures AreasHold(base, Perform(s, a, readOnly))
  {
    var t := Perform(s, a, readOnly);
    var p := PhaseOf(s, a.c);
    if Writes(p) { assert s.writer == Some(a.c); }
    match a
    case StampNext(c) =>
      var q := p.todo[0];
      if q in s.areas && s.areas[q] != NAV_AREA_AVOID { StampOne(base, s.areas, p.originals, q); }
    case RestoreNext(c) => RestoreOne(base, s.areas, p.left);
    case BeginWrite(c, _) => NothingRecorded(base, s.areas);
    case EndWrite(c) => NothingRecorded(base, s.areas);
    case _ =>
  }

  lemma TargetsStep(base: Areas, s: State, a: Action, readOnly: set<PolyRef>)
    requires LockHolds(s) && AreasHold(base, s) && TargetsHold(base, s, readOnly) && Enabled(s, a, readOnly)
    ensures TargetsHold(base, Perform(s, a, readOnly), readOnly)
  {
    hide StampedFrom, Stamp;
    var t := Perform(s, a, readOnly);
    var p := PhaseOf(s, a.c);
    if Writes(p) { assert s.writer == Some(a.c); }
    match a
    case BeginWrite(c, targets) => NothingStamped(base, targets, readOnly);
    case StampNext(c) =>
      StampedOneMore(base, s.areas, p.asked, p.todo, readOnly);
    case FinishStamping(c) =>
      var made :| made + p.todo == p.asked && Stamp(base, made, readOnly) == Some(s.areas);
      assert made + p.todo == made;
    case _ =>
  }

  lemma NothingStamped(base: Areas, asked: seq<PolyRef>, readOnly: set<PolyRef>)
    ensures StampedSoFar(base, base, asked, asked, readOnly)
  {
    assert [] + asked == asked && Stamp(base, [], readOnly) == Some(base);
  }

  lemma StampedOneMore(base: Areas, areas: Areas, asked: seq<PolyRef>, todo: seq<PolyRef>, readOnly: set<PolyRef>)
    requires StampedSoFar(base, areas, asked, todo, readOnly) && todo != []
    requires todo[0] !in areas || areas[todo[0]] == NAV_AREA_AVOID || todo[0] !in readOnly
    ensures var now := if todo[0] !in areas || areas[todo[0]] == NAV_AREA_AVOID then areas
                       else areas[todo[0] := NAV_AREA_AVOID];
            StampedSoFar(base, now, asked, todo[1..], readOnly)
  {
    hide Stamp;
    var made :| made + todo == asked && Stamp(base, made, readOnly) == Some(areas);
    StampConcat(base, made, [todo[0]], readOnly);
    StampSingle(areas, todo[0], readOnly);
    assert (made + [todo[0]]) + todo[1..] == asked;
  }

  lemma SeenStep(base: Areas, s: State, a: Action, readOnly: set<PolyRef>)
    requires Invariant(base, s, readOnly) && Enabled(s, a, readOnly)
    ensures SeenHolds(base, Perform(s, a, readOnly), readOnly)
  {
    hide StampedFrom, Stamp;
    var t := Perform(s, a, readOnly);
    match a
    case Read(c) =>
      assert c in s.readers;
      assert t.seen[|s.seen|].areas == base;
    case SearchStamped(c) =>
      assert s.writer == Some(c);
      assert Stamp(base, t.seen[|s.seen|].asked, readOnly) == Some(t.seen[|s.seen|].areas);
    case _ =>
  }

  lemma InvariantStep(base: Areas, s: State, a: Action, readOnly: set<PolyRef>)
    requires Invariant(base, s, readOnly) && Enabled(s, a, readOnly)
    ensures Invariant(base, Perform(s, a, readOnly), readOnly)
  {
    hide Enabled, Perform, LockHolds, AreasHold, TargetsHold, SeenHolds;
    LockStep(s, a, readOnly);
    AreasStep(base, s, a, readOnly);
    TargetsStep(base, s, a, readOnly);
    SeenStep(base, s, a, readOnly);
  }

  /** Over every interleaving of any number of clients the invariant holds. */
  lemma {:induction false} RunKeepsInvariant(base: Areas, s: State, actions: seq<Action>, readOnly: set<PolyRef>)
    requires Invariant(base, s, readOnly) && Run(s, actions, readOnly).Some?
    ensures Invariant(base, Run(s, actions, readOnly).value, readOnly)
    decreases |actions|
  {
    hide Enabled, Perform, Invariant;
    if actions != [] {
      InvariantStep(base, s, actions[0], readOnly);
      RunKeepsInvariant(base, Perform(s, actions[0], readOnly), actions[1..], readOnly);
    }
  }

  /**
   * Whatever the clients do: every plain search saw the base map, every avoidance search saw the base map with
   * exactly the targets stamped that its client asked for, and the map is the base map whenever no writer holds the
   * lock.
   */
  lemma SearchesSeeTheRightMap(base: Areas, actions: seq<Action>, readOnly: set<PolyRef>)
    requires Run(Start(base), actions, readOnly).Some?
    ensures var s := Run(Start(base), actions, readOnly).value;
            && (forall i :: 0 <= i < |s.seen| && s.seen[i].plain ==> s.seen[i].areas == base)
            && (forall i :: 0 <= i < |s.seen| && !s.seen[i].plain ==>
                  Stamp(base, s.seen[i].asked, readOnly) == Some(s.seen[i].areas))
            && (s.writer.None? ==> s.areas == base)
            && (s.writer.Some? ==> s.readers == {})
  {
    hide Stamp, Run;
    RunKeepsInvariant(base, Start(base), actions, readOnly);
  }

  /** The restoring steps of a writer bring the base map back before it unlocks. */
  lemma {:induction false} RestoringFinishes(base: Areas, s: State, c: Client, readOnly: set<PolyRef>)
    returns (actions: seq<Action>)
    requires Invariant(base, s, readOnly) && PhaseOf(s, c).Restoring?
    ensures Run(s, actions, readOnly).Some?
    ensures var t := Run(s, actions, readOnly).value; t.writer.None? && t.areas == base && PhaseOf(t, c).Idle?
    decreases |PhaseOf(s, c).left|
  {
    hide StampedFrom, Stamp;
    var left := PhaseOf(s, c).left;
    var a := if left == [] then EndWrite(c) else RestoreNext(c);
    var t := Perform(s, a, readOnly);
    InvariantStep(base, s, a, readOnly);
    if left == [] {
      actions := [a];
      assert actions[1..] == [];
    } else {
      var more := RestoringFinishes(base, t, c, readOnly);
      actions := [a] + more;
      assert actions[1..] == more;
    }
  }

  /** Whoever holds the lock for writing, in whatever phase, can go on and release it over the base map. */
  lemma WriterFinishes(base: Areas, s: State, c: Client, readOnly: set<PolyRef>) returns (actions: seq<Action>)
    requires Invariant(base, s, readOnly) && s.writer == Some(c)
    ensures Run(s, actions, readOnly).Some?
    ensures var t := Run(s, actions, readOnly).value; t.writer.None? && t.areas == base && PhaseOf(t, c).Idle?
  {
    hide StampedFrom, Stamp;
    if PhaseOf(s, c).Restoring? {
      actions := RestoringFinishes(base, s, c, readOnly);
    } else {
      InvariantStep(base, s, Abandon(c), readOnly);
      var more := RestoringFinishes(base, Perform(s, Abandon(c), readOnly), c, readOnly);
      actions := [Abandon(c)] + more;
      assert actions[1..] == more;
    }
  }
}
