/**
 * Avoidance pathfinding: polygons inside zones are stamped for one search and restored by a guard. The guard holds
 * what it has to restore at every moment, so it restores on every way out.
 */
module Avoidance {
  import opened Results

  type PolyRef = nat

  type Areas = map<PolyRef, nat>

  const NAV_AREA_AVOID: nat := 63
  const AREA_COUNT: nat := 64

  datatype AppError = Internal(what: string)

  /** What the navmesh query answers for one zone; no answer stands for a query error. */
  datatype Zone = Zone(polys: Option<seq<PolyRef>>, within: PolyRef -> Option<bool>)

  // Which polygons a zone list asks to stamp, in order

  function ZoneTargets(polys: seq<PolyRef>, within: PolyRef -> Option<bool>): seq<PolyRef> {
    if polys == [] then []
    else ZoneTargets(polys[..|polys| - 1], within)
         + (if within(polys[|polys| - 1]) == Some(true) then [polys[|polys| - 1]] else [])
  }

  function Targets(zones: seq<Zone>): seq<PolyRef> {
    if zones == [] then []
    else Targets(zones[..|zones| - 1])
         + (match zones[|zones| - 1].polys
            case None => []
            case Some(ps) => ZoneTargets(ps, zones[|zones| - 1].within))
  }

  /** A polygon that the query finds for the zone and that lies within it; a zone that cannot be queried has none. */
  predicate InZone(zone: Zone, p: PolyRef) {
    zone.polys.Some? && p in zone.polys.value && zone.within(p) == Some(true)
  }

  ghost predicate IsTarget(zones: seq<Zone>, p: PolyRef) { exists z :: 0 <= z < |zones| && InZone(zones[z], p) }

  lemma {:induction false} ZoneTargetsMeaning(polys: seq<PolyRef>, within: PolyRef -> Option<bool>, p: PolyRef)
    ensures p in ZoneTargets(polys, within) <==> p in polys && within(p) == Some(true)
    decreases |polys|
  {
    if polys != [] {
      ZoneTargetsMeaning(polys[..|polys| - 1], within, p);
      assert polys == polys[..|polys| - 1] + [polys[|polys| - 1]];
    }
  }

  /** The targets of a zone list are those of the zones before the last one and those of the last one. */
  lemma LastZone(zones: seq<Zone>, p: PolyRef)
    requires zones != []
    ensures p in Targets(zones) <==> p in Targets(zones[..|zones| - 1]) || InZone(zones[|zones| - 1], p)
  {
    var last := zones[|zones| - 1];
    if last.polys.Some? { ZoneTargetsMeaning(last.polys.value, last.within, p); }
  }

  lemma LastTarget(zones: seq<Zone>, p: PolyRef)
    requires zones != []
    ensures IsTarget(zones, p) <==> IsTarget(zones[..|zones| - 1], p) || InZone(zones[|zones| - 1], p)
  {
    hide InZone;
    var init := zones[..|zones| - 1];
    if z :| 0 <= z < |init| && InZone(init[z], p) { assert InZone(zones[z], p); }
    if z :| 0 <= z < |zones| && InZone(zones[z], p) {
      if z < |init| { assert InZone(init[z], p); }
    }
  }

  /** The targets are exactly the polygons that lie within some zone. */
  lemma {:induction false} TargetsMeaning(zones: seq<Zone>, p: PolyRef)
    ensures p in Targets(zones) <==> IsTarget(zones, p)
    decreases |zones|
  {
    hide InZone, IsTarget, Targets;
    if zones == [] {
      NoZones(zones, p);
    } else {
      TargetsMeaning(zones[..|zones| - 1], p);
      LastZone(zones, p);
      LastTarget(zones, p);
    }
  }

  lemma NoZones(zones: seq<Zone>, p: PolyRef)
    requires zones == []
    ensures p !in Targets(zones) && !IsTarget(zones, p)
  {
  }

  type Originals = seq<(PolyRef, nat)>

  /** `areas` is `base` with exactly the recorded polygons stamped, each recorded once with its own area. */
  ghost predicate StampedFrom(base: Areas, areas: Areas, originals: Originals) {
    && areas.Keys == base.Keys
    && (forall i, j :: 0 <= i < j < |originals| ==> originals[i].0 != originals[j].0)
    && (forall i :: 0 <= i < |originals| ==>
          originals[i].0 in base && base[originals[i].0] == originals[i].1 != NAV_AREA_AVOID)
    && (forall p :: p in base ==> areas[p] == if Recorded(originals, p) then NAV_AREA_AVOID else base[p])
  }

  ghost predicate Recorded(originals: Originals, p: PolyRef) {
    exists i :: 0 <= i < |originals| && originals[i].0 == p
  }

  lemma StampOne(base: Areas, areas: Areas, originals: Originals, p: PolyRef)
    requires StampedFrom(base, areas, originals) && p in areas && areas[p] != NAV_AREA_AVOID
    ensures StampedFrom(base, areas[p := NAV_AREA_AVOID], originals + [(p, areas[p])])
  {
    var more := originals + [(p, areas[p])];
    assert !Recorded(originals, p);
    forall q ensures Recorded(more, q) <==> Recorded(originals, q) || q == p {
      if q == p { assert more[|originals|].0 == p; }
      if Recorded(originals, q) {
        var i :| 0 <= i < |originals| && originals[i].0 == q;
        assert more[i].0 == q;
      }
    }
    forall i, j | 0 <= i < j < |more| ensures more[i].0 != more[j].0 {
      if j == |originals| { assert Recorded(originals, more[i].0); }
    }
  }

  /** Restoring the first recorded polygon leaves the others stamped. */
  lemma RestoreOne(base: Areas, areas: Areas, originals: Originals)
    requires StampedFrom(base, areas, originals) && originals != []
    ensures StampedFrom(base, areas[originals[0].0 := originals[0].1], originals[1..])
  {
    var (p, area) := originals[0];
    forall q ensures Recorded(originals, q) <==> Recorded(originals[1..], q) || q == p {
      if Recorded(originals, q) && q != p {
        var i :| 0 <= i < |originals| && originals[i].0 == q;
        assert originals[1..][i - 1].0 == q;
      }
      if Recorded(originals[1..], q) {
        var i :| 0 <= i < |originals[1..]| && originals[1..][i].0 == q;
        assert originals[i + 1].0 == q;
      }
    }
    assert !Recorded(originals[1..], p);
  }

  lemma NothingRecorded(base: Areas, areas: Areas)
    ensures StampedFrom(base, areas, []) <==> areas == base
  {
  }

  /** Stamping a list of targets in order; a polygon that cannot be read is skipped, one that cannot be set fails. */
  function Stamp(areas: Areas, targets: seq<PolyRef>, readOnly: set<PolyRef>): Option<Areas> {
    if targets == [] then Some(areas) else
    match Stamp(areas, targets[..|targets| - 1], readOnly)
    case None => None
    case Some(now) =>
      var p := targets[|targets| - 1];
      if p !in now || now[p] == NAV_AREA_AVOID then Some(now)
      else if p in readOnly then None
      else Some(now[p := NAV_AREA_AVOID])
  }

  /** Stamping succeeds unless some target must change but cannot; then exactly the targets are stamped. */
  lemma {:induction false} StampMeaning(areas: Areas, targets: seq<PolyRef>, readOnly: set<PolyRef>)
    ensures Stamp(areas, targets, readOnly).None? <==>
            exists p :: p in targets && p in areas && areas[p] != NAV_AREA_AVOID && p in readOnly
    ensures Stamp(areas, targets, readOnly).Some? ==>
              var now := Stamp(areas, targets, readOnly).value;
              && now.Keys == areas.Keys
              && forall p :: p in areas ==> now[p] == if p in targets then NAV_AREA_AVOID else areas[p]
    decreases |targets|
  {
    if targets != [] {
      var init, p := targets[..|targets| - 1], targets[|targets| - 1];
      StampMeaning(areas, init, readOnly);
      assert targets == init + [p];
    }
  }

  lemma {:induction false} StampConcat(areas: Areas, a: seq<PolyRef>, b: seq<PolyRef>, readOnly: set<PolyRef>)
    ensures Stamp(areas, a + b, readOnly) ==
            match Stamp(areas, a, readOnly) case None => None case Some(now) => Stamp(now, b, readOnly)
    decreases |b|
  {
    if b == [] {
      assert a + b == a;
    } else {
      StampConcat(areas, a, b[..|b| - 1], readOnly);
      assert (a + b)[..|a + b| - 1] == a + b[..|b| - 1];
    }
  }

  /** The shared navmesh: areas of its polygons, some of which cannot be set. */
  class NavMesh {
    var areas: Areas
    const readOnly: set<PolyRef>

    constructor (areas: Areas, readOnly: set<PolyRef>)
      requires forall p :: p in areas ==> areas[p] < AREA_COUNT
      ensures Valid() && this.areas == areas && this.readOnly == readOnly
    {
      this.areas, this.readOnly := areas, readOnly;
    }

    ghost predicate Valid()
      reads this
    {
      forall p :: p in areas ==> areas[p] < AREA_COUNT
    }

    method GetPolyArea(p: PolyRef) returns (r: Option<nat>)
      ensures r == if p in areas then Some(areas[p]) else None
    {
      r := if p in areas then Some(areas[p]) else None;
    }

    method SetPolyArea(p: PolyRef, area: nat) returns (ok: bool)
      modifies this
      ensures ok <==> area < AREA_COUNT && p in old(areas) && p !in readOnly
      ensures areas == if ok then old(areas)[p := area] else old(areas)
    {
      ok := area < AREA_COUNT && p in areas && p !in readOnly;
      if ok { areas := areas[p := area]; }
    }
  }

  /** Records what it overwrites and puts it back when dropped. */
  class AreaRestoreGuard {
    const mesh: NavMesh
    var originals: Originals
    ghost const base: Areas

    constructor (mesh: NavMesh)
      requires mesh.Valid()
      ensures this.mesh == mesh && originals == [] && base == mesh.areas && Holds()
    {
      this.mesh, originals, base := mesh, [], mesh.areas;
    }

    ghost predicate Holds()
      reads this, mesh
    {
      && (forall p :: p in base ==> base[p] < AREA_COUNT)
      && StampedFrom(base, mesh.areas, originals)
      && forall i :: 0 <= i < |originals| ==> originals[i].0 !in mesh.readOnly
    }

    method StampPolygon(p: PolyRef) returns (r: Result<(), AppError>)
      requires mesh.Valid() && Holds() && p in mesh.areas && mesh.areas[p] != NAV_AREA_AVOID
      modifies this, mesh
      ensures mesh.Valid() && Holds()
      ensures r.Ok? <==> p !in mesh.readOnly
      ensures mesh.areas == if r.Ok? then old(mesh.areas)[p := NAV_AREA_AVOID] else old(mesh.areas)
    {
      var original := mesh.GetPolyArea(p);
      StampOne(base, mesh.areas, originals, p);
      var ok := mesh.SetPolyArea(p, NAV_AREA_AVOID);
      if !ok { return Err(Internal("set_poly_area failed")); }
      originals := originals + [(p, original.value)];
      r := Ok(());
    }

    /** The restoring loop: every area is as it was when the guard was made. */
    method Drop()
      requires mesh.Valid() && Holds()
      modifies mesh
      ensures mesh.Valid() && mesh.areas == base
    {
      for i := 0 to |originals|
        invariant mesh.Valid() && StampedFrom(base, mesh.areas, originals[i..])
      {
        RestoreOne(base, mesh.areas, originals[i..]);
        assert originals[i..][1..] == originals[i + 1..];
        var (p, area) := originals[i];
        var ok := mesh.SetPolyArea(p, area);
      }
      NothingRecorded(base, mesh.areas);
    }
  }

  /** Stamps every target of a zone list; fails early when one cannot be set. */
  method StampZones(guard: AreaRestoreGuard, zones: seq<Zone>) returns (r: Result<(), AppError>)
    requires guard.mesh.Valid() && guard.Holds()
    modifies guard, guard.mesh
    ensures guard.mesh.Valid() && guard.Holds()
    ensures match Stamp(old(guard.mesh.areas), Targets(zones), guard.mesh.readOnly)
            case Some(areas) => r.Ok? && guard.mesh.areas == areas
            case None => r.Err?
  {
    var mesh := guard.mesh;
    ghost var base := mesh.areas;
    assert zones[..0] == [];
    for z := 0 to |zones|
      invariant mesh.Valid() && guard.Holds()
      invariant Stamp(base, Targets(zones[..z]), mesh.readOnly) == Some(mesh.areas)
    {
      var zone := zones[z];
      assert zones[..z + 1][..z] == zones[..z];
      TargetsPrefix(base, zones, z + 1, mesh.readOnly);
      if zone.polys.None? {
        assert Targets(zones[..z]) + [] == Targets(zones[..z]);
        continue;
      }
      r := StampZone(guard, zone.polys.value, zone.within);
      StampConcat(base, Targets(zones[..z]), ZoneTargets(zone.polys.value, zone.within), mesh.readOnly);
      if r.Err? { return; }
    }
    assert zones[..|zones|] == zones;
    r := Ok(());
  }

  lemma {:induction false} TargetsPrefix(areas: Areas, zones: seq<Zone>, k: nat, readOnly: set<PolyRef>)
    requires k <= |zones|
    ensures Stamp(areas, Targets(zones[..k]), readOnly).None? ==> Stamp(areas, Targets(zones), readOnly).None?
    decreases |zones| - k
  {
    if k == |zones| {
      assert zones[..k] == zones;
    } else {
      TargetsPrefix(areas, zones, k + 1, readOnly);
      assert zones[..k + 1][..k] == zones[..k];
      var zone := zones[k];
      StampConcat(areas, Targets(zones[..k]),
                  if zone.polys.None? then [] else ZoneTargets(zone.polys.value, zone.within), readOnly);
    }
  }

  method StampZone(guard: AreaRestoreGuard, polys: seq<PolyRef>, within: PolyRef -> Option<bool>)
    returns (r: Result<(), AppError>)
    requires guard.mesh.Valid() && guard.Holds()
    modifies guard, guard.mesh
    ensures guard.mesh.Valid() && guard.Holds()
    ensures match Stamp(old(guard.mesh.areas), ZoneTargets(polys, within), guard.mesh.readOnly)
            case Some(areas) => r.Ok? && guard.mesh.areas == areas
            case None => r.Err?
  {
    var mesh := guard.mesh;
    ghost var base := mesh.areas;
    assert polys[..0] == [];
    for i := 0 to |polys|
      invariant mesh.Valid() && guard.Holds()
      invariant Stamp(base, ZoneTargets(polys[..i], within), mesh.readOnly) == Some(mesh.areas)
    {
      var p := polys[i];
      assert polys[..i + 1][..i] == polys[..i];
      ZonePrefix(base, polys, within, i + 1, mesh.readOnly);
      StampConcat(base, ZoneTargets(polys[..i], within), [p], mesh.readOnly);
      StampSingle(mesh.areas, p, mesh.readOnly);
      assert ZoneTargets(polys[..i], within) + [] == ZoneTargets(polys[..i], within);
      if within(p) != Some(true) { continue; }
      var area := mesh.GetPolyArea(p);
      if area.None? { continue; }
      if area.value != NAV_AREA_AVOID {
        r := guard.StampPolygon(p);
        if r.Err? { return; }
      }
    }
    assert polys[..|polys|] == polys;
    r := Ok(());
  }

  lemma StampSingle(areas: Areas, p: PolyRef, readOnly: set<PolyRef>)
    ensures Stamp(areas, [p], readOnly) ==
            if p !in areas || areas[p] == NAV_AREA_AVOID then Some(areas)
            else if p in readOnly then None else Some(areas[p := NAV_AREA_AVOID])
  {
    assert [p][..0] == [];
  }

  lemma {:induction false} ZonePrefix(areas: Areas, polys: seq<PolyRef>, within: PolyRef -> Option<bool>, k: nat,
                                      readOnly: set<PolyRef>)
    requires k <= |polys|
    ensures Stamp(areas, ZoneTargets(polys[..k], within), readOnly).None? ==>
            Stamp(areas, ZoneTargets(polys, within), readOnly).None?
    decreases |polys| - k
  {
    if k == |polys| {
      assert polys[..k] == polys;
    } else {
      ZonePrefix(areas, polys, within, k + 1, readOnly);
      assert polys[..k + 1][..k] == polys[..k];
      StampConcat(areas, ZoneTargets(polys[..k], within), if within(polys[k]) == Some(true) then [polys[k]] else [],
                  readOnly);
    }
  }

  /**
   * Stamp, search, restore. The search sees the mesh with exactly the targets stamped, and the mesh is as before
   * on every way out: success, a polygon that cannot be set, a filter that cannot be built.
   */
  method PathfindWithAvoidance<T>(mesh: NavMesh, zones: seq<Zone>, filterBuilds: bool,
                                  search: Areas -> Result<T, AppError>)
    returns (r: Result<T, AppError>)
    requires mesh.Valid()
    modifies mesh
    ensures mesh.Valid() && mesh.areas == old(mesh.areas)
    ensures if zones == [] then r == search(mesh.areas) else
              match Stamp(mesh.areas, Targets(zones), mesh.readOnly)
              case None => r.Err?
              case Some(areas) => if filterBuilds then r == search(areas) else r.Err?
  {
    if zones == [] { return search(mesh.areas); }
    var guard := new AreaRestoreGuard(mesh);
    var stamped := StampZones(guard, zones);
    if stamped.Err? {
      r := Err(stamped.error);
    } else if !filterBuilds {
      r := Err(Internal("Failed to create avoidance filter"));
    } else {
      r := search(mesh.areas);
    }
    guard.Drop();
  }
}
