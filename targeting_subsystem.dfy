// UTargetingSubsystemV3::AcquireTargets (Private/Targeting/TargetingSubsystemV3.cpp):
// acquire candidates, filter them, select among them.
module TargetingSubsystem {
  import opened Common
  import opened TargetingTypes
  import opened TargetStore
  import opened TargetingFilters
  import opened TargetingSpatial
  import opened TargetingSelection

  /** ETargetAcquireKindV3. */
  datatype AcquireKind = ExplicitActors | FromTargetSet | RadiusQuery

  /** FTargetAcquireRequestV3 (the backend's object-type and class overrides are not modelled). */
  datatype AcquireRequest = AcquireRequest(
    kind: AcquireKind,
    origin: TargetOrigin,
    radius: real,
    sourceTargetSet: Name,
    explicitActors: seq<Option<ActorId>>,
    filters: seq<TargetFilter>,
    select: TargetSelect)

  /** FTargetAcquireResponseV3, with the error text as a string. */
  datatype AcquireResponse = AcquireResponse(
    candidates: seq<TargetRef>,
    selected: seq<TargetRef>,
    succeeded: bool,
    error: string)

  const EmptyResponse := AcquireResponse([], [], false, "")

  /** What the backend's RadiusQuery reports. */
  datatype RadiusResult = RadiusOk(found: seq<TargetRef>) | RadiusFailed(message: string)

  /**
   * The engine as seen by one acquisition: actor positions, target-list
   * centroids, the backend's radius query and the game hooks around an
   * origin, squared distances from an origin, and the RNG draws.
   */
  datatype Environment = Environment(
    caster: Option<ActorId>,
    location: ActorId -> Vec,
    center: seq<TargetRef> -> Vec,
    radiusQuery: (Vec, real) -> RadiusResult,
    hooksAt: Vec -> GameHooks,
    distSqFrom: Vec -> (ActorId -> real),
    pick: nat -> nat)

  /** Step 1 of AcquireTargets for explicit actors: every non-null actor, in order. */
  method CollectExplicit(actors: seq<Option<ActorId>>) returns (candidates: seq<TargetRef>)
    ensures candidates == RefsOf(actors)
  {
    candidates := [];
    var i := 0;
    while i < |actors|
      invariant 0 <= i <= |actors|
      invariant candidates == RefsOf(actors[..i])
    {
      assert actors[..i + 1][..i] == actors[..i];
      if actors[i].Some? {
        candidates := candidates + [TargetRef(actors[i])];
      }
      i := i + 1;
    }
    assert actors[..i] == actors;
  }

  /**
   * Steps 2 and 3 of AcquireTargets: filter the candidates, then select
   * among the survivors. The selection is Select's answer over exactly the
   * surviving candidates.
   */
  method FilterAndSelect(hooks: GameHooks, distSq: ActorId -> real, pick: nat -> nat,
                         filters: seq<TargetFilter>, spec: TargetSelect, candidates: seq<TargetRef>)
    returns (selected: seq<TargetRef>)
    requires forall i :: pick(i) <= i
    ensures IsSelection(distSq, spec, Survivors(hooks, filters, candidates), selected)
    ensures forall k :: 0 <= k < |selected| ==> selected[k] in candidates && SurvivesAll(hooks, filters, selected[k])
    ensures spec.unique ==> UniqueActors(selected)
  {
    var filtered := ApplyFilters(hooks, filters, candidates);
    SubsequenceMembers(filtered, candidates);
    selected := Select(distSq, pick, spec, filtered);
  }

  /**
   * AcquireTargets. Fails with an error without a world, a backend or game
   * hooks; fails without a target store when reading a target set, or when
   * the radius query fails. Otherwise the response holds the unfiltered
   * candidates and Select's answer over exactly the candidates that pass
   * the filters.
   */
  method AcquireTargets(hasWorld: bool, hasBackend: bool, hasHooks: bool, env: Environment,
                        store: SpellTargetStore?, req: AcquireRequest)
    returns (ok: bool, resp: AcquireResponse)
    requires forall i :: env.pick(i) <= i
    ensures ok == resp.succeeded
    ensures !hasWorld ==> !ok && resp == EmptyResponse.(error := "Targeting: World is null")
    ensures hasWorld && !hasBackend ==> !ok && resp == EmptyResponse.(error := "Targeting: Backend is invalid")
    ensures hasWorld && hasBackend && !hasHooks ==> !ok && resp == EmptyResponse.(error := "Targeting: GameHooks is invalid")
    ensures hasWorld && hasBackend && hasHooks && req.kind == FromTargetSet && store == null ==>
              !ok && resp == EmptyResponse.(error := "Targeting: TargetStore missing")
    ensures hasWorld && hasBackend && hasHooks && req.kind == ExplicitActors ==>
              ok && resp.candidates == RefsOf(req.explicitActors)
    ensures hasWorld && hasBackend && hasHooks && req.kind == FromTargetSet && store != null ==>
              ok && resp.candidates == (if store.Find(req.sourceTargetSet).Some? then store.Find(req.sourceTargetSet).value.targets else [])
    ensures hasWorld && hasBackend && hasHooks && req.kind == RadiusQuery ==>
              var q := env.radiusQuery(ResolveOriginLocation(env.caster, store, req.origin, env.location, env.center), req.radius);
              (ok <==> q.RadiusOk?) && (q.RadiusOk? ==> resp.candidates == q.found) &&
              (q.RadiusFailed? ==> resp == EmptyResponse.(error := q.message))
    ensures ok ==>
      var o := ResolveOriginLocation(env.caster, store, req.origin, env.location, env.center);
      forall k :: 0 <= k < |resp.selected| ==>
        resp.selected[k] in resp.candidates && SurvivesAll(env.hooksAt(o), req.filters, resp.selected[k])
    ensures ok && req.select.unique ==> UniqueActors(resp.selected)
    ensures ok ==>
      var o := ResolveOriginLocation(env.caster, store, req.origin, env.location, env.center);
      IsSelection(env.distSqFrom(o), req.select, Survivors(env.hooksAt(o), req.filters, resp.candidates), resp.selected)
  {
    resp := EmptyResponse;
    if !hasWorld {
      return false, resp.(error := "Targeting: World is null");
    }
    if !hasBackend {
      return false, resp.(error := "Targeting: Backend is invalid");
    }
    if !hasHooks {
      return false, resp.(error := "Targeting: GameHooks is invalid");
    }
    var originLoc := ResolveOriginLocation(env.caster, store, req.origin, env.location, env.center);

    var candidates: seq<TargetRef> := [];
    match req.kind {
      case ExplicitActors =>
        candidates := CollectExplicit(req.explicitActors);
      case FromTargetSet =>
        if store == null {
          return false, resp.(error := "Targeting: TargetStore missing");
        }
        var found := store.Find(req.sourceTargetSet);
        if found.Some? {
          candidates := found.value.targets;
        }
      case RadiusQuery =>
        var q := env.radiusQuery(originLoc, req.radius);
        if q.RadiusFailed? {
          return false, resp.(error := q.message);
        }
        candidates := q.found;
    }

    var selected := FilterAndSelect(env.hooksAt(originLoc), env.distSqFrom(originLoc), env.pick,
                                    req.filters, req.select, candidates);
    resp := AcquireResponse(candidates, selected, true, "");
    return true, resp;
  }
}
