// Private/Delivery/Drivers/DeliveryDriver_BeamV3.cpp: the beam driver of a
// delivery group. It re-queries the beam on an interval, keeps the set of
// actors inside it, writes them back to the target store sorted by unique
// id and reports Enter, Exit, Stay and Hit through the primitive callbacks.
module GroupBeam {
  import opened Common
  import opened TargetingTypes
  import opened DeliveryTypes
  import opened DeliveryHits
  import opened TargetStore

  /** The primitive callbacks the driver makes (EmitPrimitive*), in call order. */
  datatype PrimitiveEvent =
    | PrimitiveStarted
    | PrimitiveTick(dt: real)
    | PrimitiveEnter
    | PrimitiveExit
    | PrimitiveStay
    | PrimitiveHit(count: nat)
    | PrimitiveStopped(reason: StopReason)

  /** The primitive spec fields the driver reads. */
  datatype BeamSpec = BeamSpec(tickInterval: real, lockOnTarget: bool, lockTargetSet: Name, outTargetSet: Name)

  /**
   * PickLockTargetDeterministic on the store's answer: None for a None
   * name, a missing store, a missing set or one without a live reference;
   * otherwise the live actor with the smallest StableId.
   */
  function LockPick(name: Name, hasStore: bool, found: Option<TargetSet>): (r: Option<ActorId>)
    ensures name == NoName || !hasStore || found.None? ==> r.None?
    ensures name != NoName && hasStore && found.Some? ==>
              (r.None? <==> NoLiveRef(found.value.targets)) &&
              (r.Some? ==> IsLowestId(found.value.targets, r.value))
  {
    if name == NoName || !hasStore || found.None? || |found.value.targets| == 0 then None
    else LowestLiveId(found.value.targets)
  }

  /** The target the beam locks on to: only when lock-on is enabled with a set name. */
  function LockTarget(spec: BeamSpec, hasStore: bool, found: Option<TargetSet>): Option<ActorId> {
    if spec.lockOnTarget && spec.lockTargetSet != NoName then LockPick(spec.lockTargetSet, hasStore, found) else None
  }

  /** The callbacks of one evaluation: Enter and Exit when some actor entered or left, Stay and Hit when any is inside. */
  function BeamEvents(inside: set<ActorId>, newInside: set<ActorId>): seq<PrimitiveEvent> {
    (if |newInside - inside| > 0 then [PrimitiveEnter] else []) +
    (if |inside - newInside| > 0 then [PrimitiveExit] else []) +
    (if |newInside| > 0 then [PrimitiveStay, PrimitiveHit(|newInside|)] else [])
  }

  /**
   * Enter is reported iff some actor is new, Exit iff some actor left, Stay
   * iff the beam holds an actor, and Hit only with the number of actors
   * inside.
   */
  lemma BeamEventsMeaning(inside: set<ActorId>, newInside: set<ActorId>)
    ensures PrimitiveEnter in BeamEvents(inside, newInside) <==> exists a :: a in newInside && a !in inside
    ensures PrimitiveExit in BeamEvents(inside, newInside) <==> exists a :: a in inside && a !in newInside
    ensures PrimitiveStay in BeamEvents(inside, newInside) <==> newInside != {}
    ensures forall c :: PrimitiveHit(c) in BeamEvents(inside, newInside) ==> c == |newInside| && c > 0
  {
    var e := BeamEvents(inside, newInside);
    if exists a :: a in newInside && a !in inside {
      var a :| a in newInside && a !in inside;
      assert a in newInside - inside;
    }
    if exists a :: a in inside && a !in newInside {
      var a :| a in inside && a !in newInside;
      assert a in inside - newInside;
    }
    if |newInside - inside| > 0 {
      var a :| a in newInside - inside;
    }
    if |inside - newInside| > 0 {
      var a :| a in inside - newInside;
    }
    if newInside != {} {
      var a :| a in newInside;
      assert |newInside| > 0;
    }
  }

  /** What one evaluation leaves behind: the new inside set, its callbacks and the set written back. */
  datatype BeamOutcome = BeamOutcome(inside: set<ActorId>, emitted: seq<PrimitiveEvent>, write: Option<(Name, TargetSet)>)

  /**
   * EvaluateBeam with a world and a group: the actors of the query's hits
   * (aimed at the lock target) are the new inside set, written back in
   * ascending unique-id order under the resolved out set name.
   */
  function BeamOutcomeOf(spec: BeamSpec, group: Name, inside: set<ActorId>, hits: seq<Hit>): BeamOutcome {
    var newInside := ActorSet(hits);
    BeamOutcome(newInside, BeamEvents(inside, newInside), BeamWrite(spec, group, newInside))
  }

  /** The writeback: the inside actors in ascending unique-id order, under the resolved out set name. */
  function BeamWrite(spec: BeamSpec, group: Name, newInside: set<ActorId>): Option<(Name, TargetSet)> {
    var out := ResolveOutTargetSetName(spec.outTargetSet, Some(group));
    if out == NoName then None else Some((out, TargetSet(RefsTo(SortedActors(newInside)))))
  }

  /**
   * The written set holds each inside actor once, in strictly ascending
   * unique-id order, and nothing else.
   */
  lemma WritebackIsSortedInside(newInside: set<ActorId>)
    ensures var t := RefsTo(SortedActors(newInside));
            UniqueActors(t) &&
            (forall k :: 0 <= k < |t| ==> t[k].IsValid() && t[k].actor.value in newInside) &&
            (forall a :: a in newInside ==> TargetRef(Some(a)) in t) &&
            (forall i, j :: 0 <= i < j < |t| ==> t[i].actor.value < t[j].actor.value)
  {
    RefsToAscending(SortedActors(newInside));
    SortedRefsCover(newInside);
    SortedRefsOnlyInside(newInside);
  }

  /** Every inside actor is written. */
  lemma SortedRefsCover(newInside: set<ActorId>)
    ensures forall a :: a in newInside ==> TargetRef(Some(a)) in RefsTo(SortedActors(newInside))
  {
    var s := SortedActors(newInside);
    var t := RefsTo(s);
    forall a | a in newInside ensures TargetRef(Some(a)) in t {
      var k :| 0 <= k < |s| && s[k] == a;
      assert t[k] == TargetRef(Some(a));
    }
  }

  /** Only inside actors are written, each as a live reference. */
  lemma SortedRefsOnlyInside(newInside: set<ActorId>)
    ensures var t := RefsTo(SortedActors(newInside));
            forall k :: 0 <= k < |t| ==> t[k].IsValid() && t[k].actor.value in newInside
  {
    var s := SortedActors(newInside);
    var t := RefsTo(s);
    forall k | 0 <= k < |t| ensures t[k].IsValid() && t[k].actor.value in newInside {
      assert s[k] in s;
    }
  }

  /** CountEnter / CountExit: the members of `a` that are not in `b`, counted one by one. */
  method CountNotIn(a: set<ActorId>, b: set<ActorId>) returns (n: nat)
    ensures n == |a - b|
  {
    n := 0;
    var rest := a;
    ghost var done: set<ActorId> := {};
    while rest != {}
      invariant rest <= a
      invariant done == (a - rest) - b
      invariant n == |done|
      decreases |rest|
    {
      var w :| w in rest;
      if w !in b {
        assert w !in done;
        done := done + {w};
        n := n + 1;
      }
      rest := rest - {w};
    }
  }

  /** The Enter/Exit counts and the callbacks they lead to. */
  method EvaluationEvents(inside: set<ActorId>, newInside: set<ActorId>) returns (emitted: seq<PrimitiveEvent>)
    ensures emitted == BeamEvents(inside, newInside)
  {
    var enterCount := CountNotIn(newInside, inside);
    var exitCount := CountNotIn(inside, newInside);
    emitted := [];
    if enterCount > 0 {
      emitted := emitted + [PrimitiveEnter];
    }
    if exitCount > 0 {
      emitted := emitted + [PrimitiveExit];
    }
    if |newInside| > 0 {
      emitted := emitted + [PrimitiveStay, PrimitiveHit(|newInside|)];
    }
  }

  /** The lock-target scan over the store's set. */
  method PickLockTargetDeterministic(name: Name, store: SpellTargetStore?) returns (r: Option<ActorId>)
    ensures r == LockPick(name, store != null, if store != null then store.Find(name) else None)
  {
    if name == NoName || store == null {
      return None;
    }
    var found := store.Find(name);
    if found.None? || |found.value.targets| == 0 {
      return None;
    }
    r := ChooseLowestId(found.value.targets);
  }

  /** WritebackTargets: the inside actors, sorted and added one by one, stored under the out set name. */
  method WriteInside(spec: BeamSpec, group: Name, store: SpellTargetStore, newInside: set<ActorId>)
    modifies store
    ensures store.sets == Written(old(store.sets), true, BeamWrite(spec, group, newInside))
  {
    var outName := ResolveOutTargetSetName(spec.outTargetSet, Some(group));
    if outName == NoName {
      return;
    }
    var actors := SortedActors(newInside);
    var out := AddActorsUnique(actors);
    WritebackOfSorted(newInside);
    store.Set(outName, out);
  }

  /** UDeliveryDriver_BeamV3 of the group-based API. */
  class GroupBeamDriver {
    var active: bool
    var spec: BeamSpec
    var groupHandle: DeliveryHandle
    var primitiveId: Name
    var timeSinceLastEval: real
    var inside: set<ActorId>
    /** The primitive callbacks made so far, oldest first. */
    var events: seq<PrimitiveEvent>

    constructor()
      ensures !active && inside == {} && events == []
    {
      active := false;
      spec := BeamSpec(0.0, false, NoName, NoName);
      groupHandle := DeliveryHandle(Guid(0, 0, 0, 0), NoName, 0);
      primitiveId := NoName;
      timeSinceLastEval := 0.0;
      inside := {};
      events := [];
    }

    /**
     * EvaluateBeam. Without a world or a group nothing changes. Otherwise
     * the query (`query`, given the lock target) yields BeamOutcomeOf: the
     * new inside set, its callbacks and the writeback to the store.
     */
    method EvaluateBeam(hasWorld: bool, group: Option<Name>, store: SpellTargetStore?,
                        query: Option<ActorId> -> seq<Hit>)
      modifies this`inside, this`events, if store != null then {store} else {}
      ensures !hasWorld || group.None? ==>
                inside == old(inside) && events == old(events) && (store != null ==> store.sets == old(store.sets))
      ensures hasWorld && group.Some? ==>
                var lock := LockTarget(spec, store != null, if store != null then old(store.Find(spec.lockTargetSet)) else None);
                var o := BeamOutcomeOf(spec, group.value, old(inside), query(lock));
                inside == o.inside && events == old(events) + o.emitted &&
                (store != null ==> store.sets == Written(old(store.sets), true, o.write))
    {
      if !hasWorld || group.None? {
        return;
      }
      ghost var found := if store != null then store.Find(spec.lockTargetSet) else None;
      var lock: Option<ActorId> := None;
      if spec.lockOnTarget && spec.lockTargetSet != NoName {
        lock := PickLockTargetDeterministic(spec.lockTargetSet, store);
      }
      assert lock == LockTarget(spec, store != null, found);
      var hits := query(lock);
      var newInside := CollectActors(hits);
      ghost var o := BeamOutcomeOf(spec, group.value, inside, hits);
      if store != null {
        WriteInside(spec, group.value, store, newInside);
      }
      var emitted := EvaluationEvents(inside, newInside);
      events := events + emitted;
      inside := newInside;
      assert inside == o.inside && emitted == o.emitted;
    }

    /**
     * Tick. Inactive or without a group it does nothing. Otherwise it makes
     * the Tick callback, accumulates `dt`, and when EvaluationDue resets the
     * accumulator and evaluates.
     */
    method Tick(hasWorld: bool, group: Option<Name>, dt: real, store: SpellTargetStore?,
                query: Option<ActorId> -> seq<Hit>)
      modifies this`timeSinceLastEval, this`inside, this`events, if store != null then {store} else {}
      ensures !old(active) || group.None? ==>
                timeSinceLastEval == old(timeSinceLastEval) && inside == old(inside) && events == old(events) &&
                (store != null ==> store.sets == old(store.sets))
      ensures old(active) && group.Some? && !EvaluationDue(old(timeSinceLastEval) + dt, spec.tickInterval) ==>
                timeSinceLastEval == old(timeSinceLastEval) + dt && inside == old(inside) &&
                events == old(events) + [PrimitiveTick(dt)] && (store != null ==> store.sets == old(store.sets))
      ensures old(active) && group.Some? && EvaluationDue(old(timeSinceLastEval) + dt, spec.tickInterval) ==>
                timeSinceLastEval == 0.0 &&
                (!hasWorld ==> inside == old(inside) && events == old(events) + [PrimitiveTick(dt)] &&
                               (store != null ==> store.sets == old(store.sets))) &&
                (hasWorld ==>
                   var lock := LockTarget(spec, store != null, if store != null then old(store.Find(spec.lockTargetSet)) else None);
                   var o := BeamOutcomeOf(spec, group.value, old(inside), query(lock));
                   inside == o.inside && events == old(events) + [PrimitiveTick(dt)] + o.emitted &&
                   (store != null ==> store.sets == Written(old(store.sets), true, o.write)))
    {
      if !active || group.None? {
        return;
      }
      events := events + [PrimitiveTick(dt)];
      timeSinceLastEval := timeSinceLastEval + dt;
      var iv := Max(0.0, spec.tickInterval);
      if iv > 0.0 && timeSinceLastEval < iv {
        return;
      }
      timeSinceLastEval := 0.0;
      EvaluateBeam(hasWorld, group, store, query);
    }

    /**
     * Start: takes the primitive's spec, becomes active with an empty
     * inside set and a zero accumulator, makes the Started callback and
     * evaluates at once.
     */
    method Start(hasWorld: bool, group: Option<Name>, handle: DeliveryHandle, primitive: Name, newSpec: BeamSpec,
                 store: SpellTargetStore?, query: Option<ActorId> -> seq<Hit>)
      modifies this, if store != null then {store} else {}
      ensures active && spec == newSpec && groupHandle == handle && primitiveId == primitive
      ensures timeSinceLastEval == 0.0
      ensures !hasWorld || group.None? ==>
                inside == {} && events == old(events) + [PrimitiveStarted] &&
                (store != null ==> store.sets == old(store.sets))
      ensures hasWorld && group.Some? ==>
                var lock := LockTarget(newSpec, store != null, if store != null then old(store.Find(newSpec.lockTargetSet)) else None);
                var o := BeamOutcomeOf(newSpec, group.value, {}, query(lock));
                inside == o.inside && events == old(events) + [PrimitiveStarted] + o.emitted &&
                (store != null ==> store.sets == Written(old(store.sets), true, o.write))
    {
      spec := newSpec;
      groupHandle := handle;
      primitiveId := primitive;
      active := true;
      timeSinceLastEval := 0.0;
      inside := {};
      events := events + [PrimitiveStarted];
      EvaluateBeam(hasWorld, group, store, query);
    }

    /** Stop: a no-op when inactive; otherwise deactivates, empties the inside set and makes the Stopped callback. */
    method Stop(reason: StopReason)
      modifies this`active, this`inside, this`events
      ensures !active
      ensures !old(active) ==> inside == old(inside) && events == old(events)
      ensures old(active) ==> inside == {} && events == old(events) + [PrimitiveStopped(reason)]
    {
      if !active {
        return;
      }
      active := false;
      inside := {};
      events := events + [PrimitiveStopped(reason)];
    }
  }
}
