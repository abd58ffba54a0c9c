// Public/Delivery/Drivers/DeliveryDriver_BeamV3.cpp: the beam driver of a
// delivery context. It aims a line or sphere sweep from the rig or attach
// pose (towards the nearest lock target when lock-on is set), keeps the set
// of actors inside the beam and raises Enter, Exit, Stay and Tick delivery
// events with the actors listed in ascending unique-id order.
module ContextBeam {
  import opened Common
  import opened TargetingTypes
  import opened DeliveryTypes
  import opened DeliveryHits
  import opened TargetStore

  /** The fields of the delivery spec the driver reads (Beam, StopPolicy, OutTargetSet, Field.bEmitStay). */
  datatype ContextBeamSpec = ContextBeamSpec(tickInterval: real, maxDuration: real, lockOnTarget: bool,
                                             lockTargetSet: Name, outTargetSet: Name, emitStay: bool)

  /**
   * The distinct live actors of the hits, in the order of their first
   * appearance (the result of BuildSortedActorsDeterministicFromHits on
   * already sorted hits).
   */
  function FirstAppearances(hits: seq<Hit>): (r: seq<ActorId>)
    ensures NoDuplicates(r)
    ensures forall a :: a in r <==> exists k :: 0 <= k < |hits| && hits[k].actor == Some(a)
  {
    if |hits| == 0 then []
    else
      var n := |hits| - 1;
      var rest := FirstAppearances(hits[..n]);
      assert forall k :: 0 <= k < n ==> hits[..n][k] == hits[k];
      var last := hits[n].actor;
      if last.Some? && last.value !in rest then rest + [last.value] else rest
  }

  /**
   * The list follows first appearance: an actor listed before another
   * occurs in the hits before the other occurs at all.
   */
  lemma {:induction false} FirstAppearanceOrder(hits: seq<Hit>, i: nat, j: nat)
    requires i < j < |FirstAppearances(hits)|
    ensures var r := FirstAppearances(hits);
            exists k :: 0 <= k < |hits| && hits[k].actor == Some(r[i]) &&
                        forall l :: 0 <= l <= k ==> hits[l].actor != Some(r[j])
  {
    var r := FirstAppearances(hits);
    var n := |hits| - 1;
    var front := hits[..n];
    var rest := FirstAppearances(front);
    assert forall k :: 0 <= k < n ==> front[k] == hits[k];
    if j < |rest| {
      assert r[i] == rest[i] && r[j] == rest[j];
      FirstAppearanceOrder(front, i, j);
      var k :| 0 <= k < n && front[k].actor == Some(rest[i]) &&
               forall l :: 0 <= l <= k ==> front[l].actor != Some(rest[j]);
      assert hits[k].actor == Some(r[i]);
    } else {
      assert r == rest + [hits[n].actor.value] && r[j] == hits[n].actor.value;
      assert r[i] == rest[i];
      var k :| 0 <= k < n && front[k].actor == Some(rest[i]);
      forall l | 0 <= l <= k ensures hits[l].actor != Some(r[j]) {
        assert front[l] == hits[l];
      }
    }
  }

  /**
   * Over hits in sort order (nearer first, then smaller unique id), an
   * actor listed before another has a hit that sorts no later than any hit
   * of the other.
   */
  lemma NearerActorsListedFirst(hits: seq<Hit>, i: nat, j: nat)
    requires HitsSorted(ById, hits)
    requires i < j < |FirstAppearances(hits)|
    ensures var r := FirstAppearances(hits);
            exists k :: 0 <= k < |hits| && hits[k].actor == Some(r[i]) &&
                        forall l :: 0 <= l < |hits| && hits[l].actor == Some(r[j]) ==> !HitBefore(ById, hits[l], hits[k])
  {
    var r := FirstAppearances(hits);
    FirstAppearanceOrder(hits, i, j);
    var k :| 0 <= k < |hits| && hits[k].actor == Some(r[i]) &&
             forall l :: 0 <= l <= k ==> hits[l].actor != Some(r[j]);
    forall l | 0 <= l < |hits| && hits[l].actor == Some(r[j]) ensures !HitBefore(ById, hits[l], hits[k]) {
      assert k < l;
    }
  }

  /** The linear search of BuildSortedActorsDeterministicFromHits: is `a` already listed? */
  method Listed(out: seq<ActorId>, a: ActorId) returns (already: bool)
    ensures already <==> a in out
  {
    already := false;
    var j := 0;
    while j < |out|
      invariant 0 <= j <= |out|
      invariant !already ==> forall k :: 0 <= k < j ==> out[k] != a
      invariant already ==> a in out
    {
      if out[j] == a {
        already := true;
        break;
      }
      j := j + 1;
    }
  }

  /**
   * BuildSortedActorsDeterministicFromHits: sorts a copy of the hits, then
   * adds each live actor not already listed, found by a linear search.
   */
  method BuildSortedActorsFromHits(hits: seq<Hit>) returns (out: seq<ActorId>)
    ensures out == FirstAppearances(SortHits(ById, hits))
  {
    var sorted := SortHits(ById, hits);
    out := [];
    var i := 0;
    while i < |sorted|
      invariant 0 <= i <= |sorted|
      invariant out == FirstAppearances(sorted[..i])
    {
      assert sorted[..i + 1][..i] == sorted[..i];
      var a := sorted[i].actor;
      if a.Some? {
        var already := Listed(out, a.value);
        if !already {
          out := out + [a.value];
        }
      }
      i := i + 1;
    }
    assert sorted[..i] == sorted;
  }

  /** Remove loop: every member of `remove` taken out of `s` one by one. */
  method SetMinus(s: set<ActorId>, remove: set<ActorId>) returns (r: set<ActorId>)
    ensures r == s - remove
  {
    r := s;
    var rest := remove;
    while rest != {}
      invariant rest <= remove
      invariant r == s - (remove - rest)
      decreases |rest|
    {
      var w :| w in rest;
      r := r - {w};
      rest := rest - {w};
    }
  }

  /** The set NewInside the hits put inside the beam, whatever their order. */
  lemma ActorSetOfPermutation(a: seq<Hit>, b: seq<Hit>)
    requires multiset(a) == multiset(b)
    ensures ActorSet(a) == ActorSet(b)
  {
    forall x | x in ActorSet(a) ensures x in ActorSet(b) {
      var k :| 0 <= k < |a| && a[k].actor == Some(x);
      assert a[k] in multiset(b);
      var l :| 0 <= l < |b| && b[l] == a[k];
    }
    forall x | x in ActorSet(b) ensures x in ActorSet(a) {
      var k :| 0 <= k < |b| && b[k].actor == Some(x);
      assert b[k] in multiset(a);
      var l :| 0 <= l < |a| && a[l] == b[k];
    }
  }

  /**
   * The lock-on choice of ResolveBeamOriginAndDir: with lock-on, a store, a
   * set name and a stored set, the live actor nearest to the beam origin
   * (`distSq`), ties to the smaller StableId; otherwise none.
   */
  function LockOn(spec: ContextBeamSpec, hasStore: bool, found: Option<TargetSet>, distSq: ActorId -> real)
    : (r: Option<ActorId>)
    ensures !(spec.lockOnTarget && hasStore && spec.lockTargetSet != NoName && found.Some?) ==> r.None?
    ensures spec.lockOnTarget && hasStore && spec.lockTargetSet != NoName && found.Some? ==>
              (r.None? <==> NoLiveRef(found.value.targets)) &&
              (r.Some? ==> IsNearest(found.value.targets, distSq, r.value))
  {
    if spec.lockOnTarget && hasStore && spec.lockTargetSet != NoName && found.Some? then
      NearestLive(found.value.targets, distSq)
    else None
  }

  /** What WritebackTargets stores: each listed actor added once, under the spec's out set, if it has one. */
  function TargetsWrite(outTargetSet: Name, actors: seq<ActorId>): Option<(Name, TargetSet)> {
    if outTargetSet == NoName then None else Some((outTargetSet, AddAllUnique(TargetSet([]), RefsTo(actors))))
  }

  /**
   * The events of EmitEnterExitStayTick: none without a delivery subsystem;
   * otherwise Enter and Exit for non-empty lists, Stay when bEmitStay is set
   * and the list is non-empty, and Tick when asked for.
   */
  function BatchEvents(emitStay: bool, canEmit: bool, enter: seq<ActorId>, exit: seq<ActorId>, stay: seq<ActorId>,
                       emitTick: bool): seq<DeliveryEvent> {
    if !canEmit then []
    else
      (if |enter| > 0 then [Entered(enter)] else []) +
      (if |exit| > 0 then [Exited(exit)] else []) +
      (if emitStay && |stay| > 0 then [Stayed(stay)] else []) +
      (if emitTick then [Ticked] else [])
  }

  /** The writeback of EmitEnterExitStayTick: the Stay list, only alongside the Stay event. */
  function BatchWrite(spec: ContextBeamSpec, canEmit: bool, stay: seq<ActorId>): Option<(Name, TargetSet)> {
    if canEmit && spec.emitStay && |stay| > 0 then TargetsWrite(spec.outTargetSet, stay) else None
  }

  /** What one EvaluateBeam leaves behind: the inside set, the events raised and the set written back. */
  datatype BeamStep = BeamStep(inside: set<ActorId>, emitted: seq<DeliveryEvent>, write: Option<(Name, TargetSet)>)

  /**
   * EvaluateBeam on the query's hits. Without a world nothing happens. With
   * no hit only the Tick heartbeat is raised and the inside set stays as it
   * was. Otherwise the hits' actors are the new inside set; Enter lists the
   * new actors, Exit the ones that left and Stay all of them, each in
   * ascending unique-id order.
   */
  function EvaluationOf(spec: ContextBeamSpec, world: DriverWorld, inside: set<ActorId>, hits: seq<Hit>): BeamStep {
    if !world.hasWorld then BeamStep(inside, [], None)
    else if |hits| == 0 then BeamStep(inside, BatchEvents(spec.emitStay, world.CanEmit(), [], [], [], true), None)
    else
      var n := ActorSet(hits);
      var stay := SortedActors(n);
      BeamStep(n, BatchEvents(spec.emitStay, world.CanEmit(), SortedActors(n - inside), SortedActors(inside - n), stay, true),
               BatchWrite(spec, world.CanEmit(), stay))
  }

  /** With a subsystem and the heartbeat: which events BatchEvents raises, with which lists, Tick last. */
  lemma BatchEventsKinds(emitStay: bool, enter: seq<ActorId>, exit: seq<ActorId>, stay: seq<ActorId>)
    ensures var b := BatchEvents(emitStay, true, enter, exit, stay, true);
            (forall e :: Entered(e) in b <==> |enter| > 0 && e == enter) &&
            (forall e :: Exited(e) in b <==> |exit| > 0 && e == exit) &&
            (forall e :: Stayed(e) in b <==> emitStay && |stay| > 0 && e == stay) &&
            b[|b| - 1] == Ticked
  {
  }

  /**
   * With a subsystem and at least one hit, Enter is raised iff some hit
   * actor was not inside, and lists exactly those actors in ascending
   * unique-id order; afterwards the inside set is the hit actors and the
   * Tick heartbeat is the last event.
   */
  lemma EnterReported(spec: ContextBeamSpec, world: DriverWorld, inside: set<ActorId>, hits: seq<Hit>)
    requires world.CanEmit() && |hits| > 0
    ensures var o := EvaluationOf(spec, world, inside, hits);
            var n := ActorSet(hits);
            o.inside == n && o.emitted[|o.emitted| - 1] == Ticked &&
            ((exists e :: Entered(e) in o.emitted) <==> exists a :: a in n && a !in inside) &&
            (forall e :: Entered(e) in o.emitted ==> Ascending(e) && forall a :: a in e <==> a in n && a !in inside)
  {
    var o := EvaluationOf(spec, world, inside, hits);
    var n := ActorSet(hits);
    var en := SortedActors(n - inside);
    var ex := SortedActors(inside - n);
    var st := SortedActors(n);
    assert o.emitted == BatchEvents(spec.emitStay, true, en, ex, st, true) && o.inside == n;
    BatchEventsKinds(spec.emitStay, en, ex, st);
    forall e | Entered(e) in o.emitted ensures Ascending(e) && forall a :: a in e <==> a in n && a !in inside {
      assert e == en;
    }
    if exists a :: a in n && a !in inside {
      var a :| a in n && a !in inside;
      assert a in en;
      assert Entered(en) in o.emitted;
    }
    if |en| > 0 {
      assert en[0] in en;
    }
  }

  /** Exit is raised iff some inside actor was not hit, and lists exactly those actors in ascending order. */
  lemma ExitReported(spec: ContextBeamSpec, world: DriverWorld, inside: set<ActorId>, hits: seq<Hit>)
    requires world.CanEmit() && |hits| > 0
    ensures var o := EvaluationOf(spec, world, inside, hits);
            var n := ActorSet(hits);
            ((exists e :: Exited(e) in o.emitted) <==> exists a :: a in inside && a !in n) &&
            (forall e :: Exited(e) in o.emitted ==> Ascending(e) && forall a :: a in e <==> a in inside && a !in n)
  {
    var o := EvaluationOf(spec, world, inside, hits);
    var n := ActorSet(hits);
    var en := SortedActors(n - inside);
    var ex := SortedActors(inside - n);
    var st := SortedActors(n);
    assert o.emitted == BatchEvents(spec.emitStay, true, en, ex, st, true);
    BatchEventsKinds(spec.emitStay, en, ex, st);
    forall e | Exited(e) in o.emitted ensures Ascending(e) && forall a :: a in e <==> a in inside && a !in n {
      assert e == ex;
    }
    if exists a :: a in inside && a !in n {
      var a :| a in inside && a !in n;
      assert a in ex;
      assert Exited(ex) in o.emitted;
    }
    if |ex| > 0 {
      assert ex[0] in ex;
    }
  }

  /** Stay is raised iff bEmitStay is set and some hit has an actor, and lists the new inside set in ascending order. */
  lemma StayReported(spec: ContextBeamSpec, world: DriverWorld, inside: set<ActorId>, hits: seq<Hit>)
    requires world.CanEmit() && |hits| > 0
    ensures var o := EvaluationOf(spec, world, inside, hits);
            var n := ActorSet(hits);
            ((exists e :: Stayed(e) in o.emitted) <==> spec.emitStay && n != {}) &&
            (forall e :: Stayed(e) in o.emitted ==> Ascending(e) && forall a :: a in e <==> a in n)
  {
    var o := EvaluationOf(spec, world, inside, hits);
    var n := ActorSet(hits);
    var en := SortedActors(n - inside);
    var ex := SortedActors(inside - n);
    var st := SortedActors(n);
    assert o.emitted == BatchEvents(spec.emitStay, true, en, ex, st, true);
    BatchEventsKinds(spec.emitStay, en, ex, st);
    forall e | Stayed(e) in o.emitted ensures Ascending(e) && forall a :: a in e <==> a in n {
      assert e == st;
    }
    if spec.emitStay && n != {} {
      var a :| a in n;
      assert a in st;
      assert Stayed(st) in o.emitted;
    }
    if |st| > 0 {
      assert st[0] in st;
    }
  }

  /**
   * A query with no hit leaves the inside set as it was and reports no
   * Enter, Exit or Stay (so the actors that left are not reported) and
   * writes nothing back.
   */
  lemma NoHitsKeepInside(spec: ContextBeamSpec, world: DriverWorld, inside: set<ActorId>)
    ensures var o := EvaluationOf(spec, world, inside, []);
            o.inside == inside && o.write.None? &&
            o.emitted == (if world.CanEmit() then [Ticked] else [])
  {
  }

  /**
   * The writeback happens exactly with the Stay event when the spec names
   * an out set; it then holds each inside actor once, ascending by unique
   * id, and nothing else. Without a subsystem nothing is raised or written,
   * yet the inside set is still replaced.
   */
  lemma EvaluationWriteback(spec: ContextBeamSpec, world: DriverWorld, inside: set<ActorId>, hits: seq<Hit>)
    requires world.hasWorld && |hits| > 0
    ensures var o := EvaluationOf(spec, world, inside, hits);
            var n := ActorSet(hits);
            o.inside == n &&
            (!world.CanEmit() ==> o.emitted == [] && o.write.None?) &&
            (o.write.Some? <==> world.CanEmit() && spec.emitStay && n != {} && spec.outTargetSet != NoName) &&
            (o.write.Some? ==> o.write.value == (spec.outTargetSet, TargetSet(RefsTo(SortedActors(n)))))
  {
    var n := ActorSet(hits);
    WritebackOfSorted(n);
    if n != {} {
      var a :| a in n;
      assert a in SortedActors(n);
    }
  }

  /** UDeliveryDriver_BeamV3 as its .cpp in Public/ has it. */
  class ContextBeamDriver {
    var active: bool
    var spec: ContextBeamSpec
    var handle: DeliveryHandle
    var primitiveId: Name
    var timeSinceStart: real
    var timeSinceLastEval: real
    var inside: set<ActorId>
    /** The delivery events raised so far, oldest first. */
    var events: seq<DeliveryEvent>

    constructor()
      ensures !active && inside == {} && events == []
    {
      active := false;
      spec := ContextBeamSpec(0.0, 0.0, false, NoName, NoName, false);
      handle := DefaultHandle;
      primitiveId := NoName;
      timeSinceStart := 0.0;
      timeSinceLastEval := 0.0;
      inside := {};
      events := [];
    }

    /** The lock-on scan: the nearest live actor of the lock set, by StableId on ties. */
    method ResolveLock(store: SpellTargetStore?, distSq: ActorId -> real) returns (lock: Option<ActorId>)
      ensures lock == LockOn(spec, store != null, if store != null then store.Find(spec.lockTargetSet) else None, distSq)
    {
      lock := None;
      if spec.lockOnTarget && store != null && spec.lockTargetSet != NoName {
        var found := store.Find(spec.lockTargetSet);
        if found.Some? {
          lock := ChooseNearest(found.value.targets, distSq);
        }
      }
    }

    /** WritebackTargets: nothing without a store or an out set name; else the listed actors, each once. */
    method WritebackTargets(store: SpellTargetStore?, actors: seq<ActorId>)
      modifies if store != null then {store} else {}
      ensures store != null ==> store.sets == Written(old(store.sets), true, TargetsWrite(spec.outTargetSet, actors))
    {
      if store == null {
        return;
      }
      var key := spec.outTargetSet;
      if key == NoName {
        return;
      }
      var out := AddActorsUnique(actors);
      store.Set(key, out);
    }

    /** EmitEnterExitStayTick: raises BatchEvents and writes the Stay list back alongside the Stay event. */
    method EmitEnterExitStayTick(world: DriverWorld, enter: seq<ActorId>, exit: seq<ActorId>, stay: seq<ActorId>,
                                 emitTick: bool, store: SpellTargetStore?)
      modifies this`events, if store != null then {store} else {}
      ensures events == old(events) + BatchEvents(spec.emitStay, world.CanEmit(), enter, exit, stay, emitTick)
      ensures store != null ==> store.sets == Written(old(store.sets), true, BatchWrite(spec, world.CanEmit(), stay))
    {
      if !world.CanEmit() {
        return;
      }
      var batch: seq<DeliveryEvent> := [];
      if |enter| > 0 {
        batch := batch + [Entered(enter)];
      }
      if |exit| > 0 {
        batch := batch + [Exited(exit)];
      }
      if spec.emitStay && |stay| > 0 {
        batch := batch + [Stayed(stay)];
        WritebackTargets(store, stay);
      }
      if emitTick {
        batch := batch + [Ticked];
      }
      events := events + batch;
    }

    /** EvaluateBeam on the hits of the beam query: EvaluationOf. */
    method EvaluateBeam(world: DriverWorld, hits: seq<Hit>, store: SpellTargetStore?)
      modifies this`inside, this`events, if store != null then {store} else {}
      ensures var o := EvaluationOf(spec, world, old(inside), hits);
              inside == o.inside && events == old(events) + o.emitted &&
              (store != null ==> store.sets == Written(old(store.sets), true, o.write))
    {
      if !world.hasWorld {
        return;
      }
      if |hits| == 0 {
        EmitEnterExitStayTick(world, [], [], [], true, store);
        return;
      }
      var sorted := SortHits(ById, hits);
      var newInside := CollectActors(sorted);
      ActorSetOfPermutation(sorted, hits);
      var enterSet := SetMinus(newInside, inside);
      var enterActors := SortedActors(enterSet);
      var exitSet := SetMinus(inside, newInside);
      var exitActors := SortedActors(exitSet);
      var stayActors := SortedActors(newInside);
      inside := newInside;
      EmitEnterExitStayTick(world, enterActors, exitActors, stayActors, true, store);
    }

    /**
     * Tick. Inactive it does nothing. Otherwise both clocks advance by
     * max(0, dt); an elapsed MaxDuration stops with DurationElapsed before
     * anything is evaluated; the interval gates evaluation and resets the
     * accumulator; a beam direction that cannot be resolved (`dirOk`, given
     * the lock target) skips the query; otherwise the query's hits
     * (`query`) are evaluated.
     */
    method Tick(world: DriverWorld, dt: real, store: SpellTargetStore?, distSq: ActorId -> real,
                dirOk: Option<ActorId> -> bool, query: Option<ActorId> -> seq<Hit>)
      modifies this`active, this`timeSinceStart, this`timeSinceLastEval, this`inside, this`events,
               if store != null then {store} else {}
      ensures !old(active) ==>
                !active && timeSinceStart == old(timeSinceStart) && timeSinceLastEval == old(timeSinceLastEval) &&
                inside == old(inside) && events == old(events) && (store != null ==> store.sets == old(store.sets))
      ensures old(active) ==> timeSinceStart == old(timeSinceStart) + Max(0.0, dt)
      ensures old(active) && DurationReached(spec.maxDuration, timeSinceStart) ==>
                !active && inside == {} && timeSinceLastEval == old(timeSinceLastEval) + Max(0.0, dt) &&
                events == old(events) + (if world.CanEmit() then [Stopped(DurationElapsed)] else []) &&
                (store != null ==> store.sets == old(store.sets))
      ensures old(active) && !DurationReached(spec.maxDuration, timeSinceStart) &&
              !EvaluationDue(old(timeSinceLastEval) + Max(0.0, dt), spec.tickInterval) ==>
                active && timeSinceLastEval == old(timeSinceLastEval) + Max(0.0, dt) &&
                inside == old(inside) && events == old(events) && (store != null ==> store.sets == old(store.sets))
      ensures old(active) && !DurationReached(spec.maxDuration, timeSinceStart) &&
              EvaluationDue(old(timeSinceLastEval) + Max(0.0, dt), spec.tickInterval) ==>
                active && timeSinceLastEval == 0.0 &&
                var lock := LockOn(spec, store != null, if store != null then old(store.Find(spec.lockTargetSet)) else None, distSq);
                if !dirOk(lock) then
                  inside == old(inside) && events == old(events) && (store != null ==> store.sets == old(store.sets))
                else
                  var o := EvaluationOf(spec, world, old(inside), query(lock));
                  inside == o.inside && events == old(events) + o.emitted &&
                  (store != null ==> store.sets == Written(old(store.sets), true, o.write))
    {
      if !active {
        return;
      }
      var d := Max(0.0, dt);
      timeSinceStart := timeSinceStart + d;
      timeSinceLastEval := timeSinceLastEval + d;
      if spec.maxDuration > 0.0 && timeSinceStart >= spec.maxDuration {
        Stop(world, DurationElapsed);
        return;
      }
      var iv := Max(0.0, spec.tickInterval);
      if iv > 0.0 && timeSinceLastEval < iv {
        return;
      }
      timeSinceLastEval := 0.0;
      var lock := ResolveLock(store, distSq);
      if !dirOk(lock) {
        return;
      }
      EvaluateBeam(world, query(lock), store);
    }

    /**
     * Start: takes the spec, becomes active with both clocks at 0 and an
     * empty inside set. Without a world it stops at once with Failed (which
     * raises nothing); otherwise Started is raised when there is a
     * subsystem. It does not evaluate.
     */
    method Start(world: DriverWorld, h: DeliveryHandle, primitive: Name, newSpec: ContextBeamSpec)
      modifies this
      ensures spec == newSpec && handle == h && primitiveId == primitive
      ensures timeSinceStart == 0.0 && timeSinceLastEval == 0.0 && inside == {}
      ensures active <==> world.hasWorld
      ensures events == old(events) + (if world.CanEmit() then [Started] else [])
    {
      spec := newSpec;
      handle := h;
      primitiveId := primitive;
      active := true;
      timeSinceStart := 0.0;
      timeSinceLastEval := 0.0;
      inside := {};
      if !world.hasWorld {
        Stop(world, Failed);
        return;
      }
      if world.CanEmit() {
        events := events + [Started];
      }
    }

    /** Stop: a no-op when inactive; otherwise deactivates, raises Stopped when it can and empties the inside set. */
    method Stop(world: DriverWorld, reason: StopReason)
      modifies this`active, this`inside, this`events
      ensures !active
      ensures !old(active) ==> inside == old(inside) && events == old(events)
      ensures old(active) ==> inside == {} && events == old(events) + (if world.CanEmit() then [Stopped(reason)] else [])
    {
      if !active {
        return;
      }
      active := false;
      if world.CanEmit() {
        events := events + [Stopped(reason)];
      }
      inside := {};
    }
  }
}
