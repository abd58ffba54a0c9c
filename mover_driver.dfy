// Private/Delivery/Drivers/DeliveryDriver_MoverV3.cpp: the mover (projectile)
// driver. Each step it moves, sweeps its shape from the old to the new
// position and reports each actor it hits at most once over its lifetime,
// stopping on the first hit or when the pierce budget is spent.
module MoverDriver {
  import opened Common
  import opened TargetingTypes
  import opened DeliveryTypes
  import opened DeliveryHits
  import opened TargetStore

  /** The Mover and StopPolicy fields of the delivery spec the driver reads. */
  datatype MoverSpec = MoverSpec(tickInterval: real, maxDistance: real, maxDuration: real, stopOnHit: bool,
                                 pierce: bool, maxPierceHits: int, homingTargetSet: Name, outTargetSet: Name)

  /**
   * ChooseHomingTargetDeterministic on the store's answer: none without a
   * store, a set name or a stored set; else the live actor nearest to the
   * mover (`distSq`), ties to the smaller StableId.
   */
  function HomingTarget(spec: MoverSpec, hasStore: bool, found: Option<TargetSet>, distSq: ActorId -> real)
    : (r: Option<ActorId>)
    ensures !hasStore || spec.homingTargetSet == NoName || found.None? ==> r.None?
    ensures hasStore && spec.homingTargetSet != NoName && found.Some? ==>
              (r.None? <==> NoLiveRef(found.value.targets)) &&
              (r.Some? ==> IsNearest(found.value.targets, distSq, r.value))
  {
    if !hasStore || spec.homingTargetSet == NoName || found.None? then None
    else NearestLive(found.value.targets, distSq)
  }

  /** The scan loop's state: the actors reported so far, the unique-hit set and the pierce count. */
  datatype ScanResult = ScanResult(out: seq<ActorId>, seen: set<ActorId>, count: int)

  /** A hit in `hits[i..]` whose actor is live and not yet seen. */
  predicate FreshAt(hits: seq<Hit>, k: nat, seen: set<ActorId>)
    requires k < |hits|
  {
    hits[k].actor.Some? && hits[k].actor.value !in seen
  }

  /**
   * The hit loop of EvaluateSweep from hit `i` on: hits without an actor
   * and actors already hit are skipped; a fresh actor is recorded and
   * reported; without pierce the loop ends there, with pierce the count
   * goes up and the loop ends once a positive MaxPierceHits is reached.
   */
  function Scan(hits: seq<Hit>, i: nat, seen: set<ActorId>, pierce: bool, cap: int, count: int): ScanResult
    requires i <= |hits|
    decreases |hits| - i
  {
    if i == |hits| then ScanResult([], seen, count)
    else if !FreshAt(hits, i, seen) then Scan(hits, i + 1, seen, pierce, cap, count)
    else
      var a := hits[i].actor.value;
      if !pierce then ScanResult([a], seen + {a}, count)
      else if cap > 0 && count + 1 >= cap then ScanResult([a], seen + {a}, count + 1)
      else
        var rest := Scan(hits, i + 1, seen + {a}, pierce, cap, count + 1);
        ScanResult([a] + rest.out, rest.seen, rest.count)
  }

  /**
   * What the scan reports is new: no actor twice, none already seen, each
   * the actor of one of the scanned hits; the unique-hit set grows by
   * exactly the reported actors.
   */
  lemma {:induction false} ScanReportsFresh(hits: seq<Hit>, i: nat, seen: set<ActorId>, pierce: bool, cap: int, count: int)
    requires i <= |hits|
    ensures var r := Scan(hits, i, seen, pierce, cap, count);
            NoDuplicates(r.out) &&
            (forall a :: a in r.out ==> a !in seen) &&
            (forall a :: a in r.out ==> exists k :: i <= k < |hits| && hits[k].actor == Some(a)) &&
            (forall a :: a in r.seen <==> a in seen || a in r.out)
    decreases |hits| - i
  {
    if i < |hits| {
      if !FreshAt(hits, i, seen) {
        ScanReportsFresh(hits, i + 1, seen, pierce, cap, count);
      } else if pierce && !(cap > 0 && count + 1 >= cap) {
        var a := hits[i].actor.value;
        ScanReportsFresh(hits, i + 1, seen + {a}, pierce, cap, count + 1);
        var rest := Scan(hits, i + 1, seen + {a}, pierce, cap, count + 1);
        assert forall k :: 0 < k < |[a] + rest.out| ==> ([a] + rest.out)[k] == rest.out[k - 1];
      }
    }
  }

  /**
   * Without pierce at most one actor is reported and the count stays;
   * with pierce the count goes up by the number reported and, starting
   * below a positive MaxPierceHits, never passes it.
   */
  lemma {:induction false} ScanCounts(hits: seq<Hit>, i: nat, seen: set<ActorId>, pierce: bool, cap: int, count: int)
    requires i <= |hits|
    ensures var r := Scan(hits, i, seen, pierce, cap, count);
            (!pierce ==> |r.out| <= 1 && r.count == count) &&
            (pierce ==> r.count == count + |r.out|) &&
            (pierce && cap > 0 && count < cap ==> r.count <= cap)
    decreases |hits| - i
  {
    if i < |hits| {
      if !FreshAt(hits, i, seen) {
        ScanCounts(hits, i + 1, seen, pierce, cap, count);
      } else if pierce && !(cap > 0 && count + 1 >= cap) {
        ScanCounts(hits, i + 1, seen + {hits[i].actor.value}, pierce, cap, count + 1);
      }
    }
  }

  /** The scan reports nothing exactly when no scanned hit has a fresh actor. */
  lemma {:induction false} ScanEmptyIffNoFresh(hits: seq<Hit>, i: nat, seen: set<ActorId>, pierce: bool, cap: int, count: int)
    requires i <= |hits|
    ensures Scan(hits, i, seen, pierce, cap, count).out == [] <==> forall k :: i <= k < |hits| ==> !FreshAt(hits, k, seen)
    decreases |hits| - i
  {
    if i < |hits| && !FreshAt(hits, i, seen) {
      ScanEmptyIffNoFresh(hits, i + 1, seen, pierce, cap, count);
    }
  }

  /** Without pierce the one actor reported is that of the first hit with a fresh actor. */
  lemma {:induction false} ScanFirstFresh(hits: seq<Hit>, i: nat, seen: set<ActorId>, cap: int, count: int)
    requires i <= |hits|
    ensures var r := Scan(hits, i, seen, false, cap, count);
            |r.out| == 1 ==>
              exists k :: i <= k < |hits| && FreshAt(hits, k, seen) && hits[k].actor.value == r.out[0] &&
                          forall l :: i <= l < k ==> !FreshAt(hits, l, seen)
    decreases |hits| - i
  {
    if i < |hits| && !FreshAt(hits, i, seen) {
      ScanFirstFresh(hits, i + 1, seen, cap, count);
    }
  }

  /** With pierce and no positive MaxPierceHits, every fresh actor of the scanned hits is reported. */
  lemma {:induction false} ScanUncappedComplete(hits: seq<Hit>, i: nat, seen: set<ActorId>, cap: int, count: int)
    requires i <= |hits| && cap <= 0
    ensures var r := Scan(hits, i, seen, true, cap, count);
            forall k :: i <= k < |hits| && FreshAt(hits, k, seen) ==> hits[k].actor.value in r.out
    decreases |hits| - i
  {
    if i < |hits| {
      if !FreshAt(hits, i, seen) {
        ScanUncappedComplete(hits, i + 1, seen, cap, count);
      } else {
        var a := hits[i].actor.value;
        ScanUncappedComplete(hits, i + 1, seen + {a}, cap, count + 1);
        var rest := Scan(hits, i + 1, seen + {a}, true, cap, count + 1);
        forall k | i <= k < |hits| && FreshAt(hits, k, seen) ensures hits[k].actor.value in [a] + rest.out {
          if hits[k].actor.value != a {
            assert FreshAt(hits, k, seen + {a});
          }
        }
      }
    }
  }

  /** A hit ends the mover: OnFirstHit without pierce, or when the pierce count reaches a positive MaxPierceHits. */
  predicate StopsAfterHit(spec: MoverSpec, count: int) {
    (spec.stopOnHit && !spec.pierce) || (spec.pierce && spec.maxPierceHits > 0 && count >= spec.maxPierceHits)
  }

  /** The Hit batch's writeback: the reported actors under the out set, when a subsystem and an out set exist. */
  function HitWrite(spec: MoverSpec, world: DriverWorld, out: seq<ActorId>): Option<(Name, TargetSet)> {
    if world.hasSubsystem && spec.outTargetSet != NoName then Some((spec.outTargetSet, TargetSet(RefsTo(out)))) else None
  }

  /** The scan one sweep makes: nothing without a world, with a blocking hit or with no hits; else Scan of the sorted hits. */
  function SweepScan(spec: MoverSpec, world: DriverWorld, any: bool, hits: seq<Hit>, seen: set<ActorId>, count: int)
    : ScanResult
  {
    if !world.hasWorld || !any || |hits| == 0 then ScanResult([], seen, count)
    else Scan(SortHits(ById, hits), 0, seen, spec.pierce, spec.maxPierceHits, count)
  }

  /** A sweep ends the mover when it reported something and StopsAfterHit holds. */
  predicate SweepStops(spec: MoverSpec, out: seq<ActorId>, count: int) {
    out != [] && StopsAfterHit(spec, count)
  }

  /** The events of a sweep: the Hit batch when there is a subsystem, then Stopped(OnFirstHit) if the sweep stops. */
  function SweepEvents(spec: MoverSpec, world: DriverWorld, out: seq<ActorId>, count: int): seq<DeliveryEvent> {
    if out == [] then []
    else (if world.hasSubsystem then [HitBatch(out)] else []) +
         (if StopsAfterHit(spec, count) && world.CanEmit() then [Stopped(OnFirstHit)] else [])
  }

  /** The writeback of a sweep: none when nothing was reported. */
  function SweepWrite(spec: MoverSpec, world: DriverWorld, out: seq<ActorId>): Option<(Name, TargetSet)> {
    if out == [] then None else HitWrite(spec, world, out)
  }

  /** UDeliveryDriver_MoverV3 as its .cpp has it; pose and velocity are not modelled. */
  class MoverDeliveryDriver {
    var active: bool
    var spec: MoverSpec
    var handle: DeliveryHandle
    var distanceTraveled: real
    var timeSinceStart: real
    var timeSinceLastEval: real
    var pierceHitsSoFar: int
    var uniqueHitTargets: set<ActorId>
    /** The delivery events raised so far, oldest first. */
    var events: seq<DeliveryEvent>
    /** Every actor reported in a Hit batch since Start, in order. */
    ghost var reported: seq<ActorId>

    /**
     * Each actor is reported at most once, the reported actors are the
     * unique-hit set, the distance is never negative, and with pierce and a
     * positive MaxPierceHits the count never passes it.
     */
    ghost predicate Recorded()
      reads this
    {
      NoDuplicates(reported) &&
      (forall a :: a in reported <==> a in uniqueHitTargets) &&
      distanceTraveled >= 0.0 &&
      (spec.pierce && spec.maxPierceHits > 0 ==> pierceHitsSoFar <= spec.maxPierceHits)
    }

    /** Recorded, and an active mover has pierce budget left. */
    ghost predicate Valid()
      reads this
    {
      Recorded() && (active && spec.pierce && spec.maxPierceHits > 0 ==> pierceHitsSoFar < spec.maxPierceHits)
    }

    constructor()
      ensures Valid() && !active && events == []
    {
      active := false;
      spec := MoverSpec(0.0, 0.0, 0.0, false, false, 0, NoName, NoName);
      handle := DefaultHandle;
      distanceTraveled := 0.0;
      timeSinceStart := 0.0;
      timeSinceLastEval := 0.0;
      pierceHitsSoFar := 0;
      uniqueHitTargets := {};
      events := [];
      reported := [];
    }

    /** ChooseHomingTargetDeterministic: the nearest live actor of the homing set. */
    method ChooseHomingTargetDeterministic(store: SpellTargetStore?, distSq: ActorId -> real) returns (target: Option<ActorId>)
      ensures target == HomingTarget(spec, store != null, if store != null then store.Find(spec.homingTargetSet) else None, distSq)
    {
      if store == null || spec.homingTargetSet == NoName {
        return None;
      }
      var found := store.Find(spec.homingTargetSet);
      if found.None? {
        return None;
      }
      target := ChooseNearest(found.value.targets, distSq);
    }

    /** Stop: a no-op when inactive; otherwise deactivates and raises Stopped when it can. */
    method Stop(world: DriverWorld, reason: StopReason)
      requires Recorded()
      modifies this`active, this`events
      ensures Valid() && !active
      ensures events == old(events) + (if old(active) && world.CanEmit() then [Stopped(reason)] else [])
    {
      if !active {
        return;
      }
      active := false;
      if world.CanEmit() {
        events := events + [Stopped(reason)];
      }
    }

    /**
     * Start: takes the spec, becomes active and resets the distance, both
     * clocks, the pierce count and the unique-hit set. Without a world it
     * stops at once with Failed (raising nothing); otherwise Started is
     * raised when there is a subsystem.
     */
    method Start(world: DriverWorld, h: DeliveryHandle, newSpec: MoverSpec)
      modifies this
      ensures Valid()
      ensures spec == newSpec && handle == h
      ensures distanceTraveled == 0.0 && timeSinceStart == 0.0 && timeSinceLastEval == 0.0
      ensures pierceHitsSoFar == 0 && uniqueHitTargets == {} && reported == []
      ensures active <==> world.hasWorld
      ensures events == old(events) + (if world.CanEmit() then [Started] else [])
    {
      spec := newSpec;
      handle := h;
      active := true;
      distanceTraveled := 0.0;
      timeSinceStart := 0.0;
      timeSinceLastEval := 0.0;
      pierceHitsSoFar := 0;
      uniqueHitTargets := {};
      reported := [];
      if !world.hasWorld {
        Stop(world, Failed);
        return;
      }
      if world.CanEmit() {
        events := events + [Started];
      }
    }

    /**
     * EvaluateSweep on the sweep's answer (`any`, `hits`). Without a world,
     * a blocking hit or any hit nothing changes. Otherwise the hits are
     * sorted, scanned (Scan), and when something is reported the Hit batch
     * is raised and written back; then the mover stops if StopsAfterHit.
     */
    method EvaluateSweep(world: DriverWorld, any: bool, hits: seq<Hit>, store: SpellTargetStore?)
      requires Valid() && active
      modifies this`active, this`pierceHitsSoFar, this`uniqueHitTargets, this`events, this`reported,
               if store != null then {store} else {}
      ensures Valid()
      ensures var r := SweepScan(spec, world, any, hits, old(uniqueHitTargets), old(pierceHitsSoFar));
              uniqueHitTargets == r.seen && pierceHitsSoFar == r.count && reported == old(reported) + r.out &&
              active == !SweepStops(spec, r.out, r.count) && events == old(events) + SweepEvents(spec, world, r.out, r.count) &&
              (store != null ==> store.sets == Written(old(store.sets), true, SweepWrite(spec, world, r.out)))
    {
      if !world.hasWorld || !any || |hits| == 0 {
        return;
      }
      var out := RecordHits(SortHits(ById, hits));
      ReportHits(world, out, store);
    }

    /**
     * What a sweep does with the actors it reported: nothing when there are
     * none; else the writeback and the Hit batch when there is a subsystem,
     * then the stop on hit.
     */
    method ReportHits(world: DriverWorld, out: seq<ActorId>, store: SpellTargetStore?)
      requires Recorded() && active && NoDuplicates(out) && (out == [] ==> Valid())
      modifies this`active, this`events, if store != null then {store} else {}
      ensures Valid()
      ensures active == !SweepStops(spec, out, pierceHitsSoFar)
      ensures events == old(events) + SweepEvents(spec, world, out, pierceHitsSoFar)
      ensures store != null ==> store.sets == Written(old(store.sets), true, SweepWrite(spec, world, out))
    {
      if |out| == 0 {
        return;
      }
      if world.hasSubsystem {
        if store != null {
          WriteHits(world, out, store);
        }
        events := events + [HitBatch(out)];
      }
      // bStopOnHit without pierce, or the pierce budget spent: both stop with OnFirstHit.
      if StopsAfterHit(spec, pierceHitsSoFar) {
        Stop(world, OnFirstHit);
      }
    }

    /** The scan of the sorted hits, recorded in the unique-hit set, the pierce count and `reported`. */
    method RecordHits(sorted: seq<Hit>) returns (out: seq<ActorId>)
      requires Valid() && active
      modifies this`pierceHitsSoFar, this`uniqueHitTargets, this`reported
      ensures Recorded() && NoDuplicates(out)
      ensures pierceHitsSoFar == old(pierceHitsSoFar) + (if spec.pierce then |out| else 0)
      ensures var r := Scan(sorted, 0, old(uniqueHitTargets), spec.pierce, spec.maxPierceHits, old(pierceHitsSoFar));
              out == r.out && uniqueHitTargets == r.seen && pierceHitsSoFar == r.count && reported == old(reported) + out
    {
      ghost var r := Scan(sorted, 0, uniqueHitTargets, spec.pierce, spec.maxPierceHits, pierceHitsSoFar);
      ScanReportsFresh(sorted, 0, uniqueHitTargets, spec.pierce, spec.maxPierceHits, pierceHitsSoFar);
      ScanCounts(sorted, 0, uniqueHitTargets, spec.pierce, spec.maxPierceHits, pierceHitsSoFar);
      out := ScanHits(sorted);
      reported := reported + out;
      assert NoDuplicates(reported) by {
        forall i, j | 0 <= i < j < |reported| ensures reported[i] != reported[j] {
          if j >= |old(reported)| && i < |old(reported)| {
            assert reported[i] in old(uniqueHitTargets);
            assert reported[j] in r.out;
          }
        }
      }
    }

    /** The Hit batch's writeback into the store: the reported actors, AddUnique'd in order, under the out set. */
    method WriteHits(world: DriverWorld, out: seq<ActorId>, store: SpellTargetStore)
      requires world.hasSubsystem && NoDuplicates(out)
      modifies store
      ensures store.sets == Written(old(store.sets), true, HitWrite(spec, world, out))
    {
      if spec.outTargetSet != NoName {
        var outSet := AddActorsUnique(out);
        DistinctActorsWrittenAsListed(out);
        store.Set(spec.outTargetSet, outSet);
      }
    }

    /** The hit loop itself, over hits already in sort order: Scan from the first hit. */
    method ScanHits(sorted: seq<Hit>) returns (out: seq<ActorId>)
      modifies this`pierceHitsSoFar, this`uniqueHitTargets
      ensures var r := Scan(sorted, 0, old(uniqueHitTargets), spec.pierce, spec.maxPierceHits, old(pierceHitsSoFar));
              out == r.out && uniqueHitTargets == r.seen && pierceHitsSoFar == r.count
    {
      out := [];
      var i := 0;
      while i < |sorted|
        invariant 0 <= i <= |sorted|
        invariant var rest := Scan(sorted, i, uniqueHitTargets, spec.pierce, spec.maxPierceHits, pierceHitsSoFar);
                  Scan(sorted, 0, old(uniqueHitTargets), spec.pierce, spec.maxPierceHits, old(pierceHitsSoFar)) ==
                  ScanResult(out + rest.out, rest.seen, rest.count)
        decreases |sorted| - i
      {
        var a := sorted[i].actor;
        if a.None? || a.value in uniqueHitTargets {
          i := i + 1;
          continue;
        }
        uniqueHitTargets := uniqueHitTargets + {a.value};
        out := out + [a.value];
        if spec.pierce {
          pierceHitsSoFar := pierceHitsSoFar + 1;
          if spec.maxPierceHits > 0 && pierceHitsSoFar >= spec.maxPierceHits {
            return;
          }
        } else {
          return;
        }
        i := i + 1;
      }
    }

    /**
     * Tick. Inactive it does nothing. Otherwise both clocks advance by
     * max(0, dt); an elapsed MaxDuration stops with DurationElapsed; the
     * interval gates the step and resets the accumulator; the step moves the
     * mover by `stepDist` (the distance between the old and new position);
     * reaching a positive MaxDistance stops with DurationElapsed without a
     * sweep; otherwise the sweep's answer is evaluated.
     */
    method Tick(world: DriverWorld, dt: real, stepDist: real, any: bool, hits: seq<Hit>, store: SpellTargetStore?)
      requires Valid() && stepDist >= 0.0
      modifies this`active, this`timeSinceStart, this`timeSinceLastEval, this`distanceTraveled,
               this`pierceHitsSoFar, this`uniqueHitTargets, this`events, this`reported,
               if store != null then {store} else {}
      ensures Valid()
      ensures distanceTraveled >= old(distanceTraveled)
      ensures !old(active) ==>
                !active && timeSinceStart == old(timeSinceStart) && timeSinceLastEval == old(timeSinceLastEval) &&
                distanceTraveled == old(distanceTraveled) && events == old(events) && reported == old(reported)
      ensures old(active) ==> timeSinceStart == old(timeSinceStart) + Max(0.0, dt)
      ensures old(active) && DurationReached(spec.maxDuration, timeSinceStart) ==>
                !active && distanceTraveled == old(distanceTraveled) &&
                events == old(events) + (if world.CanEmit() then [Stopped(DurationElapsed)] else []) &&
                reported == old(reported) && (store != null ==> store.sets == old(store.sets))
      ensures old(active) && !DurationReached(spec.maxDuration, timeSinceStart) &&
              !EvaluationDue(old(timeSinceLastEval) + Max(0.0, dt), spec.tickInterval) ==>
                active && timeSinceLastEval == old(timeSinceLastEval) + Max(0.0, dt) &&
                distanceTraveled == old(distanceTraveled) && events == old(events) && reported == old(reported)
      ensures old(active) && !DurationReached(spec.maxDuration, timeSinceStart) &&
              EvaluationDue(old(timeSinceLastEval) + Max(0.0, dt), spec.tickInterval) ==>
                timeSinceLastEval == 0.0 && distanceTraveled == old(distanceTraveled) + stepDist &&
                (DurationReached(spec.maxDistance, distanceTraveled) ==>
                   !active && events == old(events) + (if world.CanEmit() then [Stopped(DurationElapsed)] else []) &&
                   reported == old(reported) && (store != null ==> store.sets == old(store.sets))) &&
                (!DurationReached(spec.maxDistance, distanceTraveled) ==>
                   var r := SweepScan(spec, world, any, hits, old(uniqueHitTargets), old(pierceHitsSoFar));
                   uniqueHitTargets == r.seen && pierceHitsSoFar == r.count && reported == old(reported) + r.out &&
                   active == !SweepStops(spec, r.out, r.count) &&
                   events == old(events) + SweepEvents(spec, world, r.out, r.count) &&
                   (store != null ==> store.sets == Written(old(store.sets), true, SweepWrite(spec, world, r.out))))
    {
      if !active {
        return;
      }
      var d := Max(0.0, dt);
      timeSinceStart := timeSinceStart + d;
      timeSinceLastEval := timeSinceLastEval + d;
      if spec.maxDuration > 0.0 && timeSinceStart >= spec.maxDuration {
        Stop(world, DurationElapsed);
        return;
      }
      var interval := spec.tickInterval;
      if interval > 0.0 && timeSinceLastEval < interval {
        return;
      }
      timeSinceLastEval := 0.0;
      distanceTraveled := distanceTraveled + stepDist;
      if spec.maxDistance > 0.0 && distanceTraveled >= spec.maxDistance {
        Stop(world, DurationElapsed);
        return;
      }
      EvaluateSweep(world, any, hits, store);
    }
  }
}
