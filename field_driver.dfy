// Private/Delivery/Drivers/DeliveryDriver_FieldV3.cpp: the field driver. On
// an interval it overlaps a sphere around its attach point, keeps the set of
// actors inside and raises Enter, Exit and Stay delivery events for it.
module FieldDriver {
  import opened Common
  import opened TargetingTypes
  import opened DeliveryTypes
  import opened DeliveryHits

  /** The Field config the driver reads: TickInterval, bEmitEnterExit, bEmitStay. */
  datatype FieldConfig = FieldConfig(tickInterval: real, emitEnterExit: bool, emitStay: bool)

  /** The smallest interval the field evaluates at. */
  const MinFieldInterval: real := 0.01

  /** Interval gating: an evaluation is due once max(0.01, TickInterval) has accumulated. */
  predicate FieldDue(acc: real, tickInterval: real) {
    acc >= Max(MinFieldInterval, tickInterval)
  }

  /** The actors the overlap puts inside: none when it reports no blocking overlap. */
  function Overlapped(any: bool, overlaps: seq<Hit>): set<ActorId> {
    if any then ActorSet(overlaps) else {}
  }

  /**
   * The events of one Evaluate, from the set inside before and after:
   * with bEmitEnterExit, Enter for the new actors and Exit for those that
   * left when there are any; with bEmitStay, Stay for all actors inside
   * when there are any. Each list is in ascending unique-id order.
   */
  function FieldEvents(cfg: FieldConfig, current: set<ActorId>, newSet: set<ActorId>): seq<DeliveryEvent> {
    EnterEvents(cfg, current, newSet) + ExitEvents(cfg, current, newSet) + StayEvents(cfg, newSet)
  }

  function EnterEvents(cfg: FieldConfig, current: set<ActorId>, newSet: set<ActorId>): seq<DeliveryEvent> {
    if cfg.emitEnterExit && newSet - current != {} then [Entered(SortedActors(newSet - current))] else []
  }

  function ExitEvents(cfg: FieldConfig, current: set<ActorId>, newSet: set<ActorId>): seq<DeliveryEvent> {
    if cfg.emitEnterExit && current - newSet != {} then [Exited(SortedActors(current - newSet))] else []
  }

  function StayEvents(cfg: FieldConfig, newSet: set<ActorId>): seq<DeliveryEvent> {
    if cfg.emitStay && newSet != {} then [Stayed(SortedActors(newSet))] else []
  }

  /**
   * Enter is raised iff enter/exit events are on and some actor is new, and
   * lists exactly the new actors in ascending unique-id order.
   */
  lemma FieldEnterMeaning(cfg: FieldConfig, current: set<ActorId>, newSet: set<ActorId>)
    ensures var e := FieldEvents(cfg, current, newSet);
            ((exists l :: Entered(l) in e) <==> cfg.emitEnterExit && exists a :: a in newSet && a !in current) &&
            (forall l :: Entered(l) in e ==> Ascending(l) && forall a :: a in l <==> a in newSet && a !in current)
  {
    EventsFromPieces(cfg, current, newSet);
    EnterPiece(cfg, current, newSet);
    var en := SortedActors(newSet - current);
    if cfg.emitEnterExit && exists a :: a in newSet && a !in current {
      var a :| a in newSet && a !in current;
      assert a in newSet - current;
      assert Entered(en) in EnterEvents(cfg, current, newSet);
    }
  }

  /** Exit is raised iff enter/exit events are on and some actor left, and lists exactly those in ascending order. */
  lemma FieldExitMeaning(cfg: FieldConfig, current: set<ActorId>, newSet: set<ActorId>)
    ensures var e := FieldEvents(cfg, current, newSet);
            ((exists l :: Exited(l) in e) <==> cfg.emitEnterExit && exists a :: a in current && a !in newSet) &&
            (forall l :: Exited(l) in e ==> Ascending(l) && forall a :: a in l <==> a in current && a !in newSet)
  {
    EventsFromPieces(cfg, current, newSet);
    ExitPiece(cfg, current, newSet);
    var ex := SortedActors(current - newSet);
    if cfg.emitEnterExit && exists a :: a in current && a !in newSet {
      var a :| a in current && a !in newSet;
      assert a in current - newSet;
      assert Exited(ex) in ExitEvents(cfg, current, newSet);
    }
  }

  /** Stay is raised iff stay events are on and the field holds an actor, and lists all of them in ascending order. */
  lemma FieldStayMeaning(cfg: FieldConfig, current: set<ActorId>, newSet: set<ActorId>)
    ensures var e := FieldEvents(cfg, current, newSet);
            ((exists l :: Stayed(l) in e) <==> cfg.emitStay && newSet != {}) &&
            (forall l :: Stayed(l) in e ==> Ascending(l) && forall a :: a in l <==> a in newSet)
  {
    EventsFromPieces(cfg, current, newSet);
    StayPiece(cfg, newSet);
    var st := SortedActors(newSet);
    if cfg.emitStay && newSet != {} {
      assert Stayed(st) in StayEvents(cfg, newSet);
    }
  }

  /** Each kind of event comes from its own piece. */
  lemma EventsFromPieces(cfg: FieldConfig, current: set<ActorId>, newSet: set<ActorId>)
    ensures var e := FieldEvents(cfg, current, newSet);
            (forall l :: Entered(l) in e <==> Entered(l) in EnterEvents(cfg, current, newSet)) &&
            (forall l :: Exited(l) in e <==> Exited(l) in ExitEvents(cfg, current, newSet)) &&
            (forall l :: Stayed(l) in e <==> Stayed(l) in StayEvents(cfg, newSet))
  {
    EnterPiece(cfg, current, newSet);
    ExitPiece(cfg, current, newSet);
    StayPiece(cfg, newSet);
    KindsOfConcat(EnterEvents(cfg, current, newSet), ExitEvents(cfg, current, newSet), StayEvents(cfg, newSet));
  }

  /** The Enter piece holds at most the one Enter event, listing the new actors in SortedActors order. */
  lemma EnterPiece(cfg: FieldConfig, current: set<ActorId>, newSet: set<ActorId>)
    ensures forall e :: e in EnterEvents(cfg, current, newSet) ==> e == Entered(SortedActors(newSet - current))
  {
  }

  /** The Exit piece holds at most the one Exit event, listing the actors that left in SortedActors order. */
  lemma ExitPiece(cfg: FieldConfig, current: set<ActorId>, newSet: set<ActorId>)
    ensures forall e :: e in ExitEvents(cfg, current, newSet) ==> e == Exited(SortedActors(current - newSet))
  {
  }

  /** The Stay piece holds at most the one Stay event, listing the actors inside in SortedActors order. */
  lemma StayPiece(cfg: FieldConfig, newSet: set<ActorId>)
    ensures forall e :: e in StayEvents(cfg, newSet) ==> e == Stayed(SortedActors(newSet))
  {
  }

  /** In Enter events followed by Exit events and Stay events, each kind comes from its own part. */
  lemma KindsOfConcat(en: seq<DeliveryEvent>, ex: seq<DeliveryEvent>, st: seq<DeliveryEvent>)
    requires forall e :: e in en ==> e.Entered?
    requires forall e :: e in ex ==> e.Exited?
    requires forall e :: e in st ==> e.Stayed?
    ensures (forall l :: Entered(l) in en + ex + st <==> Entered(l) in en) &&
            (forall l :: Exited(l) in en + ex + st <==> Exited(l) in ex) &&
            (forall l :: Stayed(l) in en + ex + st <==> Stayed(l) in st)
  {
    assert forall l :: Stayed(l) !in en + ex;
    assert forall l :: Exited(l) !in en && Exited(l) !in st;
    assert forall l :: Entered(l) !in ex + st;
  }

  /**
   * The Enter and Exit loops: the members of `from`, in order, that are not
   * in `other`. An ascending `from` gives an ascending result.
   */
  method ListMissing(from: seq<ActorId>, other: set<ActorId>) returns (r: seq<ActorId>)
    ensures forall a :: a in r <==> a in from && a !in other
    ensures Ascending(from) ==> Ascending(r)
  {
    r := [];
    var i := 0;
    while i < |from|
      invariant 0 <= i <= |from|
      invariant forall a :: a in r <==> a in from[..i] && a !in other
      invariant Ascending(from) ==> Ascending(r) && forall k :: 0 <= k < |r| ==> r[k] in from[..i]
    {
      assert from[..i + 1] == from[..i] + [from[i]];
      if from[i] !in other {
        r := r + [from[i]];
      }
      i := i + 1;
    }
    assert from[..i] == from;
  }

  /** The Enter loop over the new set: the actors not inside before, raised when there are any. */
  method EnterHits(cfg: FieldConfig, current: set<ActorId>, newSet: set<ActorId>) returns (e: seq<DeliveryEvent>)
    ensures e == EnterEvents(cfg, current, newSet)
  {
    e := [];
    if cfg.emitEnterExit {
      var enter := ListMissing(SortedActors(newSet), current);
      SortedActorsUnique(newSet - current, enter);
      if |enter| > 0 {
        e := [Entered(enter)];
      }
    }
  }

  /** The Exit loop over the old set: the actors no longer inside, raised when there are any. */
  method ExitHits(cfg: FieldConfig, current: set<ActorId>, newSet: set<ActorId>) returns (e: seq<DeliveryEvent>)
    ensures e == ExitEvents(cfg, current, newSet)
  {
    e := [];
    if cfg.emitEnterExit {
      var exit := ListMissing(SortedActors(current), newSet);
      SortedActorsUnique(current - newSet, exit);
      if |exit| > 0 {
        e := [Exited(exit)];
      }
    }
  }

  /** UDeliveryDriver_FieldV3 as its .cpp has it. */
  class FieldDeliveryDriver {
    var active: bool
    var config: FieldConfig
    var handle: DeliveryHandle
    var timeSinceLastEval: real
    var current: set<ActorId>
    /** The delivery events raised so far, oldest first. */
    var events: seq<DeliveryEvent>

    constructor()
      ensures !active && current == {} && events == []
    {
      active := false;
      config := FieldConfig(0.0, false, false);
      handle := DefaultHandle;
      timeSinceLastEval := 0.0;
      current := {};
      events := [];
    }

    /**
     * Evaluate on the overlap's answer (`any`, `overlaps`). Without a world
     * nothing happens; otherwise the events are FieldEvents and the overlap's
     * actors become the current set. The source reaches the delivery
     * subsystem without a null check, so a world must carry one.
     */
    method Evaluate(world: DriverWorld, any: bool, overlaps: seq<Hit>)
      requires world.hasWorld ==> world.hasSubsystem
      modifies this`current, this`events
      ensures !world.hasWorld ==> current == old(current) && events == old(events)
      ensures world.hasWorld ==>
                current == Overlapped(any, overlaps) &&
                events == old(events) + FieldEvents(config, old(current), Overlapped(any, overlaps))
    {
      if !world.hasWorld {
        return;
      }
      var newSet: set<ActorId> := {};
      if any {
        newSet := CollectActors(overlaps);
      }
      var entered := EnterHits(config, current, newSet);
      var exited := ExitHits(config, current, newSet);
      var stayed: seq<DeliveryEvent> := [];
      if config.emitStay && |newSet| > 0 {
        stayed := [Stayed(SortedActors(newSet))];
      }
      events := events + (entered + exited + stayed);
      current := newSet;
    }

    /**
     * Tick. Inactive it does nothing. Otherwise `dt` is accumulated
     * (unclamped); once max(0.01, TickInterval) has accumulated the
     * accumulator resets and the field is evaluated on the overlap's answer.
     */
    method Tick(world: DriverWorld, dt: real, any: bool, overlaps: seq<Hit>)
      requires world.hasWorld ==> world.hasSubsystem
      modifies this`timeSinceLastEval, this`current, this`events
      ensures !old(active) ==>
                timeSinceLastEval == old(timeSinceLastEval) && current == old(current) && events == old(events)
      ensures old(active) && !FieldDue(old(timeSinceLastEval) + dt, config.tickInterval) ==>
                timeSinceLastEval == old(timeSinceLastEval) + dt && current == old(current) && events == old(events)
      ensures old(active) && FieldDue(old(timeSinceLastEval) + dt, config.tickInterval) ==>
                timeSinceLastEval == 0.0 &&
                (!world.hasWorld ==> current == old(current) && events == old(events)) &&
                (world.hasWorld ==>
                   current == Overlapped(any, overlaps) &&
                   events == old(events) + FieldEvents(config, old(current), Overlapped(any, overlaps)))
    {
      if !active {
        return;
      }
      timeSinceLastEval := timeSinceLastEval + dt;
      var interval := Max(MinFieldInterval, config.tickInterval);
      if timeSinceLastEval < interval {
        return;
      }
      timeSinceLastEval := 0.0;
      Evaluate(world, any, overlaps);
    }

    /**
     * Start: takes the config, becomes active with a zero accumulator and an
     * empty current set, and raises Started. It does not evaluate. The
     * source reaches the world and its subsystem without null checks.
     */
    method Start(world: DriverWorld, h: DeliveryHandle, cfg: FieldConfig)
      requires world.CanEmit()
      modifies this
      ensures active && config == cfg && handle == h
      ensures timeSinceLastEval == 0.0 && current == {}
      ensures events == old(events) + [Started]
    {
      config := cfg;
      handle := h;
      active := true;
      timeSinceLastEval := 0.0;
      current := {};
      events := events + [Started];
    }

    /**
     * Stop: a no-op when inactive; otherwise deactivates, empties the
     * current set and raises Stopped, reaching the subsystem unchecked.
     */
    method Stop(world: DriverWorld, reason: StopReason)
      requires active ==> world.CanEmit()
      modifies this`active, this`current, this`events
      ensures !active
      ensures !old(active) ==> current == old(current) && events == old(events)
      ensures old(active) ==> current == {} && events == old(events) + [Stopped(reason)]
    {
      if !active {
        return;
      }
      active := false;
      current := {};
      events := events + [Stopped(reason)];
    }
  }

  /** An evaluation is never due before 0.01 has accumulated, and is due once the configured interval has, if that is larger. */
  lemma FieldDueMeaning(acc: real, tickInterval: real)
    ensures FieldDue(acc, tickInterval) <==> acc >= MinFieldInterval && acc >= tickInterval
  {
  }
}
