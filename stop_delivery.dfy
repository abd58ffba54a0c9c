// Private/Delivery/Exec_StopDeliveryV3.cpp: the StopDelivery action
// executor, which picks one way of stopping from its payload and hands it
// to the delivery subsystem.
module StopDelivery {
  import opened Common
  import opened DeliveryTypes
  import opened DeliverySubsystem

  /**
   * FPayload_DeliveryStopV3. The primitive-handle fields of the payload are
   * not read by the executor and are left out.
   */
  datatype StopPayload = StopPayload(useHandle: bool, handle: DeliveryHandle, deliveryId: Name,
                                     usePrimitiveId: bool, primitiveId: Name, reason: StopReason)

  /** Which subsystem call the executor makes. */
  datatype StopRoute = NoTarget | RouteHandle | RoutePrimitiveWithoutId | RoutePrimitive | RouteId

  predicate HasValidHandle(p: StopPayload) { p.useHandle && p.handle.IsValid() }
  predicate HasId(p: StopPayload) { p.deliveryId != NoName }
  predicate HasPrimitive(p: StopPayload) { p.usePrimitiveId && p.primitiveId != NoName }

  /**
   * The routing priority of Execute: a valid handle wins, then a primitive
   * (which needs a delivery id as well), then the delivery id alone.
   */
  function Route(p: StopPayload): (r: StopRoute)
    ensures r == NoTarget <==> !HasValidHandle(p) && !HasId(p) && !HasPrimitive(p)
    ensures r == RouteHandle <==> HasValidHandle(p)
    ensures r == RoutePrimitive <==> !HasValidHandle(p) && HasPrimitive(p) && HasId(p)
    ensures r == RoutePrimitiveWithoutId <==> !HasValidHandle(p) && HasPrimitive(p) && !HasId(p)
    ensures r == RouteId <==> !HasValidHandle(p) && !HasPrimitive(p) && HasId(p)
  {
    if !HasValidHandle(p) && !HasId(p) && !HasPrimitive(p) then NoTarget
    else if HasValidHandle(p) then RouteHandle
    else if HasPrimitive(p) then (if HasId(p) then RoutePrimitive else RoutePrimitiveWithoutId)
    else RouteId
  }

  /** A valid handle decides the route whatever the id and primitive fields say. */
  lemma HandleOverridesOtherFields(p: StopPayload, id: Name, usePrim: bool, prim: Name)
    requires HasValidHandle(p)
    ensures Route(p.(deliveryId := id, usePrimitiveId := usePrim, primitiveId := prim)) == RouteHandle
  {
  }

  /** Without a valid handle the handle's own fields do not matter. */
  lemma InvalidHandleIgnored(p: StopPayload, h: DeliveryHandle)
    requires !HasValidHandle(p) && !(p.useHandle && h.IsValid())
    ensures Route(p.(handle := h)) == Route(p)
  {
  }

  /** StopReasonToString: every one of the eight reasons has its own name, "Unknown" is never returned. */
  function StopReasonToString(r: StopReason): (s: string)
    ensures s != "Unknown" && |s| > 0
  {
    match r
    case Manual => "Manual"
    case DurationElapsed => "DurationElapsed"
    case OnFirstHit => "OnFirstHit"
    case OnEvent => "OnEvent"
    case OwnerDestroyed => "OwnerDestroyed"
    case SpellEnded => "SpellEnded"
    case Expired => "Expired"
    case Failed => "Failed"
  }

  /** No two reasons share a name, so the logged name identifies the reason. */
  lemma StopReasonNamesDistinct(a: StopReason, b: StopReason)
    requires a != b
    ensures StopReasonToString(a) != StopReasonToString(b)
  {
  }

  /**
   * Execute. A missing payload, world or subsystem returns early (the
   * flags say which are present); otherwise the route picks one subsystem
   * call, made for the runtime guid of the execution context with the
   * payload's reason. `stopped` is the local flag that the source only
   * logs; `emitted` lists the Stopped events of the groups stopped.
   */
  method Execute(hasPayload: bool, hasWorld: bool, sub: DeliverySubsystem?, ctxGuid: Guid, p: StopPayload)
    returns (stopped: bool, emitted: seq<GroupEvent>)
    requires sub != null ==> sub.Valid()
    modifies if sub != null then {sub} else {}
    ensures sub != null ==> sub.Valid() && sub.nextInstance == old(sub.nextInstance)
    ensures (!hasPayload || !hasWorld || sub == null || Route(p) in {NoTarget, RoutePrimitiveWithoutId}) ==>
              !stopped && emitted == [] &&
              (sub != null ==> sub.activeGroups == old(sub.activeGroups) && sub.lastRigEval == old(sub.lastRigEval))
    ensures hasPayload && hasWorld && sub != null && Route(p) == RouteHandle ==>
              stopped == (p.handle in old(sub.activeGroups)) &&
              sub.activeGroups == old(sub.activeGroups) - {p.handle} &&
              sub.lastRigEval == old(sub.lastRigEval) - {p.handle} &&
              emitted == (if stopped then [StoppedEvent(ctxGuid, p.reason)] else [])
    ensures hasPayload && hasWorld && sub != null && Route(p) == RouteId ==>
              var hit := Selected(old(sub.activeGroups).Keys, ById(ctxGuid, p.deliveryId));
              sub.activeGroups == old(sub.activeGroups) - hit &&
              sub.lastRigEval == old(sub.lastRigEval) - hit &&
              (stopped <==> hit != {}) &&
              emitted == StoppedEvents(ctxGuid, p.reason, |hit|)
    ensures hasPayload && hasWorld && sub != null && Route(p) == RoutePrimitive ==>
              var hit := PrimitiveTargets(old(sub.activeGroups), ById(ctxGuid, p.deliveryId), p.primitiveId);
              sub.activeGroups.Keys == old(sub.activeGroups).Keys &&
              (forall h :: h in sub.activeGroups ==>
                 sub.activeGroups[h] == if h in hit then WithoutPrimitive(old(sub.activeGroups)[h], p.primitiveId)
                                        else old(sub.activeGroups)[h]) &&
              sub.lastRigEval == old(sub.lastRigEval) &&
              (stopped <==> hit != {}) && emitted == []
  {
    stopped, emitted := false, [];
    if !hasPayload || !hasWorld || sub == null {
      return;
    }
    var route := Route(p);
    if route == NoTarget {
      return;
    }
    if route == RouteHandle {
      var names;
      stopped, names, emitted := sub.StopGroupInternal(p.handle, ctxGuid, p.reason);
    } else if route == RoutePrimitiveWithoutId {
      stopped := false;
    } else if route == RoutePrimitive {
      stopped := sub.StopByPrimitiveId(ctxGuid, p.deliveryId, p.primitiveId);
    } else {
      stopped, emitted := sub.StopById(ctxGuid, p.deliveryId, p.reason);
    }
  }
}
