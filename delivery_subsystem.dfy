// UDeliverySubsystemV3 (Private/Delivery/DeliverySubsystemV3.cpp): delivery
// groups keyed by handle, per-(runtime, id) instance counters, seeds, the
// rig re-evaluation decision and the stop operations.
module DeliverySubsystem {
  import opened Common
  import opened DeliveryTypes

  /** HashCombineFast32 on unsigned 32-bit words (all arithmetic wraps). */
  function HashCombineFast32(a: bv32, b: bv32): bv32 {
    a ^ (b + 0x9e3779b9 + (a << 6) + (a >> 2))
  }

  /** ComputeGroupSeed: the guid hash, folded with the id's hash, then with the instance index. */
  function ComputeGroupSeed(guidHash: Guid -> bv32, nameHash: Name -> bv32, g: Guid, id: Name, instance: int): bv32 {
    HashCombineFast32(HashCombineFast32(guidHash(g), nameHash(id)), IntHash(instance))
  }

  /** A primitive's seed: the group seed combined with the primitive id's hash. */
  function PrimitiveSeed(groupSeed: bv32, nameHash: Name -> bv32, p: Name): bv32 {
    HashCombineFast32(groupSeed, nameHash(p))
  }

  /** Reference values of the mixer: the golden-ratio constant for two zero words, and the effect of the lowest bit of either word. */
  lemma HashCombineVectors()
    ensures HashCombineFast32(0, 0) == 0x9e3779b9
    ensures HashCombineFast32(1, 0) == 0x9e3779f8
    ensures HashCombineFast32(0, 1) == 0x9e3779ba
  {
  }

  /**
   * The group seed folds exactly the fields of the group's handle, in the
   * order the handle's own type hash folds them, with HashCombineFast32 as
   * the combiner.
   */
  lemma GroupSeedIsHandleHash(guidHash: Guid -> bv32, nameHash: Name -> bv32, h: DeliveryHandle)
    ensures ComputeGroupSeed(guidHash, nameHash, h.runtimeGuid, h.deliveryId, h.instanceIndex)
         == HandleHash(h, guidHash, nameHash, HashCombineFast32)
  {
  }

  /**
   * EvaluateRigIfNeeded's decision: always under EveryTick; under OnStart
   * only while the emitter cache is empty; under Interval when the interval
   * is not positive, when there is no previous evaluation, or when at least
   * the interval has passed since it.
   */
  function ShouldEvaluateRig(policy: PoseUpdatePolicy, interval: real, emitterCount: nat,
                             last: Option<real>, now: real): (r: bool)
    ensures policy == EveryTick ==> r
    ensures policy == OnStart ==> (r <==> emitterCount == 0)
    ensures policy == Interval ==> (r <==> interval <= 0.0 || last.None? || now - last.value >= interval)
  {
    match policy
    case EveryTick => true
    case OnStart => emitterCount == 0
    case Interval =>
      var iv := Max(0.0, interval);
      if iv <= 0.0 then true
      else if last.None? then true
      else now - last.value >= iv
  }

  /** A group that has never been evaluated is always evaluated, whatever its policy. */
  lemma FirstEvaluationAlwaysRuns(policy: PoseUpdatePolicy, interval: real, now: real)
    ensures ShouldEvaluateRig(policy, interval, 0, None, now)
  {
  }

  datatype PrimitiveSpec = PrimitiveSpec(primitiveId: Name, kind: DeliveryKind)

  /** FDeliverySpecV3, reduced to what the subsystem reads. */
  datatype DeliverySpec = DeliverySpec(deliveryId: Name, primitives: seq<PrimitiveSpec>,
                                       poseUpdatePolicy: PoseUpdatePolicy, poseUpdateInterval: real)

  /** A primitive's driver and context as the group keeps them. */
  datatype DriverSlot = DriverSlot(kind: DeliveryKind, primitiveIndex: nat, seed: bv32, active: bool)

  /** UDeliveryGroupRuntimeV3, reduced: the rig cache is its emitter count. */
  datatype Group = Group(handle: DeliveryHandle, spec: DeliverySpec, startTime: real, seed: bv32,
                         emitterCount: nat, drivers: map<Name, DriverSlot>)

  /** The ids of the primitives that get a driver: every one that is not None. */
  function NamedIds(prims: seq<PrimitiveSpec>): (ids: set<Name>)
    ensures NoName !in ids
    ensures forall i :: 0 <= i < |prims| && prims[i].primitiveId != NoName ==> prims[i].primitiveId in ids
  {
    if |prims| == 0 then {}
    else
      var n := |prims| - 1;
      var front := NamedIds(prims[..n]);
      assert forall i :: 0 <= i < n ==> prims[..n][i] == prims[i];
      if prims[n].primitiveId != NoName then front + {prims[n].primitiveId} else front
  }

  /**
   * `slot` is the driver spawned for primitive id p: it comes from the last
   * primitive with that id, with that primitive's kind, the seed derived
   * for p, and the activity its own Start left it in.
   */
  predicate SpawnedFrom(prims: seq<PrimitiveSpec>, p: Name, slot: DriverSlot, groupSeed: bv32,
                        nameHash: Name -> bv32, activeAfterStart: PrimitiveSpec -> bool) {
    var i := slot.primitiveIndex;
    i < |prims| && prims[i].primitiveId == p &&
    slot == DriverSlot(prims[i].kind, i, PrimitiveSeed(groupSeed, nameHash, p), activeAfterStart(prims[i])) &&
    forall j :: i < j < |prims| ==> prims[j].primitiveId != p
  }

  lemma SpawnedFromExtend(prims: seq<PrimitiveSpec>, p: Name, slot: DriverSlot, groupSeed: bv32,
                          nameHash: Name -> bv32, activeAfterStart: PrimitiveSpec -> bool)
    requires |prims| > 0 && prims[|prims| - 1].primitiveId != p
    requires SpawnedFrom(prims[..|prims| - 1], p, slot, groupSeed, nameHash, activeAfterStart)
    ensures SpawnedFrom(prims, p, slot, groupSeed, nameHash, activeAfterStart)
  {
    assert prims[..|prims| - 1][slot.primitiveIndex] == prims[slot.primitiveIndex];
  }

  /**
   * The drivers StartDelivery spawns: one per named primitive, keyed by its
   * id (a later primitive with the same id replaces the earlier one).
   */
  function SpawnedDrivers(prims: seq<PrimitiveSpec>, groupSeed: bv32, nameHash: Name -> bv32,
                          activeAfterStart: PrimitiveSpec -> bool): (d: map<Name, DriverSlot>)
    ensures d.Keys == NamedIds(prims)
    ensures forall p :: p in d ==> SpawnedFrom(prims, p, d[p], groupSeed, nameHash, activeAfterStart)
  {
    if |prims| == 0 then map[]
    else
      var n := |prims| - 1;
      var front := SpawnedDrivers(prims[..n], groupSeed, nameHash, activeAfterStart);
      var ps := prims[n];
      assert forall p :: p in front && p != ps.primitiveId ==> SpawnedFrom(prims, p, front[p], groupSeed, nameHash, activeAfterStart) by {
        forall p | p in front && p != ps.primitiveId {
          SpawnedFromExtend(prims, p, front[p], groupSeed, nameHash, activeAfterStart);
        }
      }
      if ps.primitiveId != NoName then
        front[ps.primitiveId := DriverSlot(ps.kind, n, PrimitiveSeed(groupSeed, nameHash, ps.primitiveId), activeAfterStart(ps))]
      else front
  }

  const DeliveryStartedTag := Tag("Spell.Event.Delivery.Started")

  /**
   * Event_Delivery_Primitive_Started is declared in the tag table but never
   * requested, so it keeps the default, invalid tag.
   */
  const PrimitiveStartedTag := InvalidTag

  /** EmitDeliveryEvent: one event of runtime `g`, or nothing when the tag is invalid. */
  function DeliveryEvent(g: Guid, t: Tag, magnitude: real): (r: seq<GroupEvent>)
    ensures t.IsValid() <==> |r| == 1
    ensures !t.IsValid() <==> r == []
    ensures |r| == 1 ==> r[0].runtimeGuid == g && r[0].eventTag == t && r[0].magnitude == magnitude
  {
    if t.IsValid() then [GroupEvent(g, t, magnitude)] else []
  }

  /**
   * What the spawn loop emits for the first `n` primitives: a
   * Primitive.Started request, with the primitive's position as the
   * magnitude, for each primitive with a non-None id.
   */
  function PrimitiveStartedEvents(g: Guid, prims: seq<PrimitiveSpec>, n: nat): seq<GroupEvent>
    requires n <= |prims|
  {
    if n == 0 then []
    else PrimitiveStartedEvents(g, prims, n - 1) +
         (if prims[n - 1].primitiveId != NoName then DeliveryEvent(g, PrimitiveStartedTag, (n - 1) as real) else [])
  }

  /** One more primitive adds its request exactly when it is named. */
  lemma PrimitiveStartedStep(g: Guid, prims: seq<PrimitiveSpec>, i: nat)
    requires i < |prims|
    ensures PrimitiveStartedEvents(g, prims, i + 1) ==
            PrimitiveStartedEvents(g, prims, i) +
            (if prims[i].primitiveId != NoName then DeliveryEvent(g, PrimitiveStartedTag, i as real) else [])
  {
  }

  /** With the tag invalid, the spawn loop's Primitive.Started requests all come to nothing. */
  lemma {:induction false} PrimitiveStartedNeverRaised(g: Guid, prims: seq<PrimitiveSpec>, n: nat)
    requires n <= |prims|
    ensures PrimitiveStartedEvents(g, prims, n) == []
  {
    if n > 0 {
      PrimitiveStartedNeverRaised(g, prims, n - 1);
      assert DeliveryEvent(g, PrimitiveStartedTag, (n - 1) as real) == [];
    }
  }

  /** One more primitive adds its driver exactly when it is named. */
  lemma SpawnedDriversStep(prims: seq<PrimitiveSpec>, i: nat, groupSeed: bv32, nameHash: Name -> bv32,
                           activeAfterStart: PrimitiveSpec -> bool)
    requires i < |prims|
    ensures var ps := prims[i];
            SpawnedDrivers(prims[..i + 1], groupSeed, nameHash, activeAfterStart) ==
            if ps.primitiveId != NoName
            then SpawnedDrivers(prims[..i], groupSeed, nameHash, activeAfterStart)[ps.primitiveId :=
                   DriverSlot(ps.kind, i, PrimitiveSeed(groupSeed, nameHash, ps.primitiveId), activeAfterStart(ps))]
            else SpawnedDrivers(prims[..i], groupSeed, nameHash, activeAfterStart)
  {
    assert prims[..i + 1][..i] == prims[..i];
  }

  /** The value of the per-(runtime, id) counter; a missing entry reads as 0 (FindOrAdd). */
  function NextIndex(m: map<Guid, map<Name, int>>, g: Guid, id: Name): int {
    if g in m && id in m[g] then m[g][id] else 0
  }

  /** The primitives of a group whose driver is active. */
  function ActiveDrivers(grp: Group): set<Name> {
    set p | p in grp.drivers && grp.drivers[p].active
  }

  function Selected(keys: set<DeliveryHandle>, sel: DeliveryHandle -> bool): set<DeliveryHandle> {
    set h | h in keys && sel(h)
  }

  /** The groups StopById targets: same runtime guid and delivery id. */
  function ById(g: Guid, id: Name): DeliveryHandle -> bool {
    (h: DeliveryHandle) => h.runtimeGuid == g && h.deliveryId == id
  }

  /** The groups StopAllForRuntimeGuid targets. */
  function OfRuntime(g: Guid): DeliveryHandle -> bool {
    (h: DeliveryHandle) => h.runtimeGuid == g
  }

  /** A group after StopPrimitiveInGroup removed primitive p. */
  function WithoutPrimitive(grp: Group, p: Name): Group {
    grp.(drivers := grp.drivers - {p})
  }

  predicate HasActive(grp: Group, p: Name) {
    p in grp.drivers && grp.drivers[p].active
  }

  /** The groups StopByPrimitiveId changes: selected, and with p's driver active. */
  function PrimitiveTargets(m: map<DeliveryHandle, Group>, sel: DeliveryHandle -> bool, p: Name): set<DeliveryHandle> {
    set h | h in m && sel(h) && HasActive(m[h], p)
  }

  lemma SelectedStep(done: set<DeliveryHandle>, h: DeliveryHandle, sel: DeliveryHandle -> bool)
    ensures Selected(done + {h}, sel) == Selected(done, sel) + (if sel(h) then {h} else {})
  {
  }

  lemma PartitionStep<K>(done: set<K>, remaining: set<K>, keys: set<K>, k: K)
    requires done + remaining == keys && done !! remaining && k in remaining
    ensures (done + {k}) + (remaining - {k}) == keys && (done + {k}) !! (remaining - {k})
  {
  }

  lemma IntersectStep<K>(targets: set<K>, done: set<K>, k: K)
    ensures targets * (done + {k}) == if k in targets then targets * done + {k} else targets * done
  {
  }

  /** During StopByPrimitiveId: the groups in `hit` have lost primitive p, the others are as they started. */
  ghost predicate PartlyStopped(cur: map<DeliveryHandle, Group>, start: map<DeliveryHandle, Group>,
                                hit: set<DeliveryHandle>, p: Name) {
    cur.Keys == start.Keys &&
    forall h :: h in cur ==> cur[h] == if h in hit then WithoutPrimitive(start[h], p) else start[h]
  }

  lemma PartlyStoppedStep(cur: map<DeliveryHandle, Group>, start: map<DeliveryHandle, Group>,
                          hit: set<DeliveryHandle>, p: Name, h: DeliveryHandle)
    requires PartlyStopped(cur, start, hit, p) && h in cur && h !in hit
    ensures PartlyStopped(cur[h := WithoutPrimitive(start[h], p)], start, hit + {h}, p)
  {
  }

  lemma MinusTwice<K, V>(m: map<K, V>, a: set<K>, k: K)
    ensures (m - a) - {k} == m - (a + {k})
  {
  }

  /** The tag test OnSpellEvent applies, as written: the name contains End, Ended or Stop, ignoring case. */
  predicate IsEndEventAsWritten(t: Tag) {
    ContainsNoCase(t.name, "End") || ContainsNoCase(t.name, "Ended") || ContainsNoCase(t.name, "Stop")
  }

  /** The same test, no longer triggered by the subsystem's own Spell.Event.Delivery.* events. */
  predicate IsEndEvent(t: Tag) {
    IsEndEventAsWritten(t) && !StartsWithNoCase(t.name, "Spell.Event.Delivery.")
  }

  /** The subsystem's own group-stopped event and the runtime's end-of-spell event. */
  const DeliveryStoppedTag := Tag("Spell.Event.Delivery.Stopped")
  const SpellEndTag := Tag("Spell.Event.Spell.End")

  /** A group-level event the subsystem raises on the bus (EmitDeliveryEvent): runtime guid, tag and magnitude. */
  datatype GroupEvent = GroupEvent(runtimeGuid: Guid, eventTag: Tag, magnitude: real)

  /** (int32)Reason: the reason's position in EDeliveryStopReasonV3. */
  function ReasonCode(r: StopReason): (c: int)
    ensures 0 <= c < 8
  {
    match r
    case Manual => 0
    case DurationElapsed => 1
    case OnFirstHit => 2
    case OnEvent => 3
    case OwnerDestroyed => 4
    case SpellEnded => 5
    case Expired => 6
    case Failed => 7
  }

  /** The reason with a given code, if any. */
  function ReasonOf(c: int): Option<StopReason> {
    if c == 0 then Some(Manual)
    else if c == 1 then Some(DurationElapsed)
    else if c == 2 then Some(OnFirstHit)
    else if c == 3 then Some(OnEvent)
    else if c == 4 then Some(OwnerDestroyed)
    else if c == 5 then Some(SpellEnded)
    else if c == 6 then Some(Expired)
    else if c == 7 then Some(Failed)
    else None
  }

  /** The Spell.Event.Delivery.Stopped event of a group of runtime `g`, the reason code as its magnitude. */
  function StoppedEvent(g: Guid, reason: StopReason): (e: GroupEvent)
    ensures e.eventTag == DeliveryStoppedTag && e.runtimeGuid == g
    ensures ReasonOf(e.magnitude.Floor) == Some(reason)
  {
    GroupEvent(g, DeliveryStoppedTag, ReasonCode(reason) as real)
  }

  /** A listener can read the stop reason back from the magnitude: distinct reasons give distinct events. */
  lemma StoppedEventsDistinct(g: Guid, a: StopReason, b: StopReason)
    requires a != b
    ensures StoppedEvent(g, a) != StoppedEvent(g, b)
  {
    var ea, eb := StoppedEvent(g, a), StoppedEvent(g, b);
    assert ReasonOf(ea.magnitude.Floor) != ReasonOf(eb.magnitude.Floor);
  }

  /** `n` copies of the Stopped event of runtime `g`. */
  function StoppedEvents(g: Guid, reason: StopReason, n: nat): (r: seq<GroupEvent>)
    ensures |r| == n && forall k :: 0 <= k < n ==> r[k] == StoppedEvent(g, reason)
  {
    seq(n, _ => StoppedEvent(g, reason))
  }

  /** One more Stopped event extends the list by one copy. */
  lemma StoppedEventsSnoc(g: Guid, reason: StopReason, n: nat)
    ensures StoppedEvents(g, reason, n) + [StoppedEvent(g, reason)] == StoppedEvents(g, reason, n + 1)
  {
  }

  /** As written, the end filter accepts the Stopped event StopGroupInternal itself emits. */
  lemma OwnStoppedEventPassesFilter()
    ensures IsEndEventAsWritten(DeliveryStoppedTag)
    ensures StartsWithNoCase(DeliveryStoppedTag.name, "Spell.Event.Delivery.")
  {
    var n := DeliveryStoppedTag.name;
    assert IsPrefix("Stop", n[21..]);
    ContainsIgnoringCase(n, "Stop", 21);
    assert IsPrefix("Spell.Event.Delivery.", n);
    PrefixIgnoringCase("Spell.Event.Delivery.", n);
  }

  /** The corrected filter ignores the subsystem's own Stopped event... */
  lemma CorrectedFilterIgnoresOwnEvent()
    ensures !IsEndEvent(DeliveryStoppedTag)
  {
    OwnStoppedEventPassesFilter();
  }

  /** ...and still accepts the runtime's Spell.Event.Spell.End. */
  lemma CorrectedFilterKeepsSpellEnd()
    ensures IsEndEvent(SpellEndTag)
  {
    var e := SpellEndTag.name;
    assert IsPrefix("End", e[18..]);
    ContainsIgnoringCase(e, "End", 18);
    assert LowerChar(e[12]) == 's' && LowerChar("Spell.Event.Delivery."[12]) == 'd';
    NotPrefixIgnoringCase(e, "Spell.Event.Delivery.", 12);
  }

  /** The "Ended" test is redundant: every name containing Ended contains End. */
  lemma EndedImpliesEnd(n: string)
    requires ContainsNoCase(n, "Ended")
    ensures ContainsNoCase(n, "End")
  {
    var ln := Lower(n);
    var k :| 0 <= k <= |ln| && IsPrefix(Lower("Ended"), ln[k..]);
    assert Lower("Ended")[..3] == Lower("End");
    assert IsPrefix(Lower("End"), ln[k..]);
  }

  class DeliverySubsystem {
    /** The engine's GetTypeHash for guids and names. */
    const guidHash: Guid -> bv32
    const nameHash: Name -> bv32
    var activeGroups: map<DeliveryHandle, Group>
    var nextInstance: map<Guid, map<Name, int>>
    var lastRigEval: map<DeliveryHandle, real>

    /**
     * Each group is stored under its own handle, below its pair's next
     * instance index; rig times are only kept for active groups.
     */
    predicate Valid()
      reads this
    {
      (forall h :: h in activeGroups ==>
         activeGroups[h].handle == h && h.instanceIndex < NextIndex(nextInstance, h.runtimeGuid, h.deliveryId)) &&
      lastRigEval.Keys <= activeGroups.Keys
    }

    constructor(gHash: Guid -> bv32, nHash: Name -> bv32)
      ensures Valid() && guidHash == gHash && nameHash == nHash
      ensures activeGroups == map[] && nextInstance == map[] && lastRigEval == map[]
    {
      guidHash := gHash;
      nameHash := nHash;
      activeGroups := map[];
      nextInstance := map[];
      lastRigEval := map[];
    }

    /** AllocateInstanceIndex: the pair's counter (0 when new), which is then incremented; other pairs keep theirs. */
    method AllocateInstanceIndex(g: Guid, id: Name) returns (r: int)
      requires Valid()
      modifies this`nextInstance
      ensures Valid()
      ensures r == NextIndex(old(nextInstance), g, id)
      ensures NextIndex(nextInstance, g, id) == r + 1
      ensures forall g2, id2 :: (g2 != g || id2 != id) ==>
                NextIndex(nextInstance, g2, id2) == NextIndex(old(nextInstance), g2, id2)
    {
      var inner := if g in nextInstance then nextInstance[g] else map[];
      r := if id in inner then inner[id] else 0;
      nextInstance := nextInstance[g := inner[id := r + 1]];
    }

    /**
     * StartDelivery: fails, changing nothing, without a world, with a None
     * delivery id or with no primitives. Otherwise it allocates the next
     * instance index, stores a new group under the new handle with its
     * seed, evaluates the rig and records the time, and spawns one driver
     * per named primitive.
     */
    method StartDelivery(hasWorld: bool, runtimeGuid: Guid, spec: DeliverySpec, now: real,
                         rigEmitterCount: nat, activeAfterStart: PrimitiveSpec -> bool)
      returns (ok: bool, handle: DeliveryHandle, emitted: seq<GroupEvent>)
      requires Valid()
      modifies this`activeGroups, this`nextInstance, this`lastRigEval
      ensures Valid()
      ensures ok <==> hasWorld && spec.deliveryId != NoName && |spec.primitives| > 0
      ensures !ok ==> activeGroups == old(activeGroups) && nextInstance == old(nextInstance) &&
                      lastRigEval == old(lastRigEval) && handle == DefaultHandle && emitted == []
      // Only the group Started event, carrying the instance index: the primitive requests are dropped.
      ensures ok ==>
                emitted == [GroupEvent(runtimeGuid, DeliveryStartedTag, NextIndex(old(nextInstance), runtimeGuid, spec.deliveryId) as real)]
      ensures ok ==>
                var idx := NextIndex(old(nextInstance), runtimeGuid, spec.deliveryId);
                var seed := ComputeGroupSeed(guidHash, nameHash, runtimeGuid, spec.deliveryId, idx);
                handle == DeliveryHandle(runtimeGuid, spec.deliveryId, idx) &&
                handle !in old(activeGroups) &&
                activeGroups == old(activeGroups)[handle := Group(handle, spec, now, seed, rigEmitterCount,
                                                                  SpawnedDrivers(spec.primitives, seed, nameHash, activeAfterStart))] &&
                lastRigEval == old(lastRigEval)[handle := now] &&
                NextIndex(nextInstance, runtimeGuid, spec.deliveryId) == idx + 1
    {
      handle := DefaultHandle;
      emitted := [];
      if !hasWorld {
        return false, handle, emitted;
      }
      if spec.deliveryId == NoName {
        return false, handle, emitted;
      }
      if |spec.primitives| == 0 {
        return false, handle, emitted;
      }
      var idx := AllocateInstanceIndex(runtimeGuid, spec.deliveryId);
      handle := DeliveryHandle(runtimeGuid, spec.deliveryId, idx);
      var seed := ComputeGroupSeed(guidHash, nameHash, runtimeGuid, spec.deliveryId, idx);
      // The handle is fresh, so it has no previous rig time and the rig is evaluated.
      var emitters := if ShouldEvaluateRig(spec.poseUpdatePolicy, spec.poseUpdateInterval, 0, None, now) then rigEmitterCount else 0;
      lastRigEval := lastRigEval[handle := now];
      var started := DeliveryEvent(runtimeGuid, DeliveryStartedTag, idx as real);
      var drivers, primStarted := SpawnAll(runtimeGuid, spec.primitives, seed, activeAfterStart);
      activeGroups := activeGroups[handle := Group(handle, spec, now, seed, emitters, drivers)];
      PrimitiveStartedNeverRaised(runtimeGuid, spec.primitives, |spec.primitives|);
      emitted := started + primStarted;
      ok := true;
    }

    /**
     * The spawn loop of StartDelivery: primitives with a None id are
     * skipped, the rest get a driver and a Primitive.Started request of
     * runtime `g`.
     */
    method SpawnAll(g: Guid, prims: seq<PrimitiveSpec>, seed: bv32, activeAfterStart: PrimitiveSpec -> bool)
      returns (drivers: map<Name, DriverSlot>, emitted: seq<GroupEvent>)
      ensures drivers == SpawnedDrivers(prims, seed, nameHash, activeAfterStart)
      ensures emitted == PrimitiveStartedEvents(g, prims, |prims|)
    {
      drivers := map[];
      emitted := [];
      var i := 0;
      while i < |prims|
        invariant 0 <= i <= |prims|
        invariant drivers == SpawnedDrivers(prims[..i], seed, nameHash, activeAfterStart)
        invariant emitted == PrimitiveStartedEvents(g, prims, i)
      {
        SpawnedDriversStep(prims, i, seed, nameHash, activeAfterStart);
        PrimitiveStartedStep(g, prims, i);
        var ps := prims[i];
        if ps.primitiveId == NoName {
          i := i + 1;
          continue;
        }
        drivers := drivers[ps.primitiveId := DriverSlot(ps.kind, i, PrimitiveSeed(seed, nameHash, ps.primitiveId), activeAfterStart(ps))];
        emitted := emitted + DeliveryEvent(g, PrimitiveStartedTag, i as real);
        i := i + 1;
      }
      assert prims[..i] == prims;
    }

    /**
     * EvaluateRigIfNeeded: for a known group whose policy calls for it, the
     * rig cache is refreshed and the evaluation time recorded; otherwise
     * nothing changes.
     */
    method EvaluateRigIfNeeded(hasWorld: bool, h: DeliveryHandle, now: real, rigEmitterCount: nat) returns (evaluated: bool)
      requires Valid()
      modifies this`activeGroups, this`lastRigEval
      ensures Valid()
      ensures evaluated <==> (hasWorld && h in old(activeGroups) &&
                              ShouldEvaluateRig(old(activeGroups)[h].spec.poseUpdatePolicy,
                                                old(activeGroups)[h].spec.poseUpdateInterval,
                                                old(activeGroups)[h].emitterCount,
                                                if h in old(lastRigEval) then Some(old(lastRigEval)[h]) else None, now))
      ensures !evaluated ==> activeGroups == old(activeGroups) && lastRigEval == old(lastRigEval)
      ensures evaluated ==> activeGroups == old(activeGroups)[h := old(activeGroups)[h].(emitterCount := rigEmitterCount)] &&
                            lastRigEval == old(lastRigEval)[h := now]
    {
      if !hasWorld || h !in activeGroups {
        return false;
      }
      var grp := activeGroups[h];
      var last := if h in lastRigEval then Some(lastRigEval[h]) else None;
      if !ShouldEvaluateRig(grp.spec.poseUpdatePolicy, grp.spec.poseUpdateInterval, grp.emitterCount, last, now) {
        return false;
      }
      activeGroups := activeGroups[h := grp.(emitterCount := rigEmitterCount)];
      lastRigEval := lastRigEval[h := now];
      evaluated := true;
    }

    /**
     * StopGroupInternal: false for an unknown handle, emitting nothing.
     * Otherwise every active driver is stopped (`stopped` names them), the
     * group and its rig time are removed, so a second stop of the same
     * handle fails, and the Stopped event of the context's runtime is
     * emitted with the reason as its magnitude.
     */
    method StopGroupInternal(h: DeliveryHandle, ctxGuid: Guid, reason: StopReason)
      returns (ok: bool, stopped: set<Name>, emitted: seq<GroupEvent>)
      requires Valid()
      modifies this`activeGroups, this`lastRigEval
      ensures Valid()
      ensures h !in old(activeGroups) ==>
                !ok && stopped == {} && emitted == [] &&
                activeGroups == old(activeGroups) && lastRigEval == old(lastRigEval)
      ensures h in old(activeGroups) ==>
                ok && stopped == ActiveDrivers(old(activeGroups)[h]) && emitted == [StoppedEvent(ctxGuid, reason)] &&
                activeGroups == old(activeGroups) - {h} && lastRigEval == old(lastRigEval) - {h}
      ensures h !in activeGroups
    {
      stopped := {};
      emitted := [];
      if h !in activeGroups {
        return false, stopped, emitted;
      }
      var drivers := activeGroups[h].drivers;
      var remaining := drivers.Keys;
      while remaining != {}
        invariant remaining <= drivers.Keys
        invariant forall q :: q in stopped <==> q in drivers && q !in remaining && drivers[q].active
        decreases remaining
      {
        var p :| p in remaining;
        if drivers[p].active {
          stopped := stopped + {p};
        }
        remaining := remaining - {p};
      }
      assert stopped == ActiveDrivers(activeGroups[h]);
      activeGroups := activeGroups - {h};
      lastRigEval := lastRigEval - {h};
      emitted := [StoppedEvent(ctxGuid, reason)];
      ok := true;
    }

    /**
     * The snapshot loop shared by StopById and StopAllForRuntimeGuid: every
     * group the selector picks (all of runtime `g`) is stopped, each
     * emitting its Stopped event; `any` says whether one was.
     */
    method StopAllWhere(sel: DeliveryHandle -> bool, g: Guid, reason: StopReason)
      returns (any: bool, emitted: seq<GroupEvent>)
      requires Valid()
      modifies this`activeGroups, this`lastRigEval
      ensures Valid()
      ensures activeGroups == old(activeGroups) - Selected(old(activeGroups).Keys, sel)
      ensures lastRigEval == old(lastRigEval) - Selected(old(activeGroups).Keys, sel)
      ensures any <==> Selected(old(activeGroups).Keys, sel) != {}
      ensures emitted == StoppedEvents(g, reason, |Selected(old(activeGroups).Keys, sel)|)
    {
      ghost var start := activeGroups;
      ghost var removed;
      any, removed, emitted := StopSnapshot(sel, g, reason);
      assert removed == Selected(start.Keys, sel);
    }

    /** The loop of StopAllWhere over a snapshot of the active handles. */
    method StopSnapshot(sel: DeliveryHandle -> bool, g: Guid, reason: StopReason)
      returns (any: bool, ghost removed: set<DeliveryHandle>, emitted: seq<GroupEvent>)
      requires Valid()
      modifies this`activeGroups, this`lastRigEval
      ensures StoppedExactly(old(activeGroups), old(lastRigEval), removed)
      ensures forall x :: x in removed <==> x in old(activeGroups) && sel(x)
      ensures any <==> removed != {}
      ensures emitted == StoppedEvents(g, reason, |removed|)
    {
      any := false;
      emitted := [];
      ghost var start, startRig := activeGroups, lastRigEval;
      var keys := activeGroups.Keys;
      var remaining := keys;
      ghost var done: set<DeliveryHandle> := {};
      removed := {};
      while remaining != {}
        invariant done + remaining == keys && done !! remaining
        invariant forall x :: x in removed <==> x in done && sel(x)
        invariant StoppedExactly(start, startRig, removed)
        invariant any <==> removed != {}
        invariant emitted == StoppedEvents(g, reason, |removed|)
        decreases remaining
      {
        var h :| h in remaining;
        PartitionStep(done, remaining, keys, h);
        if sel(h) {
          var more := StopOneMore(h, g, reason, start, startRig, removed);
          StoppedEventsSnoc(g, reason, |removed|);
          assert |removed + {h}| == |removed| + 1;
          any := true;
          removed := removed + {h};
          emitted := emitted + more;
        }
        remaining := remaining - {h};
        done := done + {h};
      }
    }

    /** During StopAllWhere: the groups in `removed` are gone together with their rig times, the rest are as they started. */
    ghost predicate StoppedExactly(start: map<DeliveryHandle, Group>, startRig: map<DeliveryHandle, real>,
                                   removed: set<DeliveryHandle>)
      reads this
    {
      Valid() && activeGroups == start - removed && lastRigEval == startRig - removed
    }

    /** One step of StopAllWhere: group h, still active, joins the stopped ones and emits its Stopped event. */
    method StopOneMore(h: DeliveryHandle, g: Guid, reason: StopReason, ghost start: map<DeliveryHandle, Group>,
                       ghost startRig: map<DeliveryHandle, real>, ghost removed: set<DeliveryHandle>)
      returns (emitted: seq<GroupEvent>)
      requires StoppedExactly(start, startRig, removed)
      requires h in start && h !in removed
      modifies this`activeGroups, this`lastRigEval
      ensures StoppedExactly(start, startRig, removed + {h})
      ensures emitted == [StoppedEvent(g, reason)]
    {
      var _, _, e := StopGroupInternal(h, g, reason);
      emitted := e;
      MinusTwice(start, removed, h);
      MinusTwice(startRig, removed, h);
    }

    /**
     * StopById: stops exactly the groups with this runtime guid and delivery
     * id, one Stopped event each; true iff there was one.
     */
    method StopById(g: Guid, id: Name, reason: StopReason) returns (any: bool, emitted: seq<GroupEvent>)
      requires Valid()
      modifies this`activeGroups, this`lastRigEval
      ensures Valid()
      ensures activeGroups == old(activeGroups) - Selected(old(activeGroups).Keys, ById(g, id))
      ensures forall h :: h in activeGroups ==> !(h.runtimeGuid == g && h.deliveryId == id)
      ensures forall h :: h in old(activeGroups) && !(h.runtimeGuid == g && h.deliveryId == id) ==>
                h in activeGroups && activeGroups[h] == old(activeGroups)[h]
      ensures lastRigEval == old(lastRigEval) - Selected(old(activeGroups).Keys, ById(g, id))
      ensures any <==> Selected(old(activeGroups).Keys, ById(g, id)) != {}
      ensures emitted == StoppedEvents(g, reason, |Selected(old(activeGroups).Keys, ById(g, id))|)
    {
      any, emitted := StopAllWhere(ById(g, id), g, reason);
    }

    /**
     * StopAllForRuntimeGuid: stops every group of that runtime and no other,
     * each under its own context snapshot, whose runtime guid is the
     * handle's, so each emits the Stopped event of runtime `g`.
     */
    method StopAllForRuntimeGuid(g: Guid, reason: StopReason) returns (emitted: seq<GroupEvent>)
      requires Valid()
      modifies this`activeGroups, this`lastRigEval
      ensures Valid()
      ensures activeGroups == old(activeGroups) - Selected(old(activeGroups).Keys, OfRuntime(g))
      ensures forall h :: h in activeGroups ==> h.runtimeGuid != g
      ensures forall h :: h in old(activeGroups) && h.runtimeGuid != g ==> h in activeGroups
      ensures emitted == StoppedEvents(g, reason, |Selected(old(activeGroups).Keys, OfRuntime(g))|)
    {
      var _, e := StopAllWhere(OfRuntime(g), g, reason);
      emitted := e;
    }

    /**
     * StopPrimitiveInGroup: when the group exists and primitive p's driver
     * is active, that driver is stopped and it and its context are removed;
     * anything else changes nothing and returns false.
     */
    method StopPrimitiveInGroup(h: DeliveryHandle, p: Name) returns (ok: bool)
      requires Valid()
      modifies this`activeGroups
      ensures Valid()
      ensures ok <==> h in old(activeGroups) && HasActive(old(activeGroups)[h], p)
      ensures !ok ==> activeGroups == old(activeGroups)
      ensures ok ==> activeGroups == old(activeGroups)[h := WithoutPrimitive(old(activeGroups)[h], p)]
    {
      if h !in activeGroups {
        return false;
      }
      var grp := activeGroups[h];
      if p !in grp.drivers || !grp.drivers[p].active {
        return false;
      }
      activeGroups := activeGroups[h := WithoutPrimitive(grp, p)];
      ok := true;
    }

    /**
     * StopByPrimitiveId: in every group with this runtime guid and delivery
     * id, primitive p is stopped if its driver is active; the groups
     * themselves stay. True iff some primitive was stopped.
     */
    method StopByPrimitiveId(g: Guid, id: Name, p: Name) returns (any: bool)
      requires Valid()
      modifies this`activeGroups
      ensures Valid()
      ensures activeGroups.Keys == old(activeGroups).Keys
      ensures forall h :: h in activeGroups ==>
                activeGroups[h] == if h in PrimitiveTargets(old(activeGroups), ById(g, id), p)
                                   then WithoutPrimitive(old(activeGroups)[h], p) else old(activeGroups)[h]
      ensures any <==> PrimitiveTargets(old(activeGroups), ById(g, id), p) != {}
    {
      ghost var start := activeGroups;
      ghost var hit;
      any, hit := StopPrimitiveSnapshot(g, id, p);
      assert hit == PrimitiveTargets(start, ById(g, id), p);
    }

    /** The loop of StopByPrimitiveId over a snapshot of the active handles. */
    method StopPrimitiveSnapshot(g: Guid, id: Name, p: Name) returns (any: bool, ghost hit: set<DeliveryHandle>)
      requires Valid()
      modifies this`activeGroups
      ensures Valid() && PartlyStopped(activeGroups, old(activeGroups), hit, p)
      ensures forall x :: x in hit <==>
                x in old(activeGroups) && x.runtimeGuid == g && x.deliveryId == id && HasActive(old(activeGroups)[x], p)
      ensures any <==> hit != {}
    {
      any := false;
      ghost var start := activeGroups;
      var keys := activeGroups.Keys;
      var remaining := keys;
      ghost var done: set<DeliveryHandle> := {};
      hit := {};
      while remaining != {}
        invariant done + remaining == keys && done !! remaining && start.Keys == keys
        invariant forall x :: x in hit <==> x in done && x.runtimeGuid == g && x.deliveryId == id && HasActive(start[x], p)
        invariant Valid() && PartlyStopped(activeGroups, start, hit, p)
        invariant any <==> hit != {}
        decreases remaining
      {
        var h :| h in remaining;
        PartitionStep(done, remaining, keys, h);
        if h.runtimeGuid == g && h.deliveryId == id {
          var ok := StopPrimitiveStep(h, p, start, hit);
          if ok {
            any := true;
            hit := hit + {h};
          }
        }
        remaining := remaining - {h};
        done := done + {h};
      }
    }

    /** One step of StopByPrimitiveId: StopPrimitiveInGroup on a group not yet visited. */
    method StopPrimitiveStep(h: DeliveryHandle, p: Name, ghost start: map<DeliveryHandle, Group>,
                             ghost hit: set<DeliveryHandle>) returns (ok: bool)
      requires Valid() && PartlyStopped(activeGroups, start, hit, p) && h in start && h !in hit
      modifies this`activeGroups
      ensures Valid() && PartlyStopped(activeGroups, start, if ok then hit + {h} else hit, p)
      ensures ok <==> HasActive(start[h], p)
    {
      ok := StopPrimitiveInGroup(h, p);
      if ok {
        PartlyStoppedStep(old(activeGroups), start, hit, p, h);
      }
    }

    /**
     * OnSpellEvent: an event without a runtime guid is ignored; an end
     * event stops every group of its runtime with reason SpellEnded.
     */
    method OnSpellEvent(runtimeGuid: Guid, eventTag: Tag) returns (emitted: seq<GroupEvent>)
      requires Valid()
      modifies this`activeGroups, this`lastRigEval
      ensures Valid()
      ensures !runtimeGuid.IsValid() || !IsEndEvent(eventTag) ==>
                activeGroups == old(activeGroups) && lastRigEval == old(lastRigEval) && emitted == []
      ensures runtimeGuid.IsValid() && IsEndEvent(eventTag) ==>
                activeGroups == old(activeGroups) - Selected(old(activeGroups).Keys, OfRuntime(runtimeGuid)) &&
                emitted == StoppedEvents(runtimeGuid, SpellEnded, |Selected(old(activeGroups).Keys, OfRuntime(runtimeGuid))|)
    {
      emitted := [];
      if !runtimeGuid.IsValid() {
        return;
      }
      if IsEndEvent(eventTag) {
        emitted := StopAllForRuntimeGuid(runtimeGuid, SpellEnded);
      }
    }

    /** OnSpellEvent with the end filter exactly as the source writes it. */
    method OnSpellEventAsWritten(runtimeGuid: Guid, eventTag: Tag) returns (emitted: seq<GroupEvent>)
      requires Valid()
      modifies this`activeGroups, this`lastRigEval
      ensures Valid()
      ensures !runtimeGuid.IsValid() || !IsEndEventAsWritten(eventTag) ==>
                activeGroups == old(activeGroups) && lastRigEval == old(lastRigEval) && emitted == []
      ensures runtimeGuid.IsValid() && IsEndEventAsWritten(eventTag) ==>
                activeGroups == old(activeGroups) - Selected(old(activeGroups).Keys, OfRuntime(runtimeGuid)) &&
                emitted == StoppedEvents(runtimeGuid, SpellEnded, |Selected(old(activeGroups).Keys, OfRuntime(runtimeGuid))|)
    {
      emitted := [];
      if !runtimeGuid.IsValid() {
        return;
      }
      if IsEndEventAsWritten(eventTag) {
        emitted := StopAllForRuntimeGuid(runtimeGuid, SpellEnded);
      }
    }
  }

  /**
   * As written: stopping one group emits Spell.Event.Delivery.Stopped with
   * the runtime's guid, the subsystem hears that event on the bus, and
   * every other group of the same runtime is stopped as well.
   */
  method StopCascadesAsWritten(d: DeliverySubsystem, h1: DeliveryHandle, h2: DeliveryHandle, reason: StopReason)
    requires d.Valid() && h1 in d.activeGroups && h2 in d.activeGroups
    requires h1.runtimeGuid == h2.runtimeGuid && h1.runtimeGuid.IsValid()
    modifies d
    ensures h1 !in d.activeGroups && h2 !in d.activeGroups
  {
    var _, _, emitted := d.StopGroupInternal(h1, h1.runtimeGuid, reason);
    OwnStoppedEventPassesFilter();
    var _ := d.OnSpellEventAsWritten(emitted[0].runtimeGuid, emitted[0].eventTag);
  }

  /** With the corrected filter the same sequence stops only the group asked for. */
  method StopStaysLocal(d: DeliverySubsystem, h1: DeliveryHandle, h2: DeliveryHandle, reason: StopReason)
    requires d.Valid() && h1 in d.activeGroups && h2 in d.activeGroups && h1 != h2
    requires h1.runtimeGuid == h2.runtimeGuid && h1.runtimeGuid.IsValid()
    modifies d
    ensures h1 !in d.activeGroups && h2 in d.activeGroups && d.activeGroups[h2] == old(d.activeGroups[h2])
  {
    var _, _, emitted := d.StopGroupInternal(h1, h1.runtimeGuid, reason);
    CorrectedFilterIgnoresOwnEvent();
    var _ := d.OnSpellEvent(emitted[0].runtimeGuid, emitted[0].eventTag);
  }
}
