// USpellStatusSubsystemV3 (Private/Status/SpellStatusSubsystemV3.cpp):
// authority-gated application and removal of statuses, and the
// server-side expiry tick over every actor's status component.
module StatusSubsystem {
  import opened Common
  import opened EffectTypes
  import opened Status

  /**
   * The status an application inserts or merges: the definition's tag, the
   * duration override when it is not negative (else the default duration),
   * the stacks override when it is positive (else one stack).
   */
  function NewStatus(def: StatusDefinition, ctx: EffectContext, durationOverride: real, stacksOverride: int): (s: ActiveStatus)
    ensures s.statusTag == def.statusTag && s.appliedContext == ctx
    ensures durationOverride >= 0.0 ==> s.timeRemaining == durationOverride
    ensures durationOverride < 0.0 ==> s.timeRemaining == def.defaultDuration
    ensures s.stacks >= 1
    ensures stacksOverride > 0 ==> s.stacks == stacksOverride
  {
    var duration := if durationOverride >= 0.0 then durationOverride else def.defaultDuration;
    var stacks := if stacksOverride > 0 then stacksOverride else 1;
    ActiveStatus(def.statusTag, stacks, duration, ctx)
  }

  /**
   * ApplyStatus. `comp` is the status component found on `target` (null when
   * it has none). Fails without authority, without a target, with an
   * invalid tag or without a component; otherwise upserts the new status
   * and reports it when the upsert changed something.
   */
  method ApplyStatus(authority: bool, target: Option<ActorId>, comp: StatusComponent?, def: StatusDefinition,
                     ctx: EffectContext, durationOverride: real, stacksOverride: int)
    returns (ok: bool, applied: ActiveStatus)
    requires comp != null ==> comp.Valid()
    modifies comp
    ensures comp != null ==> comp.Valid()
    ensures !ok ==> applied == DefaultActiveStatus
    ensures ok ==> applied == NewStatus(def, ctx, durationOverride, stacksOverride)
    ensures (!authority || target.None? || !def.statusTag.IsValid() || comp == null) ==>
              !ok && (comp != null ==> comp.active == old(comp.active))
    ensures authority && target.Some? && def.statusTag.IsValid() && comp != null ==>
              (ok <==> FindTag(old(comp.active), def.statusTag).None? || def.stackPolicy != IgnoreIfPresent) &&
              comp.HasStatus(def.statusTag) &&
              comp.active == Upserted(old(comp.active), NewStatus(def, ctx, durationOverride, stacksOverride),
                                      def.stackPolicy, def.maxStacks) &&
              (!ok ==> comp.active == old(comp.active))
  {
    applied := DefaultActiveStatus;
    if !authority || target.None? || !def.statusTag.IsValid() {
      return false, applied;
    }
    if comp == null {
      return false, applied;
    }
    var ns := NewStatus(def, ctx, durationOverride, stacksOverride);
    ok := comp.UpsertStatus(ns, def.stackPolicy, def.maxStacks);
    if ok {
      applied := ns;
    }
  }

  /** RemoveStatus: true iff the gates pass and the tag was present; afterwards it is absent. */
  method RemoveStatus(authority: bool, target: Option<ActorId>, comp: StatusComponent?, t: Tag) returns (ok: bool)
    requires comp != null ==> comp.Valid()
    modifies comp
    ensures comp != null ==> comp.Valid()
    ensures ok <==> authority && target.Some? && comp != null && old(comp.HasStatus(t))
    ensures comp != null && !ok ==> comp.active == old(comp.active)
    ensures comp != null && authority && target.Some? ==> !comp.HasStatus(t)
  {
    if !authority || target.None? || !t.IsValid() {
      return false;
    }
    if comp == null {
      return false;
    }
    var entry;
    ok, entry := comp.RemoveStatus(t);
  }

  /** HandleExpiry: removes the expired status's tag from the actor's component, if any. */
  method HandleExpiry(target: Option<ActorId>, comp: StatusComponent?, s: ActiveStatus)
    requires comp != null ==> comp.Valid()
    modifies comp
    ensures comp != null ==> comp.Valid()
    ensures comp != null && target.Some? ==> !comp.HasStatus(s.statusTag)
    ensures comp != null && (target.None? || !old(comp.HasStatus(s.statusTag))) ==> comp.active == old(comp.active)
  {
    if target.None? {
      return;
    }
    if comp != null {
      var removed, entry := comp.RemoveStatus(s.statusTag);
    }
  }

  /** The expiry hand-off of one actor: each expired status goes through HandleExpiry. */
  method HandleAllExpired(target: ActorId, comp: StatusComponent, expired: seq<ActiveStatus>)
    requires comp.Valid()
    requires forall x :: x in expired ==> !comp.HasStatus(x.statusTag)
    modifies comp
    ensures comp.Valid() && comp.active == old(comp.active)
  {
    var m := 0;
    while m < |expired|
      invariant 0 <= m <= |expired|
      invariant comp.Valid() && comp.active == old(comp.active)
    {
      HandleExpiry(Some(target), comp, expired[m]);
      m := m + 1;
    }
  }

  /** How one component's array relates before and after a subsystem tick. */
  ghost predicate TickedAs(before: seq<ActiveStatus>, after: seq<ActiveStatus>, expired: seq<ActiveStatus>, delta: real) {
    (delta <= 0.0 ==> expired == [] && after == before) &&
    (delta > 0.0 ==> expired == ExpiredOf(before, delta) &&
                     multiset(after) == multiset(SurvivorsOf(before, delta))) &&
    forall x :: x in expired ==> FindTag(after, x.statusTag).None?
  }

  /**
   * Tick. `actors` lists, in iteration order, the status component of every
   * actor of the world (null for an actor without one). Nothing happens
   * without a world or on a client; on a server each component is ticked and
   * each status it reports expired is handled, so that none of those tags
   * remains active.
   */
  method Tick(hasWorld: bool, isClient: bool, delta: real, actors: seq<StatusComponent?>)
    returns (expiredPer: seq<seq<ActiveStatus>>)
    requires forall i, j :: 0 <= i < j < |actors| && actors[i] != null ==> actors[i] != actors[j]
    requires forall c :: c in actors && c != null ==> c.Valid()
    modifies set c | c in actors && c != null
    ensures forall c :: c in actors && c != null ==> c.Valid()
    ensures !hasWorld || isClient ==>
              (expiredPer == [] && forall c :: c in actors && c != null ==> c.active == old(c.active))
    ensures hasWorld && !isClient ==>
              (|expiredPer| == |actors| &&
               forall k :: 0 <= k < |actors| ==>
                 if actors[k] == null then expiredPer[k] == []
                 else TickedAs(old(actors[k].active), actors[k].active, expiredPer[k], delta))
  {
    expiredPer := [];
    if !hasWorld || isClient {
      return;
    }
    var k := 0;
    while k < |actors|
      invariant 0 <= k <= |actors| && |expiredPer| == k
      invariant forall c :: c in actors && c != null ==> c.Valid()
      invariant forall j :: k <= j < |actors| && actors[j] != null ==> actors[j].active == old(actors[j].active)
      invariant forall j :: 0 <= j < k ==>
                  if actors[j] == null then expiredPer[j] == []
                  else TickedAs(old(actors[j].active), actors[j].active, expiredPer[j], delta)
    {
      var c := actors[k];
      if c == null {
        expiredPer := expiredPer + [[]];
      } else {
        var expired := c.TickStatuses(delta);
        HandleAllExpired(k, c, expired);
        expiredPer := expiredPer + [expired];
      }
      k := k + 1;
    }
  }
}
