// USpellRuntimeV3 (Private/Runtime/SpellRuntimeV3.cpp) and the action VM
// FSpellVMV3 (Private/VM/SpellVMV3.cpp) that it drives. They share a module
// because ExecuteActions works on the runtime's executor cache.
module Runtime {
  import opened Common
  import opened SpellEvents
  import opened TriggerMatcher
  import opened EventBus
  import opened ActionRegistry

  /** ESpellActionPolicyV3 flag RequireAuthority (bit 0). */
  const RequireAuthority: bv8 := 1

  /** FSpellActionV3: the payload is known only by its struct type. */
  datatype SpellAction = SpellAction(actionTag: Tag, payload: Option<ClassName>, policy: bv8)

  /** FSpellHandlerV3 and FSpellPhaseV3 have the same shape: a trigger and actions. */
  datatype Reaction = Reaction(id: Name, trigger: Matcher, actions: seq<SpellAction>)

  /** USpellSpecV3. */
  datatype SpellSpec = SpellSpec(spellId: Name, phases: seq<Reaction>, handlers: seq<Reaction>)

  /**
   * The gate sequence of ExecuteActions for one action: a valid tag, the
   * authority policy, a binding, and no payload mismatch when both structs
   * are known (a registered binding always carries its struct).
   */
  predicate Runs(a: SpellAction, authority: bool, bindings: map<Tag, RegisteredBinding>) {
    a.actionTag.IsValid() &&
    !((a.policy & RequireAuthority) != 0 && !authority) &&
    a.actionTag in bindings &&
    !(a.payload.Some? && a.payload.value != bindings[a.actionTag].payloadStruct)
  }

  /** The indices of the actions that run, in index order. */
  function RunIndices(actions: seq<SpellAction>, authority: bool, bindings: map<Tag, RegisteredBinding>): (r: seq<nat>)
    ensures forall k :: 0 <= k < |r| ==> r[k] < |actions| && Runs(actions[r[k]], authority, bindings)
    ensures forall i, j :: 0 <= i < j < |r| ==> r[i] < r[j]
  {
    if |actions| == 0 then []
    else
      var n := |actions| - 1;
      var front := RunIndices(actions[..n], authority, bindings);
      assert forall k :: 0 <= k < n ==> actions[..n][k] == actions[k];
      if Runs(actions[n], authority, bindings) then front + [n] else front
  }

  /** Every action that passes the gates runs: a skipped action does not stop later ones. */
  lemma {:induction false} RunIndicesComplete(actions: seq<SpellAction>, authority: bool,
                                              bindings: map<Tag, RegisteredBinding>, i: nat)
    requires i < |actions| && Runs(actions[i], authority, bindings)
    ensures i in RunIndices(actions, authority, bindings)
    decreases |actions|
  {
    var n := |actions| - 1;
    if i < n {
      assert actions[..n][i] == actions[i];
      RunIndicesComplete(actions[..n], authority, bindings, i);
    }
  }

  /** A payload mismatch skips an action only when the actual struct is known and differs. */
  lemma MismatchNeedsBothStructs(a: SpellAction, authority: bool, bindings: map<Tag, RegisteredBinding>)
    requires a.actionTag.IsValid() && a.actionTag in bindings
    requires (a.policy & RequireAuthority) == 0 || authority
    ensures Runs(a, authority, bindings) <==> a.payload.None? || a.payload.value == bindings[a.actionTag].payloadStruct
  {
  }

  /** The reaction lists OnSpellEvent runs: matching handlers, then matching phases. */
  datatype Dispatched = Handler(index: nat) | Phase(index: nat)

  function MatchingIndices(rs: seq<Reaction>, eventTag: Tag): (r: seq<nat>)
    ensures forall k :: 0 <= k < |r| ==> r[k] < |rs| && Matches(rs[r[k]].trigger, eventTag)
    ensures forall i, j :: 0 <= i < j < |r| ==> r[i] < r[j]
  {
    if |rs| == 0 then []
    else
      var n := |rs| - 1;
      var front := MatchingIndices(rs[..n], eventTag);
      assert forall k :: 0 <= k < n ==> rs[..n][k] == rs[k];
      if Matches(rs[n].trigger, eventTag) then front + [n] else front
  }

  /** Every reaction whose trigger matches is dispatched. */
  lemma {:induction false} MatchingIndicesComplete(rs: seq<Reaction>, eventTag: Tag, i: nat)
    requires i < |rs| && Matches(rs[i].trigger, eventTag)
    ensures i in MatchingIndices(rs, eventTag)
    decreases |rs|
  {
    var n := |rs| - 1;
    if i < n {
      assert rs[..n][i] == rs[i];
      MatchingIndicesComplete(rs[..n], eventTag, i);
    }
  }

  function AsHandlers(s: seq<nat>): (r: seq<Dispatched>)
    ensures |r| == |s| && forall k :: 0 <= k < |s| ==> r[k] == Handler(s[k])
  {
    if |s| == 0 then [] else AsHandlers(s[..|s| - 1]) + [Handler(s[|s| - 1])]
  }

  function AsPhases(s: seq<nat>): (r: seq<Dispatched>)
    ensures |r| == |s| && forall k :: 0 <= k < |s| ==> r[k] == Phase(s[k])
  {
    if |s| == 0 then [] else AsPhases(s[..|s| - 1]) + [Phase(s[|s| - 1])]
  }

  class SpellRuntime {
    var worldContext: Option<nat>
    var caster: Option<ActorId>
    var spec: Option<SpellSpec>
    var registry: SpellActionRegistry?
    var eventBus: SpellEventBus?
    var subscriptions: seq<Handle>
    /** ExecutorCache: executor class to executor object id; new objects take ids from nextExecutor. */
    var executorCache: map<ClassName, nat>
    var nextExecutor: nat
    var seed: int
    var authority: bool
    var running: bool
    /** This runtime's own object id, as a listener on the bus. */
    const selfId: nat

    predicate Valid()
      reads this, eventBus, registry
    {
      (eventBus != null ==> eventBus.Valid()) &&
      (registry != null ==> registry.Valid()) &&
      forall c :: c in executorCache ==> executorCache[c] < nextExecutor
    }

    constructor(id: nat)
      ensures Valid() && selfId == id
      ensures !running && subscriptions == [] && executorCache == map[] && spec.None?
      ensures registry == null && eventBus == null && seed == 1337 && authority
    {
      selfId := id;
      worldContext := None;
      caster := None;
      spec := None;
      registry := null;
      eventBus := null;
      subscriptions := [];
      executorCache := map[];
      nextExecutor := 0;
      seed := 1337;
      authority := true;
      running := false;
    }

    /**
     * Init: installs the world context, caster, spec, registry and bus. The
     * fresh variable and target stores it also creates are not modelled.
     */
    method Init(wc: Option<nat>, inCaster: Option<ActorId>, inSpec: Option<SpellSpec>,
                inRegistry: SpellActionRegistry?, inBus: SpellEventBus?)
      requires Valid()
      requires inRegistry != null ==> inRegistry.Valid()
      requires inBus != null ==> inBus.Valid()
      modifies this`worldContext, this`caster, this`spec, this`registry, this`eventBus
      ensures Valid()
      ensures worldContext == wc && caster == inCaster && spec == inSpec
      ensures registry == inRegistry && eventBus == inBus
    {
      worldContext := wc;
      caster := inCaster;
      spec := inSpec;
      registry := inRegistry;
      eventBus := inBus;
    }

    /**
     * StartFromAsset: each piece of context falls back to the runtime's own
     * when the context lacks it; a missing world, caster, registry, bus or
     * spec asset leaves the runtime untouched. Otherwise a non-zero context
     * seed replaces the seed, the context's authority flag is adopted, and
     * the runtime is initialised and started.
     */
    method StartFromAsset(specAsset: Option<SpellSpec>, ctx: ExecContext, alive: nat -> bool, isListener: nat -> bool)
      requires Valid() && alive(selfId) && isListener(selfId)
      requires ctx.registry != null ==> ctx.registry.Valid()
      requires ctx.eventBus != null ==> ctx.eventBus.Valid()
      modifies this, ctx.eventBus, eventBus
      ensures Valid()
      ensures !StartsFrom(specAsset, ctx, old(worldContext), old(caster), old(registry), old(eventBus)) ==>
                running == old(running) && spec == old(spec) && seed == old(seed) && authority == old(authority) &&
                subscriptions == old(subscriptions) && registry == old(registry) && eventBus == old(eventBus)
      ensures StartsFrom(specAsset, ctx, old(worldContext), old(caster), old(registry), old(eventBus)) ==>
                running && spec == specAsset &&
                seed == (if ctx.seed != 0 then ctx.seed else old(seed)) && authority == ctx.authority &&
                worldContext == (if ctx.worldContext.Some? then ctx.worldContext else old(worldContext)) &&
                caster == (if ctx.caster.Some? then ctx.caster else old(caster)) &&
                registry == (if ctx.registry != null then ctx.registry else old(registry)) &&
                eventBus == (if ctx.eventBus != null then ctx.eventBus else old(eventBus)) &&
                (old(running) ==> subscriptions == old(subscriptions)) &&
                (!old(running) ==> |subscriptions| == |old(subscriptions)| + |specAsset.value.handlers| + |specAsset.value.phases|)
    {
      var wc := if ctx.worldContext.Some? then ctx.worldContext else worldContext;
      var c := if ctx.caster.Some? then ctx.caster else caster;
      var r := if ctx.registry != null then ctx.registry else registry;
      var eb := if ctx.eventBus != null then ctx.eventBus else eventBus;
      if wc.None? || c.None? || r == null || eb == null || specAsset.None? {
        return;
      }
      InstallAndStart(wc, c, specAsset.value, r, eb, ctx.seed, ctx.authority, alive, isListener);
    }

    /** The seed and authority taken from the context, then Init. */
    method Prepare(wc: Option<nat>, c: Option<ActorId>, sp: SpellSpec, r: SpellActionRegistry, eb: SpellEventBus,
                   ctxSeed: int, ctxAuthority: bool)
      requires Valid() && r.Valid() && eb.Valid()
      modifies this`seed, this`authority, this`worldContext, this`caster, this`spec, this`registry, this`eventBus
      ensures Valid()
      ensures spec == Some(sp) && seed == (if ctxSeed != 0 then ctxSeed else old(seed)) &&
              authority == ctxAuthority && worldContext == wc && caster == c && registry == r && eventBus == eb
    {
      seed := if ctxSeed != 0 then ctxSeed else seed;
      authority := ctxAuthority;
      Init(wc, c, Some(sp), r, eb);
    }

    /** The second half of StartFromAsset, once every piece of context is resolved. */
    method InstallAndStart(wc: Option<nat>, c: Option<ActorId>, sp: SpellSpec, r: SpellActionRegistry, eb: SpellEventBus,
                           ctxSeed: int, ctxAuthority: bool, alive: nat -> bool, isListener: nat -> bool)
      requires Valid() && alive(selfId) && isListener(selfId) && r.Valid() && eb.Valid()
      modifies this`seed, this`authority, this`worldContext, this`caster, this`spec, this`registry, this`eventBus
      modifies this`running, this`subscriptions, eb
      ensures Valid()
      ensures running && spec == Some(sp) && seed == (if ctxSeed != 0 then ctxSeed else old(seed)) &&
              authority == ctxAuthority && worldContext == wc && caster == c && registry == r && eventBus == eb
      ensures old(running) ==> subscriptions == old(subscriptions)
      ensures !old(running) ==> |subscriptions| == |old(subscriptions)| + |sp.handlers| + |sp.phases|
    {
      Prepare(wc, c, sp, r, eb, ctxSeed, ctxAuthority);
      var _ := Start(alive, isListener);
    }

    /**
     * GetOrCreateExecutor: null for a null class; the cached executor when
     * there is one; otherwise a new executor, which is cached.
     */
    method GetOrCreateExecutor(execClass: Option<ClassName>) returns (e: Option<nat>)
      requires Valid()
      modifies this`executorCache, this`nextExecutor
      ensures Valid()
      ensures execClass.None? ==> e.None? && executorCache == old(executorCache) && nextExecutor == old(nextExecutor)
      ensures execClass.Some? && execClass.value in old(executorCache) ==>
                e == Some(old(executorCache)[execClass.value]) && executorCache == old(executorCache) &&
                nextExecutor == old(nextExecutor)
      ensures execClass.Some? && execClass.value !in old(executorCache) ==>
                e == Some(old(nextExecutor)) && nextExecutor == old(nextExecutor) + 1 &&
                executorCache == old(executorCache)[execClass.value := old(nextExecutor)]
      ensures execClass.Some? ==> e.Some? && execClass.value in executorCache && e.value == executorCache[execClass.value]
      ensures forall c :: c in old(executorCache) ==> c in executorCache && executorCache[c] == old(executorCache)[c]
    {
      if execClass.None? {
        return None;
      }
      if execClass.value in executorCache {
        return Some(executorCache[execClass.value]);
      }
      var newId := nextExecutor;
      nextExecutor := nextExecutor + 1;
      executorCache := executorCache[execClass.value := newId];
      return Some(newId);
    }

    /**
     * Start: a no-op when running; without a spec, a bus or a registry it
     * stays stopped. Otherwise it re-seeds, starts running, subscribes every
     * handler and then every phase (each trigger's exact tag as the bus
     * filter), and emits Spell.Event.Spell.Start; `notified` lists the
     * listeners that event reaches.
     */
    method Start(alive: nat -> bool, isListener: nat -> bool) returns (notified: seq<nat>)
      requires Valid() && alive(selfId) && isListener(selfId)
      modifies this`running, this`subscriptions, eventBus
      ensures Valid()
      ensures old(running) ==> running && subscriptions == old(subscriptions) && notified == []
      ensures !old(running) && (spec.None? || eventBus == null || registry == null) ==>
                !running && subscriptions == old(subscriptions) && notified == []
      ensures !old(running) && spec.Some? && eventBus != null && registry != null ==>
                running &&
                |subscriptions| == |old(subscriptions)| + |spec.value.handlers| + |spec.value.phases| &&
                subscriptions[..|old(subscriptions)|] == old(subscriptions) &&
                FreshHandles(subscriptions[|old(subscriptions)|..], old(eventBus.nextId), eventBus.nextId) &&
                eventBus.nextId == old(eventBus.nextId) + |spec.value.handlers| + |spec.value.phases| &&
                eventBus.subscribers ==
                  Filter(old(eventBus.subscribers) +
                         SubscribersFor(selfId, spec.value.handlers + spec.value.phases, old(eventBus.nextId)),
                         Live(alive)) &&
                notified == Recipients(eventBus.subscribers, Tag("Spell.Event.Spell.Start"), alive, isListener)
    {
      notified := [];
      if running {
        return;
      }
      if spec.None? || eventBus == null || registry == null {
        return;
      }
      // InitializeRng(Seed) keeps the seed; the random stream itself is not modelled.
      running := true;
      var added := SubscribeAll(eventBus, selfId, isListener, spec.value.handlers + spec.value.phases);
      subscriptions := subscriptions + added;
      var ev := SpellEvent(InvalidGuid, Tag("Spell.Event.Spell.Start"), caster, 0.0, []);
      notified := eventBus.Emit(ev, alive, isListener);
    }

    /**
     * Stop: a no-op when not running. Otherwise it stops, unsubscribes every
     * handle from the bus, empties Subscriptions and emits
     * Spell.Event.Spell.End. Afterwards no subscriber carries one of the
     * runtime's old subscription ids.
     */
    method Stop(alive: nat -> bool, isListener: nat -> bool) returns (notified: seq<nat>)
      requires Valid()
      modifies this`running, this`subscriptions, eventBus
      ensures Valid()
      ensures !old(running) ==> subscriptions == old(subscriptions) && !running && notified == [] &&
                                (eventBus != null ==> eventBus.subscribers == old(eventBus.subscribers))
      ensures old(running) ==> !running && subscriptions == []
      ensures old(running) && eventBus != null ==>
                eventBus.nextId == old(eventBus.nextId) &&
                eventBus.subscribers ==
                  Filter(Filter(old(eventBus.subscribers), OutsideOf(ValidIds(old(subscriptions)))), Live(alive)) &&
                notified == Recipients(eventBus.subscribers, Tag("Spell.Event.Spell.End"), alive, isListener)
      ensures old(running) && eventBus != null ==>
                forall k, j :: 0 <= k < |old(subscriptions)| && 0 <= j < |eventBus.subscribers| && old(subscriptions)[k].IsValid() ==>
                  eventBus.subscribers[j].id != old(subscriptions)[k].id
    {
      notified := [];
      if !running {
        return;
      }
      running := false;
      if eventBus != null {
        UnsubscribeAll(eventBus, subscriptions);
      }
      subscriptions := [];
      if eventBus != null {
        var ev := SpellEvent(InvalidGuid, Tag("Spell.Event.Spell.End"), caster, 0.0, []);
        notified := eventBus.Emit(ev, alive, isListener);
      }
    }

    /**
     * OnSpellEvent: nothing when not running or without a spec; otherwise
     * every handler whose trigger matches the event tag runs its actions,
     * then every matching phase, each in array order.
     */
    method OnSpellEvent(ev: SpellEvent) returns (dispatched: seq<Dispatched>, executed: seq<seq<nat>>)
      requires Valid()
      modifies this`executorCache, this`nextExecutor
      ensures Valid()
      ensures !running || spec.None? ==> dispatched == [] && executed == [] && executorCache == old(executorCache)
      ensures running && spec.Some? ==>
                dispatched == AsHandlers(MatchingIndices(spec.value.handlers, ev.eventTag)) +
                              AsPhases(MatchingIndices(spec.value.phases, ev.eventTag))
      ensures |executed| == |dispatched|
      ensures registry != null && spec.Some? ==> forall k :: 0 <= k < |dispatched| ==>
                executed[k] == RunIndices(ActionsOf(spec.value, dispatched[k]), authority, registry.bindings)
    {
      dispatched := [];
      executed := [];
      if !running || spec.None? {
        return;
      }
      var sp := spec.value;
      var hs := MatchingIndices(sp.handlers, ev.eventTag);
      var ps := MatchingIndices(sp.phases, ev.eventTag);
      dispatched := AsHandlers(hs) + AsPhases(ps);
      executed := RunDispatched(this, sp, dispatched);
    }
  }

  /** FSpellExecContextV3, reduced to what StartFromAsset reads. */
  datatype ExecContext = ExecContext(worldContext: Option<nat>, caster: Option<ActorId>,
                                     registry: SpellActionRegistry?, eventBus: SpellEventBus?,
                                     seed: int, authority: bool)

  /** Whether StartFromAsset finds all the context it needs, after the fallbacks. */
  predicate StartsFrom(specAsset: Option<SpellSpec>, ctx: ExecContext, wc: Option<nat>, c: Option<ActorId>,
                       r: SpellActionRegistry?, eb: SpellEventBus?)
  {
    (ctx.worldContext.Some? || wc.Some?) && (ctx.caster.Some? || c.Some?) &&
    (ctx.registry != null || r != null) && (ctx.eventBus != null || eb != null) && specAsset.Some?
  }

  /** The action list a dispatched handler or phase carries. */
  function ActionsOf(sp: SpellSpec, d: Dispatched): seq<SpellAction> {
    match d
    case Handler(i) => if i < |sp.handlers| then sp.handlers[i].actions else []
    case Phase(i) => if i < |sp.phases| then sp.phases[i].actions else []
  }



  /** The dispatch loop of OnSpellEvent: each dispatched reaction's actions go through ExecuteActions. */
  method RunDispatched(rt: SpellRuntime, sp: SpellSpec, order: seq<Dispatched>) returns (executed: seq<seq<nat>>)
    requires rt.Valid()
    modifies rt`executorCache, rt`nextExecutor
    ensures rt.Valid()
    ensures |executed| == |order|
    ensures rt.registry == null ==> rt.executorCache == old(rt.executorCache)
    ensures rt.registry != null ==> forall k :: 0 <= k < |order| ==>
              executed[k] == RunIndices(ActionsOf(sp, order[k]), rt.authority, rt.registry.bindings)
  {
    executed := [];
    var i := 0;
    while i < |order|
      invariant 0 <= i <= |order| && |executed| == i
      invariant rt.Valid()
      invariant rt.registry == null ==> rt.executorCache == old(rt.executorCache)
      invariant rt.registry != null ==> forall k :: 0 <= k < i ==>
                  executed[k] == RunIndices(ActionsOf(sp, order[k]), rt.authority, rt.registry.bindings)
    {
      var ran := ExecuteActions(rt, ActionsOf(sp, order[i]));
      executed := executed + [ran];
      i := i + 1;
    }
  }

  /** Valid handles with ids in `[lo, hi)`, in increasing id order (so pairwise distinct). */
  predicate FreshHandles(hs: seq<Handle>, lo: int, hi: int) {
    (forall k :: 0 <= k < |hs| ==> hs[k].IsValid() && lo <= hs[k].id < hi) &&
    (forall i, j :: 0 <= i < j < |hs| ==> hs[i].id < hs[j].id)
  }

  /**
   * The subscribers Start appends for `listener`, one per reaction in
   * order, under consecutive ids from `first`, each filtered by its
   * trigger's exact tag.
   */
  function SubscribersFor(listener: nat, rs: seq<Reaction>, first: int): (r: seq<Subscriber>)
    ensures |r| == |rs|
    ensures forall k :: 0 <= k < |rs| ==> r[k] == Subscriber(first + k, listener, rs[k].trigger.exactTag)
  {
    if |rs| == 0 then []
    else
      var n := |rs| - 1;
      assert forall k :: 0 <= k < n ==> rs[..n][k] == rs[k];
      SubscribersFor(listener, rs[..n], first) + [Subscriber(first + n, listener, rs[n].trigger.exactTag)]
  }

  /**
   * The subscription loop of Start: one handle per reaction, in order,
   * under the bus's next ids; the bus gains exactly SubscribersFor the
   * reactions after its old subscribers.
   */
  method SubscribeAll(bus: SpellEventBus, listener: nat, isListener: nat -> bool, reactions: seq<Reaction>)
    returns (hs: seq<Handle>)
    requires bus.Valid() && isListener(listener)
    modifies bus
    ensures bus.Valid()
    ensures bus.nextId == old(bus.nextId) + |reactions|
    ensures bus.subscribers == old(bus.subscribers) + SubscribersFor(listener, reactions, old(bus.nextId))
    ensures |hs| == |reactions| && forall k :: 0 <= k < |hs| ==> hs[k] == Handle(old(bus.nextId) + k)
    ensures FreshHandles(hs, old(bus.nextId), bus.nextId)
  {
    hs := [];
    var i := 0;
    while i < |reactions|
      invariant 0 <= i <= |reactions| && |hs| == i
      invariant bus.Valid() && bus.nextId == old(bus.nextId) + i
      invariant bus.subscribers == old(bus.subscribers) + SubscribersFor(listener, reactions[..i], old(bus.nextId))
      invariant forall k :: 0 <= k < i ==> hs[k] == Handle(old(bus.nextId) + k)
    {
      assert reactions[..i + 1][..i] == reactions[..i];
      var h := bus.Subscribe(Some(listener), isListener, reactions[i].trigger.exactTag);
      hs := hs + [h];
      i := i + 1;
    }
    assert reactions[..i] == reactions;
  }

  /** The ids of the valid handles among `hs`. */
  function ValidIds(hs: seq<Handle>): set<int> {
    set k | 0 <= k < |hs| && hs[k].IsValid() :: hs[k].id
  }

  /** Every subscriber whose id is not in `ids`. */
  function OutsideOf(ids: set<int>): Subscriber -> bool {
    (s: Subscriber) => s.id !in ids
  }

  /**
   * The unsubscription loop of Stop: exactly the subscribers holding the id
   * of one of the valid handles are removed, the others keep their order;
   * the next id is unchanged.
   */
  method UnsubscribeAll(bus: SpellEventBus, subs: seq<Handle>)
    requires bus.Valid()
    modifies bus
    ensures bus.Valid() && bus.nextId == old(bus.nextId)
    ensures bus.subscribers == Filter(old(bus.subscribers), OutsideOf(ValidIds(subs)))
    ensures forall k, j :: 0 <= k < |subs| && 0 <= j < |bus.subscribers| && subs[k].IsValid() ==>
              bus.subscribers[j].id != subs[k].id
  {
    FilterKeepsAll(old(bus.subscribers), OutsideOf(ValidIds(subs[..0])));
    var i := 0;
    while i < |subs|
      invariant 0 <= i <= |subs|
      invariant bus.Valid() && bus.nextId == old(bus.nextId)
      invariant bus.subscribers == Filter(old(bus.subscribers), OutsideOf(ValidIds(subs[..i])))
    {
      UnsubscribeStep(old(bus.subscribers), subs, i);
      bus.Unsubscribe(subs[i]);
      i := i + 1;
    }
    assert subs[..i] == subs;
    forall k, j | 0 <= k < |subs| && 0 <= j < |bus.subscribers| && subs[k].IsValid()
      ensures bus.subscribers[j].id != subs[k].id
    {
      assert subs[k].id in ValidIds(subs);
      assert OutsideOf(ValidIds(subs))(bus.subscribers[j]);
    }
  }

  /**
   * Stop undoes Start on the bus: unsubscribing the handles SubscribeAll
   * returned removes exactly the subscribers it appended, given that the
   * older subscribers' ids lie below the first new one (as Valid keeps).
   */
  lemma UnsubscribeUndoesSubscribe(before: seq<Subscriber>, listener: nat, rs: seq<Reaction>, first: int,
                                   hs: seq<Handle>)
    requires first >= 1 && forall k :: 0 <= k < |before| ==> before[k].id < first
    requires |hs| == |rs| && forall k :: 0 <= k < |hs| ==> hs[k] == Handle(first + k)
    ensures Filter(before + SubscribersFor(listener, rs, first), OutsideOf(ValidIds(hs))) == before
  {
    FilterAppend(before, SubscribersFor(listener, rs, first), OutsideOf(ValidIds(hs)));
    OlderSubscribersKept(before, first, hs);
    NewSubscribersDropped(listener, rs, first, hs);
  }

  /** Subscribers older than the handles keep their place. */
  lemma OlderSubscribersKept(before: seq<Subscriber>, first: int, hs: seq<Handle>)
    requires forall k :: 0 <= k < |before| ==> before[k].id < first
    requires forall k :: 0 <= k < |hs| ==> hs[k] == Handle(first + k)
    ensures Filter(before, OutsideOf(ValidIds(hs))) == before
  {
    assert forall x :: x in ValidIds(hs) ==> x >= first;
    FilterKeepsAll(before, OutsideOf(ValidIds(hs)));
  }

  /** The subscribers a run of handles stands for all go. */
  lemma NewSubscribersDropped(listener: nat, rs: seq<Reaction>, first: int, hs: seq<Handle>)
    requires first >= 1 && |hs| == |rs| && forall k :: 0 <= k < |hs| ==> hs[k] == Handle(first + k)
    ensures Filter(SubscribersFor(listener, rs, first), OutsideOf(ValidIds(hs))) == []
  {
    var added := SubscribersFor(listener, rs, first);
    assert forall k :: 0 <= k < |added| ==> hs[k].IsValid() && added[k].id == hs[k].id;
    assert forall k :: 0 <= k < |added| ==> added[k].id in ValidIds(hs);
  }

  /** One more Unsubscribe removes the next handle's id from what the earlier ones left. */
  lemma UnsubscribeStep(start: seq<Subscriber>, subs: seq<Handle>, i: nat)
    requires i < |subs|
    ensures var before := Filter(start, OutsideOf(ValidIds(subs[..i])));
            (subs[i].IsValid() ==> Filter(before, OtherThan(subs[i].id)) == Filter(start, OutsideOf(ValidIds(subs[..i + 1])))) &&
            (!subs[i].IsValid() ==> before == Filter(start, OutsideOf(ValidIds(subs[..i + 1]))))
  {
    assert subs[..i + 1] == subs[..i] + [subs[i]];
    if subs[i].IsValid() {
      assert ValidIds(subs[..i + 1]) == ValidIds(subs[..i]) + {subs[i].id} by {
        forall x | x in ValidIds(subs[..i + 1]) ensures x in ValidIds(subs[..i]) + {subs[i].id} {
          var k :| 0 <= k < i + 1 && subs[..i + 1][k].IsValid() && subs[..i + 1][k].id == x;
          if k < i { assert subs[..i][k] == subs[..i + 1][k]; }
        }
        forall x | x in ValidIds(subs[..i]) ensures x in ValidIds(subs[..i + 1]) {
          var k :| 0 <= k < i && subs[..i][k].IsValid() && subs[..i][k].id == x;
          assert subs[..i + 1][k] == subs[..i][k];
        }
        assert subs[..i + 1][i] == subs[i];
      }
      FilterTwice(start, OutsideOf(ValidIds(subs[..i])), OtherThan(subs[i].id), OutsideOf(ValidIds(subs[..i + 1])));
    } else {
      assert ValidIds(subs[..i + 1]) == ValidIds(subs[..i]) by {
        forall x | x in ValidIds(subs[..i + 1]) ensures x in ValidIds(subs[..i]) {
          var k :| 0 <= k < i + 1 && subs[..i + 1][k].IsValid() && subs[..i + 1][k].id == x;
          assert k < i;
          assert subs[..i][k] == subs[..i + 1][k];
        }
        forall x | x in ValidIds(subs[..i]) ensures x in ValidIds(subs[..i + 1]) {
          var k :| 0 <= k < i && subs[..i][k].IsValid() && subs[..i][k].id == x;
          assert subs[..i + 1][k] == subs[..i][k];
        }
      }
    }
  }

  /**
   * ExecuteActions: without a registry nothing runs; otherwise the actions
   * that pass the gates run in index order, each through the executor the
   * runtime caches for its binding's class. The executors' own effects are
   * not part of this model; `executed` lists the indices that ran.
   */
  method ExecuteActions(rt: SpellRuntime, actions: seq<SpellAction>) returns (executed: seq<nat>)
    requires rt.Valid()
    modifies rt`executorCache, rt`nextExecutor
    ensures rt.Valid()
    ensures rt.registry == null ==> executed == [] && rt.executorCache == old(rt.executorCache)
    ensures rt.registry != null ==> executed == RunIndices(actions, rt.authority, rt.registry.bindings)
    ensures rt.registry != null ==> forall k :: 0 <= k < |executed| ==>
              rt.registry.bindings[actions[executed[k]].actionTag].executorClass in rt.executorCache
  {
    executed := [];
    var reg := rt.registry;
    if reg == null {
      return;
    }
    var bindings, auth := reg.bindings, rt.authority;
    var i := 0;
    while i < |actions|
      invariant 0 <= i <= |actions|
      invariant rt.Valid() && rt.registry == reg && reg.bindings == bindings && rt.authority == auth
      invariant executed == RunIndices(actions[..i], auth, bindings)
      invariant forall k :: 0 <= k < |executed| ==>
                  executed[k] < i && bindings[actions[executed[k]].actionTag].executorClass in rt.executorCache
    {
      assert actions[..i + 1][..i] == actions[..i];
      assert actions[..i + 1][i] == actions[i];
      var ran := RunAction(rt, actions[i], bindings);
      if ran {
        executed := executed + [i];
      }
      i := i + 1;
    }
    assert actions[..i] == actions;
  }

  /**
   * One action of ExecuteActions: the gates in the source's order (a valid
   * tag, the authority policy, a registered binding, a payload of the
   * binding's struct type), then the cached or new executor runs it.
   */
  method RunAction(rt: SpellRuntime, a: SpellAction, bindings: map<Tag, RegisteredBinding>) returns (ran: bool)
    requires rt.Valid()
    modifies rt`executorCache, rt`nextExecutor
    ensures rt.Valid()
    ensures ran == Runs(a, rt.authority, bindings)
    ensures ran ==> bindings[a.actionTag].executorClass in rt.executorCache
    ensures forall c :: c in old(rt.executorCache) ==> c in rt.executorCache
  {
    ran := false;
    if !a.actionTag.IsValid() {
      return;
    }
    if (a.policy & RequireAuthority) != 0 && !rt.authority {
      return;
    }
    if a.actionTag !in bindings {
      return;
    }
    var binding := bindings[a.actionTag];
    if a.payload.Some? && a.payload.value != binding.payloadStruct {
      return;
    }
    var exec := rt.GetOrCreateExecutor(Some(binding.executorClass));
    ran := exec.Some?;
  }
}

module RuntimeScenarios {
  import opened Common
  import opened Runtime
  import opened ActionRegistry

  /** The executor cache hands back the same executor for a class on every later request. */
  method ExecutorIsReused(rt: SpellRuntime, cls: ClassName) returns (e1: Option<nat>, e2: Option<nat>)
    requires rt.Valid()
    modifies rt`executorCache, rt`nextExecutor
    ensures e1.Some? && e1 == e2
  {
    e1 := rt.GetOrCreateExecutor(Some(cls));
    e2 := rt.GetOrCreateExecutor(Some(cls));
  }
}
