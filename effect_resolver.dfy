// The effect resolver (Private/Effects/EffectResolverV3.cpp), the
// resistance component it consults (Private/Effects/EffectResistanceComponentV3.cpp)
// and the subsystem that runs it over a list of targets
// (Private/Effects/EffectResolverSubsystemV3.cpp). The attribute provider
// is an interface: its two calls are function parameters over an opaque
// provider state `S`. The execution context's variable store is passed as
// its contents (None when the context has no store).
module EffectResolver {
  import opened Common
  import opened EffectTypes
  import VariableStore
  import Attributes

  /** EMagnitudeSourceV3. */
  datatype MagnitudeSource = Constant | FromVariable | FromAttribute

  /** FMagnitudeV3. */
  datatype Magnitude = Magnitude(source: MagnitudeSource, constant: real, variableKey: Name, attribute: Tag)

  /** EEffectKindV3; `UnknownKind` stands for a byte outside the two declared values. */
  datatype EffectKind = ModifyAttribute | ApplyForce | UnknownKind

  /** FEffect_ModifyAttributeV3 (bClampToMinMax is never read). */
  datatype ModifyAttributeSpec = ModifyAttributeSpec(attribute: Tag, op: Attributes.AttributeOp, magnitude: Magnitude)

  /** FEffectSpecV3 without the force parameters, which only feed physics calls. */
  datatype EffectSpec = EffectSpec(kind: EffectKind, context: EffectContext, modifyAttribute: ModifyAttributeSpec)

  /** EEffectOutcomeV3. */
  datatype Outcome = Applied | Blocked | Immune | Resisted | Partial | Failed

  /** FEffectResultV3. */
  datatype EffectResult = EffectResult(outcome: Outcome, attribute: Tag, rawMagnitude: real,
                                       finalMagnitude: real, mitigationFactor: real, reason: string)

  /** `FEffectResultV3{}`. */
  const DefaultResult := EffectResult(Failed, InvalidTag, 0.0, 0.0, 1.0, "")

  /**
   * What the resolver needs of its execution context: the authority flag,
   * and whether the world context, world, game instance and attribute
   * subsystem are all there.
   */
  datatype ResolverContext = ResolverContext(authority: bool, hasAttributeSubsystem: bool)

  /** The attribute subsystem's provider: absent, or the two interface calls over a provider state. */
  datatype AttributeProvider<!S> =
    | NoProvider
    | Provider(get: (S, ActorId, Tag) -> (bool, real),
               apply: (S, ActorId, Tag, Attributes.AttributeOp, real) -> (bool, real, S))

  /** UEffectResistanceComponentV3. */
  datatype ResistanceComponent = ResistanceComponent(resistances: map<Tag, real>) {
    /** GetResistanceForTag: the stored resistance clamped to [0, 1]; 0 for an invalid or absent tag. */
    function GetResistanceForTag(t: Tag): (r: real)
      ensures 0.0 <= r <= 1.0
      ensures !t.IsValid() || t !in resistances ==> r == 0.0
      ensures t.IsValid() && t in resistances ==> r == Clamp(resistances[t], 0.0, 1.0)
    {
      if !t.IsValid() then 0.0
      else if t in resistances then Clamp(resistances[t], 0.0, 1.0)
      else 0.0
    }
  }

  /** A stored resistance already in [0, 1] is returned unchanged. */
  lemma ResistanceInRangeUnchanged(c: ResistanceComponent, t: Tag)
    requires t.IsValid() && t in c.resistances && 0.0 <= c.resistances[t] <= 1.0
    ensures c.GetResistanceForTag(t) == c.resistances[t]
  {
  }

  /** UEffectImmunityComponentV3: HasImmunityTag is a valid tag the container has (hierarchically). */
  datatype ImmunityComponent = ImmunityComponent(immunities: seq<Tag>) {
    predicate HasImmunityTag(t: Tag) {
      t.IsValid() && HasTag(immunities, t)
    }
  }

  /** The parts of a target actor the resolver looks at. */
  datatype TargetActor = TargetActor(resistance: Option<ResistanceComponent>, immunity: Option<ImmunityComponent>,
                                     hasPrimitiveRoot: bool, hasCharacterMovement: bool)

  const DamagePrefix: string := "Effect.Damage."
  const ResistancePrefix: string := "Resistance."
  const ControlPrefix: string := "Effect.Control"
  const ImmunityControl: string := "Immunity.Control"
  const ImmuneReason: string := "Immune via Immunity.Control"

  /** RequestGameplayTag(name, false): the registered tag of that name, else the invalid tag. */
  function RequestTag(name: string, registry: set<string>): (t: Tag)
    ensures t.IsValid() <==> name != "" && name in registry
    ensures t.IsValid() ==> t.name == name
  {
    if name != "" && name in registry then Tag(name) else InvalidTag
  }

  lemma StartsWithLength(s: string, p: string)
    requires StartsWithNoCase(s, p)
    ensures |p| <= |s|
  {
    assert |Lower(p)| <= |Lower(s)|;
  }

  /** The fallback mapping Effect.Damage.X -> Resistance.X, requested from the registry; invalid for other tags. */
  function ResistanceTagFor(t: Tag, registry: set<string>): (r: Tag)
    ensures r.IsValid() ==> StartsWithNoCase(t.name, DamagePrefix)
  {
    if StartsWithNoCase(t.name, DamagePrefix) then
      StartsWithLength(t.name, DamagePrefix);
      RequestTag(ResistancePrefix + t.name[|DamagePrefix|..], registry)
    else InvalidTag
  }

  /** The first effect tag whose mapped resistance tag is valid. */
  function FirstMapped(tags: seq<Tag>, registry: set<string>): (r: Option<nat>)
    ensures r.Some? ==> r.value < |tags|
  {
    if |tags| == 0 then None
    else if ResistanceTagFor(tags[0], registry).IsValid() then Some(0)
    else match FirstMapped(tags[1..], registry)
      case None => None
      case Some(i) => Some(i + 1)
  }

  /** FirstMapped finds the earliest tag with a valid mapped resistance tag, and None when no tag has one. */
  lemma {:induction false} FirstMappedIsFirst(tags: seq<Tag>, registry: set<string>)
    ensures var r := FirstMapped(tags, registry);
            r.Some? ==> ResistanceTagFor(tags[r.value], registry).IsValid() &&
                        forall j :: 0 <= j < r.value ==> !ResistanceTagFor(tags[j], registry).IsValid()
    ensures FirstMapped(tags, registry).None? ==> forall j :: 0 <= j < |tags| ==> !ResistanceTagFor(tags[j], registry).IsValid()
  {
    if |tags| > 0 && !ResistanceTagFor(tags[0], registry).IsValid() {
      FirstMappedIsFirst(tags[1..], registry);
      assert forall j :: 0 < j < |tags| ==> tags[j] == tags[1..][j - 1];
    }
  }

  /** The earliest mapped position is the one FirstMapped reports. */
  lemma {:induction false} FirstMappedAt(tags: seq<Tag>, registry: set<string>, i: nat)
    requires i < |tags| && ResistanceTagFor(tags[i], registry).IsValid()
    requires forall j :: 0 <= j < i ==> !ResistanceTagFor(tags[j], registry).IsValid()
    ensures FirstMapped(tags, registry) == Some(i)
  {
    if i > 0 {
      assert !ResistanceTagFor(tags[0], registry).IsValid();
      assert forall j :: 0 <= j < i - 1 ==> tags[1..][j] == tags[j + 1];
      FirstMappedAt(tags[1..], registry, i - 1);
    }
  }

  /** With no mapped tag at all, FirstMapped reports None. */
  lemma {:induction false} FirstMappedNone(tags: seq<Tag>, registry: set<string>)
    requires forall j :: 0 <= j < |tags| ==> !ResistanceTagFor(tags[j], registry).IsValid()
    ensures FirstMapped(tags, registry).None?
  {
    if |tags| > 0 {
      assert forall j :: 0 <= j < |tags| - 1 ==> tags[1..][j] == tags[j + 1];
      FirstMappedNone(tags[1..], registry);
    }
  }

  /**
   * The resistance ComputeResistanceFallback returns: 0 without a target or
   * resistance component; otherwise the component's resistance for the
   * first mapped tag, or 0 when no tag maps.
   */
  function ResistanceFallback(target: Option<TargetActor>, tags: seq<Tag>, registry: set<string>): (r: real)
    ensures 0.0 <= r <= 1.0
    ensures target.None? || target.value.resistance.None? || FirstMapped(tags, registry).None? ==> r == 0.0
  {
    if target.None? || target.value.resistance.None? then 0.0
    else match FirstMapped(tags, registry)
      case None => 0.0
      case Some(i) => target.value.resistance.value.GetResistanceForTag(ResistanceTagFor(tags[i], registry))
  }

  /** The resistance used is the component's value for the tag mapped from the first mappable damage tag. */
  lemma ResistanceFromFirstDamageTag(c: ResistanceComponent, a: TargetActor, tags: seq<Tag>, registry: set<string>, i: nat)
    requires a.resistance == Some(c)
    requires i < |tags| && ResistanceTagFor(tags[i], registry).IsValid()
    requires forall j :: 0 <= j < i ==> !ResistanceTagFor(tags[j], registry).IsValid()
    ensures StartsWithNoCase(tags[i].name, DamagePrefix)
    ensures ResistanceFallback(Some(a), tags, registry) == c.GetResistanceForTag(ResistanceTagFor(tags[i], registry))
  {
    FirstMappedAt(tags, registry, i);
  }

  /** ComputeResistanceFallback: the scan over the effect tags, returning on the first mapped one. */
  method ComputeResistanceFallback(target: Option<TargetActor>, tags: seq<Tag>, registry: set<string>) returns (r: real)
    ensures r == ResistanceFallback(target, tags, registry)
  {
    if target.None? || target.value.resistance.None? {
      return 0.0;
    }
    var comp := target.value.resistance.value;
    var i := 0;
    while i < |tags|
      invariant 0 <= i <= |tags|
      invariant forall j :: 0 <= j < i ==> !ResistanceTagFor(tags[j], registry).IsValid()
    {
      var resTag := ResistanceTagFor(tags[i], registry);
      if resTag.IsValid() {
        FirstMappedAt(tags, registry, i);
        return comp.GetResistanceForTag(resTag);
      }
      i := i + 1;
    }
    FirstMappedNone(tags, registry);
    return 0.0;
  }

  /**
   * The immunity fallback: the target has an immunity component, some
   * effect tag starts with "Effect.Control", and the registered
   * Immunity.Control tag is among the component's immunities.
   */
  predicate ImmuneFallback(target: Option<TargetActor>, tags: seq<Tag>, registry: set<string>) {
    target.Some? && target.value.immunity.Some? &&
    (exists i :: 0 <= i < |tags| && StartsWithNoCase(tags[i].name, ControlPrefix)) &&
    target.value.immunity.value.HasImmunityTag(RequestTag(ImmunityControl, registry))
  }

  /** CheckImmunityFallback: the scan over the effect tags, with the reason text on success. */
  method CheckImmunityFallback(target: Option<TargetActor>, tags: seq<Tag>, registry: set<string>)
    returns (immune: bool, reason: string)
    ensures immune <==> ImmuneFallback(target, tags, registry)
    ensures immune ==> reason == ImmuneReason
  {
    reason := "";
    if target.None? || target.value.immunity.None? {
      return false, reason;
    }
    var comp := target.value.immunity.value;
    var i := 0;
    while i < |tags|
      invariant 0 <= i <= |tags|
      invariant forall j :: 0 <= j < i ==>
                  !(StartsWithNoCase(tags[j].name, ControlPrefix) && comp.HasImmunityTag(RequestTag(ImmunityControl, registry)))
    {
      if StartsWithNoCase(tags[i].name, ControlPrefix) {
        var immTag := RequestTag(ImmunityControl, registry);
        if immTag.IsValid() && comp.HasImmunityTag(immTag) {
          return true, ImmuneReason;
        }
      }
      i := i + 1;
    }
    return false, reason;
  }

  /** TryGetNumericFromSpellValue: Float, Int and Bool convert; every other type gives (false, 0). */
  function TryGetNumeric(v: VariableStore.SpellValue): (r: (bool, real))
    ensures r.0 <==> v.vtype == VariableStore.FloatType || v.vtype == VariableStore.IntType || v.vtype == VariableStore.BoolType
    ensures !r.0 ==> r.1 == 0.0
    ensures v.vtype == VariableStore.FloatType ==> r.1 == v.floatValue
    ensures v.vtype == VariableStore.IntType ==> r.1 == v.intValue as real
    ensures v.vtype == VariableStore.BoolType ==> r.1 == if v.boolValue then 1.0 else 0.0
  {
    match v.vtype
    case FloatType => (true, v.floatValue)
    case IntType => (true, v.intValue as real)
    case BoolType => (true, if v.boolValue then 1.0 else 0.0)
    case _ => (false, 0.0)
  }

  /** UAttributeSubsystemV3::GetAttribute: (false, 0) without a provider or a target, else the provider's answer. */
  function SubsystemGet<S>(prov: AttributeProvider<S>, s: S, target: Option<ActorId>, key: Tag): (r: (bool, real))
    ensures prov.NoProvider? || target.None? ==> r == (false, 0.0)
  {
    if prov.NoProvider? || target.None? then (false, 0.0) else prov.get(s, target.value, key)
  }

  /** UAttributeSubsystemV3::ApplyOp: (false, 0) and no change without a provider or a target. */
  function SubsystemApply<S>(prov: AttributeProvider<S>, s: S, target: Option<ActorId>, key: Tag,
                             op: Attributes.AttributeOp, operand: real): (r: (bool, real, S))
    ensures prov.NoProvider? || target.None? ==> r == (false, 0.0, s)
  {
    if prov.NoProvider? || target.None? then (false, 0.0, s) else prov.apply(s, target.value, key, op, operand)
  }

  /**
   * EvaluateMagnitude, whose OutRaw equals its return value on every path:
   * 0 without a target; the constant; the variable's numeric value (0 when
   * the store, the variable or a numeric type is missing); or the target's
   * attribute (0 when the subsystem or the attribute is missing).
   */
  function EvaluateMagnitude<S>(ctx: ResolverContext, m: Magnitude, target: Option<ActorId>,
                                vars: Option<map<Name, VariableStore.SpellValue>>, prov: AttributeProvider<S>, s: S): (r: real)
    ensures target.None? ==> r == 0.0
    ensures target.Some? && m.source == Constant ==> r == m.constant
    ensures target.Some? && m.source == FromVariable ==>
              r == (if vars.None? || VariableStore.ValueOf(vars.value, m.variableKey).None? then 0.0
                    else TryGetNumeric(VariableStore.ValueOf(vars.value, m.variableKey).value).1)
    ensures target.Some? && m.source == FromAttribute ==>
              r == (if !ctx.hasAttributeSubsystem || !SubsystemGet(prov, s, target, m.attribute).0 then 0.0
                    else SubsystemGet(prov, s, target, m.attribute).1)
  {
    if target.None? then 0.0
    else match m.source
      case Constant => m.constant
      case FromVariable =>
        if vars.None? then 0.0
        else (match VariableStore.ValueOf(vars.value, m.variableKey)
          case None => 0.0
          case Some(v) => var n := TryGetNumeric(v); if !n.0 then 0.0 else n.1)
      case FromAttribute =>
        if !ctx.hasAttributeSubsystem then 0.0
        else var a := SubsystemGet(prov, s, target, m.attribute); if !a.0 then 0.0 else a.1
  }

  /** A non-numeric variable, like a missing one, gives magnitude 0. */
  lemma NonNumericVariableIsZero<S>(ctx: ResolverContext, m: Magnitude, a: ActorId,
                                    vars: map<Name, VariableStore.SpellValue>, prov: AttributeProvider<S>, s: S)
    requires m.source == FromVariable
    requires VariableStore.ValueOf(vars, m.variableKey).None? || !TryGetNumeric(VariableStore.ValueOf(vars, m.variableKey).value).0
    ensures EvaluateMagnitude(ctx, m, Some(a), Some(vars), prov, s) == 0.0
  {
  }

  /**
   * ApplyModifyAttribute: Failed without the attribute subsystem or when the
   * op fails; otherwise Applied, recording the attribute and the final
   * magnitude. The provider's new state is kept in every case.
   */
  function ApplyModifyAttribute<S>(ctx: ResolverContext, spec: EffectSpec, target: Option<ActorId>, finalMag: real,
                                   prov: AttributeProvider<S>, s: S, res: EffectResult): (r: (bool, EffectResult, S))
    ensures !ctx.hasAttributeSubsystem ==> r == (false, res.(outcome := Failed, reason := "No AttributeSubsystem"), s)
    ensures ctx.hasAttributeSubsystem ==>
              var op := SubsystemApply(prov, s, target, spec.modifyAttribute.attribute, spec.modifyAttribute.op, finalMag);
              r.0 == op.0 && r.2 == op.2 &&
              r.1 == (if op.0 then res.(outcome := Applied, attribute := spec.modifyAttribute.attribute, finalMagnitude := finalMag)
                      else res.(outcome := Failed, reason := "Attribute op failed"))
  {
    if !ctx.hasAttributeSubsystem then (false, res.(outcome := Failed, reason := "No AttributeSubsystem"), s)
    else
      var op := SubsystemApply(prov, s, target, spec.modifyAttribute.attribute, spec.modifyAttribute.op, finalMag);
      if !op.0 then (false, res.(outcome := Failed, reason := "Attribute op failed"), op.2)
      else (true, res.(outcome := Applied, attribute := spec.modifyAttribute.attribute, finalMagnitude := finalMag), op.2)
  }

  /**
   * ApplyForce's outcome: Failed for a null target; Applied when the root
   * is a primitive or the target is a character with movement; Failed
   * otherwise. The impulse itself is physics and is not modelled.
   */
  function ApplyForceOutcome(target: Option<TargetActor>, res: EffectResult): (r: (bool, EffectResult))
    ensures r.0 <==> target.Some? && (target.value.hasPrimitiveRoot || target.value.hasCharacterMovement)
    ensures r.0 ==> r.1 == res.(outcome := Applied)
    ensures !r.0 ==> r.1.outcome == Failed
  {
    if target.None? then (false, res.(outcome := Failed, reason := "Target null"))
    else if target.value.hasPrimitiveRoot || target.value.hasCharacterMovement then (true, res.(outcome := Applied))
    else (false, res.(outcome := Failed, reason := "No physics root / character movement"))
  }

  /** Clamp(1 - resistance, 0, 1). */
  function MitigationFactor(resist: real): (r: real)
    ensures 0.0 <= r <= 1.0
    ensures 0.0 <= resist <= 1.0 ==> r == 1.0 - resist
  {
    Clamp(1.0 - resist, 0.0, 1.0)
  }

  /** The final magnitude: the raw magnitude scaled by the mitigation factor. */
  function Scaled(raw: real, factor: real): real {
    raw * factor
  }

  /** The result ResolveAndApply reaches once the authority, target and immunity gates are passed. */
  function Mitigated<S>(ctx: ResolverContext, spec: EffectSpec, target: Option<ActorId>, actors: ActorId -> TargetActor,
                        registry: set<string>, vars: Option<map<Name, VariableStore.SpellValue>>, prov: AttributeProvider<S>, s: S): (r: EffectResult)
    requires target.Some?
  {
    var raw := if spec.kind == ModifyAttribute then EvaluateMagnitude(ctx, spec.modifyAttribute.magnitude, target, vars, prov, s) else 0.0;
    var mit := MitigationFactor(ResistanceFallback(Some(actors(target.value)), spec.context.effectTags, registry));
    DefaultResult.(rawMagnitude := raw, mitigationFactor := mit, finalMagnitude := Scaled(raw, mit))
  }

  /**
   * The mitigated result: factor clamp(1 - resistance, 0, 1) for the
   * fallback resistance, final magnitude raw times factor, and raw
   * magnitude 0 for any kind but ModifyAttribute.
   */
  lemma MitigatedFields<S>(ctx: ResolverContext, spec: EffectSpec, target: Option<ActorId>, actors: ActorId -> TargetActor,
                           registry: set<string>, vars: Option<map<Name, VariableStore.SpellValue>>, prov: AttributeProvider<S>, s: S)
    requires target.Some?
    ensures var r := Mitigated(ctx, spec, target, actors, registry, vars, prov, s);
            var resist := ResistanceFallback(Some(actors(target.value)), spec.context.effectTags, registry);
            r.outcome == Failed && r.attribute == InvalidTag && r.reason == "" &&
            r.mitigationFactor == Clamp(1.0 - resist, 0.0, 1.0) && 0.0 <= r.mitigationFactor <= 1.0 &&
            r.finalMagnitude == Scaled(r.rawMagnitude, r.mitigationFactor) &&
            (spec.kind != ModifyAttribute ==> r.rawMagnitude == 0.0 && r.finalMagnitude == 0.0) &&
            (spec.kind == ModifyAttribute ==>
               r.rawMagnitude == EvaluateMagnitude(ctx, spec.modifyAttribute.magnitude, target, vars, prov, s))
  {
  }

  /** The final switch of ResolveAndApply on the effect kind, from the mitigated result `res`. */
  function ApplyByKind<S>(ctx: ResolverContext, spec: EffectSpec, target: Option<ActorId>, actor: Option<TargetActor>,
                          prov: AttributeProvider<S>, s: S, res: EffectResult): (r: (bool, EffectResult, S))
  {
    match spec.kind
    case ModifyAttribute => ApplyModifyAttribute(ctx, spec, target, res.finalMagnitude, prov, s, res)
    case ApplyForce => var f := ApplyForceOutcome(actor, res); (f.0, f.1, s)
    case UnknownKind => (false, res.(outcome := Failed, reason := "Unknown effect kind"), s)
  }

  /**
   * ResolveAndApply as a function of its inputs: the result, the success
   * flag and the provider state afterwards.
   */
  function Resolved<S>(ctx: ResolverContext, spec: EffectSpec, target: Option<ActorId>, actors: ActorId -> TargetActor,
                       registry: set<string>, vars: Option<map<Name, VariableStore.SpellValue>>, prov: AttributeProvider<S>, s: S)
    : (r: (bool, EffectResult, S))
  {
    if !ctx.authority then (false, DefaultResult.(reason := "Not authority"), s)
    else if target.None? then (false, DefaultResult.(reason := "Target null"), s)
    else if ImmuneFallback(Some(actors(target.value)), spec.context.effectTags, registry) then
      (false, DefaultResult.(outcome := Immune, reason := ImmuneReason), s)
    else
      ApplyByKind(ctx, spec, target, Some(actors(target.value)), prov, s,
                  Mitigated(ctx, spec, target, actors, registry, vars, prov, s))
  }

  /** Without authority, or without a target, the result is Failed and false, and nothing changes. */
  lemma GatesFail<S>(ctx: ResolverContext, spec: EffectSpec, target: Option<ActorId>, actors: ActorId -> TargetActor,
                     registry: set<string>, vars: Option<map<Name, VariableStore.SpellValue>>, prov: AttributeProvider<S>, s: S)
    requires !ctx.authority || target.None?
    ensures var r := Resolved(ctx, spec, target, actors, registry, vars, prov, s);
            !r.0 && r.1.outcome == Failed && r.2 == s
  {
  }

  /**
   * Immunity is checked before the magnitude: an immune target gives
   * Immune, false, no magnitude and no provider call.
   */
  lemma ImmuneBeforeMagnitude<S>(ctx: ResolverContext, spec: EffectSpec, a: ActorId, actors: ActorId -> TargetActor,
                                 registry: set<string>, vars: Option<map<Name, VariableStore.SpellValue>>, prov: AttributeProvider<S>, s: S)
    requires ctx.authority && ImmuneFallback(Some(actors(a)), spec.context.effectTags, registry)
    ensures var r := Resolved(ctx, spec, Some(a), actors, registry, vars, prov, s);
            !r.0 && r.1.outcome == Immune && r.1.rawMagnitude == 0.0 && r.1.finalMagnitude == 0.0 && r.2 == s
  {
  }

  /**
   * Past the gates, whatever the kind and whether the op succeeds, the
   * result carries the raw magnitude, the mitigation factor and the final
   * magnitude computed before the kind switch.
   */
  lemma MitigationApplied<S>(ctx: ResolverContext, spec: EffectSpec, a: ActorId, actors: ActorId -> TargetActor,
                             registry: set<string>, vars: Option<map<Name, VariableStore.SpellValue>>, prov: AttributeProvider<S>, s: S)
    requires ctx.authority && !ImmuneFallback(Some(actors(a)), spec.context.effectTags, registry)
    ensures var r := Resolved(ctx, spec, Some(a), actors, registry, vars, prov, s);
            var m := Mitigated(ctx, spec, Some(a), actors, registry, vars, prov, s);
            r.1.rawMagnitude == m.rawMagnitude && r.1.mitigationFactor == m.mitigationFactor &&
            r.1.finalMagnitude == m.finalMagnitude
  {
    var m := Mitigated(ctx, spec, Some(a), actors, registry, vars, prov, s);
    var r := Resolved(ctx, spec, Some(a), actors, registry, vars, prov, s);
    match spec.kind {
      case ModifyAttribute =>
        assert r == ApplyModifyAttribute(ctx, spec, Some(a), m.finalMagnitude, prov, s, m);
      case ApplyForce =>
        assert r.1 == ApplyForceOutcome(Some(actors(a)), m).1;
      case UnknownKind =>
    }
  }

  /** An unknown effect kind that passes the gates fails, with no provider call. */
  lemma UnknownKindFails<S>(ctx: ResolverContext, spec: EffectSpec, target: Option<ActorId>, actors: ActorId -> TargetActor,
                            registry: set<string>, vars: Option<map<Name, VariableStore.SpellValue>>, prov: AttributeProvider<S>, s: S)
    requires spec.kind == UnknownKind
    ensures var r := Resolved(ctx, spec, target, actors, registry, vars, prov, s);
            !r.0 && r.1.outcome in {Failed, Immune} && r.2 == s
  {
  }

  /**
   * A ModifyAttribute effect succeeds exactly when the gates pass, the
   * attribute subsystem is there and the provider's op succeeds with the
   * final magnitude; it then records Applied, the attribute and that
   * magnitude.
   */
  lemma ModifySucceedsIff<S>(ctx: ResolverContext, spec: EffectSpec, a: ActorId, actors: ActorId -> TargetActor,
                             registry: set<string>, vars: Option<map<Name, VariableStore.SpellValue>>, prov: AttributeProvider<S>, s: S)
    requires spec.kind == ModifyAttribute
    ensures var r := Resolved(ctx, spec, Some(a), actors, registry, vars, prov, s);
            var fin := Mitigated(ctx, spec, Some(a), actors, registry, vars, prov, s).finalMagnitude;
            r.0 <==> ctx.authority && !ImmuneFallback(Some(actors(a)), spec.context.effectTags, registry) &&
                     ctx.hasAttributeSubsystem && prov.Provider? &&
                     prov.apply(s, a, spec.modifyAttribute.attribute, spec.modifyAttribute.op, fin).0
    ensures var r := Resolved(ctx, spec, Some(a), actors, registry, vars, prov, s);
            r.0 ==> r.1.outcome == Applied && r.1.attribute == spec.modifyAttribute.attribute &&
                    r.1.finalMagnitude == Mitigated(ctx, spec, Some(a), actors, registry, vars, prov, s).finalMagnitude
  {
  }

  /** FEffectResolverV3::ResolveAndApply. */
  method ResolveAndApply<S>(ctx: ResolverContext, spec: EffectSpec, target: Option<ActorId>, actors: ActorId -> TargetActor,
                            registry: set<string>, vars: Option<map<Name, VariableStore.SpellValue>>, prov: AttributeProvider<S>, s: S)
    returns (ok: bool, res: EffectResult, s': S)
    ensures (ok, res, s') == Resolved(ctx, spec, target, actors, registry, vars, prov, s)
  {
    res := DefaultResult;
    s' := s;
    if !ctx.authority {
      return false, res.(outcome := Failed, reason := "Not authority"), s;
    }
    if target.None? {
      return false, res.(outcome := Failed, reason := "Target null"), s;
    }
    var actor := Some(actors(target.value));
    var immune, immReason := CheckImmunityFallback(actor, spec.context.effectTags, registry);
    if immune {
      return false, res.(outcome := Immune, reason := immReason), s;
    }
    ok, res, s' := MitigateAndApply(ctx, spec, target, actors, registry, vars, prov, s);
  }

  /** The part of ResolveAndApply past the gates: magnitude, resistance, mitigation, then the kind switch. */
  method MitigateAndApply<S>(ctx: ResolverContext, spec: EffectSpec, target: Option<ActorId>, actors: ActorId -> TargetActor,
                             registry: set<string>, vars: Option<map<Name, VariableStore.SpellValue>>, prov: AttributeProvider<S>, s: S)
    returns (ok: bool, res: EffectResult, s': S)
    requires target.Some?
    ensures (ok, res, s') == ApplyByKind(ctx, spec, target, Some(actors(target.value)), prov, s,
                                         Mitigated(ctx, spec, target, actors, registry, vars, prov, s))
  {
    ghost var m := Mitigated(ctx, spec, target, actors, registry, vars, prov, s);
    var actor := Some(actors(target.value));
    res := DefaultResult;
    var rawMag := if spec.kind == ModifyAttribute then EvaluateMagnitude(ctx, spec.modifyAttribute.magnitude, target, vars, prov, s) else 0.0;
    assert rawMag == m.rawMagnitude;
    res := res.(rawMagnitude := rawMag);
    var resist := ComputeResistanceFallback(actor, spec.context.effectTags, registry);
    var mitFactor := Clamp(1.0 - resist, 0.0, 1.0);
    assert mitFactor == m.mitigationFactor;
    res := res.(mitigationFactor := mitFactor);
    var finalMag := Scaled(rawMag, mitFactor);
    res := res.(finalMagnitude := finalMag);
    assert res == m;
    var r := ApplyByKind(ctx, spec, target, actor, prov, s, res);
    ok, res, s' := r.0, r.1, r.2;
  }

  /**
   * The per-target results of ResolveAndApplyToTargets, in target order,
   * each resolved against the provider state the previous ones left.
   */
  function ResolveAll<S>(ctx: ResolverContext, spec: EffectSpec, targets: seq<Option<ActorId>>, actors: ActorId -> TargetActor,
                         registry: set<string>, vars: Option<map<Name, VariableStore.SpellValue>>, prov: AttributeProvider<S>, s: S)
    : (r: (seq<bool>, seq<EffectResult>, S))
    ensures |r.0| == |targets| && |r.1| == |targets|
    decreases |targets|
  {
    if |targets| == 0 then ([], [], s)
    else
      var prev := ResolveAll(ctx, spec, targets[..|targets| - 1], actors, registry, vars, prov, s);
      var last := Resolved(ctx, spec, targets[|targets| - 1], actors, registry, vars, prov, prev.2);
      (prev.0 + [last.0], prev.1 + [last.1], last.2)
  }

  /** One step of ResolveAll: the last target is resolved against the state the others left. */
  lemma ResolveAllLast<S>(ctx: ResolverContext, spec: EffectSpec, targets: seq<Option<ActorId>>, actors: ActorId -> TargetActor,
                          registry: set<string>, vars: Option<map<Name, VariableStore.SpellValue>>, prov: AttributeProvider<S>, s: S)
    requires |targets| > 0
    ensures var n := |targets| - 1;
            var prev := ResolveAll(ctx, spec, targets[..n], actors, registry, vars, prov, s);
            var last := Resolved(ctx, spec, targets[n], actors, registry, vars, prov, prev.2);
            ResolveAll(ctx, spec, targets, actors, registry, vars, prov, s) == (prev.0 + [last.0], prev.1 + [last.1], last.2)
  {
  }

  /** A null (stale) target still contributes its own Failed, unsuccessful result at its position. */
  lemma {:induction false} NullTargetReported<S>(ctx: ResolverContext, spec: EffectSpec, targets: seq<Option<ActorId>>,
                                               actors: ActorId -> TargetActor, registry: set<string>,
                                               vars: Option<map<Name, VariableStore.SpellValue>>, prov: AttributeProvider<S>, s: S, i: nat)
    requires i < |targets| && targets[i].None?
    ensures var r := ResolveAll(ctx, spec, targets, actors, registry, vars, prov, s);
            !r.0[i] && r.1[i].outcome == Failed
    decreases |targets|
  {
    var n := |targets| - 1;
    ResolveAllLast(ctx, spec, targets, actors, registry, vars, prov, s);
    var prev := ResolveAll(ctx, spec, targets[..n], actors, registry, vars, prov, s);
    if i < n {
      NullTargetReported(ctx, spec, targets[..n], actors, registry, vars, prov, s, i);
    } else {
      GatesFail(ctx, spec, targets[n], actors, registry, vars, prov, prev.2);
    }
  }

  /** UEffectResolverSubsystemV3::ResolveAndApplyToTargets. */
  method ResolveAndApplyToTargets<S>(ctx: ResolverContext, spec: EffectSpec, targets: seq<Option<ActorId>>,
                                     actors: ActorId -> TargetActor, registry: set<string>,
                                     vars: Option<map<Name, VariableStore.SpellValue>>, prov: AttributeProvider<S>, s: S)
    returns (anyApplied: bool, results: seq<EffectResult>, s': S)
    ensures var r := ResolveAll(ctx, spec, targets, actors, registry, vars, prov, s);
            results == r.1 && s' == r.2 && (anyApplied <==> true in r.0)
    ensures |results| == |targets|
    ensures |targets| == 0 ==> !anyApplied && results == [] && s' == s
  {
    anyApplied := false;
    results := [];
    s' := s;
    ghost var oks: seq<bool> := [];
    var i := 0;
    while i < |targets|
      invariant 0 <= i <= |targets|
      invariant (oks, results, s') == ResolveAll(ctx, spec, targets[..i], actors, registry, vars, prov, s)
      invariant anyApplied <==> true in oks
    {
      var ok, r, next := ResolveAndApply(ctx, spec, targets[i], actors, registry, vars, prov, s');
      assert targets[..i + 1][..i] == targets[..i];
      ResolveAllLast(ctx, spec, targets[..i + 1], actors, registry, vars, prov, s);
      results := results + [r];
      oks := oks + [ok];
      s' := next;
      anyApplied := anyApplied || ok;
      i := i + 1;
    }
    assert targets[..i] == targets;
  }
}
