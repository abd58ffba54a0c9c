// Value types shared by the effect resolver and the status system
// (Public/Effects/EffectTypesV3.h).
module EffectTypes {
  import opened Common

  /** FEffectContextV3: who caused an effect and the tags it carries. */
  datatype EffectContext = EffectContext(
    source: Option<ActorId>,
    instigator: Option<ActorId>,
    spellTags: seq<Tag>,
    effectTags: seq<Tag>,
    hitLocation: Vec,
    hitZoneTag: Tag)

  const DefaultContext := EffectContext(None, None, [], [], ZeroVec, InvalidTag)
}
