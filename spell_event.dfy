// FSpellEventV3 (Public/Events/SpellEventV3.h): the envelope every spell event travels in.
module SpellEvents {
  import opened Common

  datatype SpellEvent = SpellEvent(
    runtimeGuid: Guid,
    eventTag: Tag,
    instigator: Option<ActorId>,
    magnitude: real,
    tags: seq<Tag>)
}
