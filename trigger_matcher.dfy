// FSpellTriggerMatcherV3 (Public/Events/SpellTriggerMatcherV3.h): whether a
// handler or phase reacts to an event, by tag and by delivery payload tags.
module TriggerMatcher {
  import opened Common
  import opened SpellEvents

  /**
   * The matcher's settings. The gameplay-tag query used when bUseExactTag
   * is off is an opaque predicate `tagQuery` over the single event tag.
   */
  datatype Matcher = Matcher(
    useExactTag: bool,
    exactTag: Tag,
    tagQuery: Tag -> bool,
    filterByPrimitiveId: bool,
    primitiveId: Name,
    primitiveIdPrefix: string,
    invertPrimitiveFilter: bool,
    filterByEmitterIndex: bool,
    emitterIndex: int,
    filterBySpawnSlot: bool,
    spawnSlot: int)

  /** Tag-only Matches. */
  function Matches(m: Matcher, inTag: Tag): (r: bool)
    ensures !inTag.IsValid() ==> !r
    ensures m.useExactTag ==> (r <==> m.exactTag.IsValid() && inTag.IsValid() && inTag == m.exactTag)
    ensures !m.useExactTag ==> (r <==> inTag.IsValid() && m.tagQuery(inTag))
  {
    if !inTag.IsValid() then false
    else if m.useExactTag then (if m.exactTag.IsValid() then inTag == m.exactTag else false)
    else m.tagQuery(inTag)
  }

  /** Some tag of the event, as a string, starts with `prefix`, ignoring case (the HasTagWithPrefix lambda). */
  predicate HasTagWithPrefix(ev: SpellEvent, prefix: string) {
    exists k :: 0 <= k < |ev.tags| && StartsWithNoCase(ev.tags[k].name, prefix)
  }

  function EmitterIndexPrefix(i: int): string { "Delivery.EmitterIndex." + IntToString(i) }
  function SpawnSlotPrefix(i: int): string { "Delivery.SpawnSlot." + IntToString(i) }
  function PrimitivePrefix(s: string): string { "Delivery.Primitive." + s }

  /** The primitive-id part of the filter, before inversion. */
  predicate PrimitiveCriterion(m: Matcher, ev: SpellEvent) {
    if m.primitiveId != NoName then HasTagWithPrefix(ev, PrimitivePrefix(m.primitiveId))
    else if m.primitiveIdPrefix != "" then HasTagWithPrefix(ev, PrimitivePrefix(m.primitiveIdPrefix))
    else false
  }

  /**
   * MatchesEvent: the tag must match; with the primitive filter on, the
   * emitter-index and spawn-slot prefixes are required when enabled, and
   * the primitive criterion (possibly inverted) decides.
   */
  function MatchesEvent(m: Matcher, ev: SpellEvent): (r: bool)
    ensures r ==> Matches(m, ev.eventTag)
    ensures !m.filterByPrimitiveId ==> r == Matches(m, ev.eventTag)
    ensures r && m.filterByPrimitiveId && m.filterByEmitterIndex ==> HasTagWithPrefix(ev, EmitterIndexPrefix(m.emitterIndex))
    ensures r && m.filterByPrimitiveId && m.filterBySpawnSlot ==> HasTagWithPrefix(ev, SpawnSlotPrefix(m.spawnSlot))
    ensures m.filterByPrimitiveId && m.primitiveId == NoName && m.primitiveIdPrefix == "" ==>
              (r ==> m.invertPrimitiveFilter)
    ensures m.filterByPrimitiveId ==>
              (r <==> Matches(m, ev.eventTag) &&
                       (!m.filterByEmitterIndex || HasTagWithPrefix(ev, EmitterIndexPrefix(m.emitterIndex))) &&
                       (!m.filterBySpawnSlot || HasTagWithPrefix(ev, SpawnSlotPrefix(m.spawnSlot))) &&
                       PrimitiveCriterion(m, ev) != m.invertPrimitiveFilter)
  {
    if !Matches(m, ev.eventTag) then false
    else if !m.filterByPrimitiveId then true
    else if m.filterByEmitterIndex && !HasTagWithPrefix(ev, EmitterIndexPrefix(m.emitterIndex)) then false
    else if m.filterBySpawnSlot && !HasTagWithPrefix(ev, SpawnSlotPrefix(m.spawnSlot)) then false
    else
      var ok := PrimitiveCriterion(m, ev);
      if m.invertPrimitiveFilter then !ok else ok
  }

  /** A set PrimitiveId takes precedence: the prefix setting is then ignored. */
  lemma PrimitiveIdTakesPrecedence(m: Matcher, ev: SpellEvent, otherPrefix: string)
    requires m.primitiveId != NoName
    ensures MatchesEvent(m, ev) == MatchesEvent(m.(primitiveIdPrefix := otherPrefix), ev)
  {
  }

  /** With every criterion empty, the filter rejects, or accepts when inverted, once the gates pass. */
  lemma NoCriteriaRejects(m: Matcher, ev: SpellEvent)
    requires m.filterByPrimitiveId && m.primitiveId == NoName && m.primitiveIdPrefix == ""
    requires !m.filterByEmitterIndex && !m.filterBySpawnSlot
    ensures MatchesEvent(m, ev) == (Matches(m, ev.eventTag) && m.invertPrimitiveFilter)
  {
  }

  /**
   * The "exact" primitive test is a string-prefix test, so a matcher for
   * primitive "P1" also accepts an event tagged "Delivery.Primitive.P10".
   */
  lemma ExactPrimitiveIsPrefix()
    ensures MatchesEvent(Matcher(true, Tag("Delivery.Hit"), (t: Tag) => false, true, "P1", "", false, false, -1, false, 0),
                         SpellEvent(InvalidGuid, Tag("Delivery.Hit"), None, 0.0, [Tag("Delivery.Primitive.P10")]))
  {
    var ev := SpellEvent(InvalidGuid, Tag("Delivery.Hit"), None, 0.0, [Tag("Delivery.Primitive.P10")]);
    assert IsPrefix(PrimitivePrefix("P1"), ev.tags[0].name);
    PrefixIgnoringCase(PrimitivePrefix("P1"), ev.tags[0].name);
  }
}
