// USpellRelationSubsystemV3 (Private/Relations/SpellRelationSubsystemV3.cpp):
// how a caster relates to a target, decided by an ordered cascade over
// relation components, affiliation tags and a rules asset.
module Relations {
  import opened Common
  import opened TargetingTypes

  /** ESpellForcedRelationV3. */
  datatype ForcedRelation = NoForce | ForceAlly | ForceEnemy | ForceNeutral

  /** USpellRelationComponentV3: the per-actor relation settings. */
  datatype RelationComponent = RelationComponent(
    affiliationTags: seq<Tag>,
    useOwnerAsAlly: bool,
    owner: Option<ActorId>,
    forced: ForcedRelation,
    targetable: bool)

  /** FSpellRelationRulePairV3. */
  datatype RulePair = RulePair(a: Tag, b: Tag)

  /** USpellRelationRulesAssetV3. */
  datatype RulesAsset = RulesAsset(hostilePairs: seq<RulePair>, friendlyPairs: seq<RulePair>)

  /** EAffiliationScopeMatchV3 and FAffiliationScopeV3. */
  datatype ScopeMatch = ExactTag | AnyUnderRoot
  datatype AffiliationScope = AffiliationScope(scopeRoot: Tag, matchMode: ScopeMatch, enabled: bool)

  /** The reason tags of ResolveRelationDetailed. */
  const ReasonForced := Tag("Spell.Relation.Reason.Forced")
  const ReasonOwnerAlly := Tag("Spell.Relation.Reason.OwnerAlly")
  const ReasonSharedAffiliation := Tag("Spell.Relation.Reason.SharedAffiliation")
  const ReasonRuleHostile := Tag("Spell.Relation.Reason.RuleHostile")
  const ReasonRuleFriendly := Tag("Spell.Relation.Reason.RuleFriendly")
  const ReasonTargetNotTargetable := Tag("Spell.Relation.Reason.TargetNotTargetable")
  const ReasonFallbackNeutral := Tag("Spell.Relation.Reason.FallbackNeutral")

  /** MatchesPair: the caster carries one side of the pair and the target the other. */
  predicate MatchesPair(casterTags: seq<Tag>, targetTags: seq<Tag>, p: RulePair) {
    p.a.IsValid() && p.b.IsValid() &&
    ((HasTag(casterTags, p.a) && HasTag(targetTags, p.b)) || (HasTag(casterTags, p.b) && HasTag(targetTags, p.a)))
  }

  /** MatchesPair does not care which side is the caster, nor how the pair is written. */
  lemma MatchesPairSymmetric(c: seq<Tag>, t: seq<Tag>, p: RulePair)
    ensures MatchesPair(c, t, p) == MatchesPair(t, c, p)
    ensures MatchesPair(c, t, p) == MatchesPair(c, t, RulePair(p.b, p.a))
    ensures !p.a.IsValid() || !p.b.IsValid() ==> !MatchesPair(c, t, p)
  {
  }

  /** The first pair in array order that matches the two tag sets. */
  function FirstPair(pairs: seq<RulePair>, c: seq<Tag>, t: seq<Tag>): (r: Option<RulePair>)
    ensures r.None? <==> forall k :: 0 <= k < |pairs| ==> !MatchesPair(c, t, pairs[k])
    ensures r.Some? ==> exists k :: 0 <= k < |pairs| && pairs[k] == r.value && MatchesPair(c, t, r.value) &&
                                    forall j :: 0 <= j < k ==> !MatchesPair(c, t, pairs[j])
  {
    if |pairs| == 0 then None
    else if MatchesPair(c, t, pairs[0]) then Some(pairs[0])
    else
      var r := FirstPair(pairs[1..], c, t);
      assert forall k :: 1 <= k < |pairs| ==> pairs[k] == pairs[1..][k - 1];
      if r.Some? then
        var k :| 0 <= k < |pairs[1..]| && pairs[1..][k] == r.value && MatchesPair(c, t, r.value) &&
                   forall j :: 0 <= j < k ==> !MatchesPair(c, t, pairs[1..][j]);
        assert pairs[k + 1] == r.value;
        assert forall j :: 1 <= j < k + 1 ==> pairs[j] == pairs[1..][j - 1];
        r
      else r
  }

  /** The relation a forced setting imposes, if any. */
  function ForcedOutcome(f: ForcedRelation): (r: Option<TargetRelation>)
    ensures r.None? <==> f == NoForce
    ensures r.Some? ==> r.value in {Ally, Enemy, Neutral}
  {
    match f
    case NoForce => None
    case ForceAlly => Some(Ally)
    case ForceEnemy => Some(Enemy)
    case ForceNeutral => Some(Neutral)
  }

  /** Step 3 of ResolveRelation: some caster affiliation tag is carried (hierarchically) by the target. */
  predicate SharesAffiliation(c: seq<Tag>, t: seq<Tag>) {
    exists k :: 0 <= k < |c| && HasTag(t, c[k])
  }

  /** Step 2: the target is owned by the caster and treats its owner as an ally. */
  predicate OwnedByCaster(caster: ActorId, tRel: RelationComponent) {
    tRel.useOwnerAsAlly && tRel.owner == Some(caster)
  }

  /**
   * ResolveRelation: null actors give Any, the same actor Self; then, in
   * order, an untargetable target, a forced relation, ownership, any shared
   * affiliation tag, hostile pairs, friendly pairs, and Neutral.
   */
  function ResolveRelation(caster: Option<ActorId>, target: Option<ActorId>,
                           comp: ActorId -> Option<RelationComponent>, rules: Option<RulesAsset>): (r: TargetRelation)
    ensures r == Any <==> caster.None? || target.None?
    ensures r == Self <==> caster.Some? && caster == target
    ensures r == Enemy ==>
      comp(target.value).Some? && (comp(target.value).value.forced == ForceEnemy ||
        (rules.Some? && comp(caster.value).Some? &&
         FirstPair(rules.value.hostilePairs, comp(caster.value).value.affiliationTags, comp(target.value).value.affiliationTags).Some?))
  {
    if caster.None? || target.None? then Any
    else if caster == target then Self
    else
      var cRel := comp(caster.value);
      var tRel := comp(target.value);
      if tRel.Some? && !tRel.value.targetable then Neutral
      else if tRel.Some? && ForcedOutcome(tRel.value.forced).Some? then ForcedOutcome(tRel.value.forced).value
      else if tRel.Some? && OwnedByCaster(caster.value, tRel.value) then Ally
      else if cRel.Some? && tRel.Some? && SharesAffiliation(cRel.value.affiliationTags, tRel.value.affiliationTags) then Ally
      else if rules.Some? && cRel.Some? && tRel.Some? &&
              FirstPair(rules.value.hostilePairs, cRel.value.affiliationTags, tRel.value.affiliationTags).Some? then Enemy
      else if rules.Some? && cRel.Some? && tRel.Some? &&
              FirstPair(rules.value.friendlyPairs, cRel.value.affiliationTags, tRel.value.affiliationTags).Some? then Ally
      else Neutral
  }

  /** Untargetability is checked first, so it beats a forced relation. */
  lemma UntargetableIsNeutral(c: ActorId, t: ActorId, comp: ActorId -> Option<RelationComponent>, rules: Option<RulesAsset>)
    requires c != t && comp(t).Some? && !comp(t).value.targetable
    ensures ResolveRelation(Some(c), Some(t), comp, rules) == Neutral
  {
  }

  /** A forced relation overrides ownership, affiliation and the rules. */
  lemma ForcedOverrides(c: ActorId, t: ActorId, comp: ActorId -> Option<RelationComponent>, rules: Option<RulesAsset>)
    requires c != t && comp(t).Some? && comp(t).value.targetable && comp(t).value.forced != NoForce
    ensures ResolveRelation(Some(c), Some(t), comp, rules) == ForcedOutcome(comp(t).value.forced).value
    ensures forall rules2: Option<RulesAsset> ::
      ResolveRelation(Some(c), Some(t), comp, rules2) == ResolveRelation(Some(c), Some(t), comp, rules)
  {
  }

  /** Any shared affiliation tag gives Ally once the earlier steps did not decide. */
  lemma SharedAffiliationIsAlly(c: ActorId, t: ActorId, comp: ActorId -> Option<RelationComponent>, rules: Option<RulesAsset>)
    requires c != t && comp(c).Some? && comp(t).Some? && comp(t).value.targetable && comp(t).value.forced == NoForce
    requires SharesAffiliation(comp(c).value.affiliationTags, comp(t).value.affiliationTags)
    ensures ResolveRelation(Some(c), Some(t), comp, rules) == Ally
  {
  }

  /** Hostile pairs are checked before friendly ones: a set matching both resolves to Enemy. */
  lemma HostileBeforeFriendly(c: ActorId, t: ActorId, comp: ActorId -> Option<RelationComponent>, rules: RulesAsset,
                              hostile: nat, friendly: nat)
    requires c != t && comp(c).Some? && comp(t).Some?
    requires comp(t).value.targetable && comp(t).value.forced == NoForce && !OwnedByCaster(c, comp(t).value)
    requires !SharesAffiliation(comp(c).value.affiliationTags, comp(t).value.affiliationTags)
    requires hostile < |rules.hostilePairs| && friendly < |rules.friendlyPairs|
    requires MatchesPair(comp(c).value.affiliationTags, comp(t).value.affiliationTags, rules.hostilePairs[hostile])
    requires MatchesPair(comp(c).value.affiliationTags, comp(t).value.affiliationTags, rules.friendlyPairs[friendly])
    ensures ResolveRelation(Some(c), Some(t), comp, Some(rules)) == Enemy
  {
  }

  /** The tags of `source` at or under `root`, in order (GatherTagsUnderRoot's output). */
  function TagsUnder(source: seq<Tag>, root: Tag): (r: seq<Tag>)
    ensures !root.IsValid() ==> r == []
    ensures |r| <= |source|
  {
    if !root.IsValid() || |source| == 0 then []
    else
      var rest := TagsUnder(source[1..], root);
      if source[0].IsValid() && MatchesTag(source[0], root) then [source[0]] + rest else rest
  }

  /** TagsUnder keeps exactly the tags of `source` that match `root`. */
  lemma {:induction false} TagsUnderMembers(source: seq<Tag>, root: Tag, x: Tag)
    ensures x in TagsUnder(source, root) <==> root.IsValid() && x in source && MatchesTag(x, root)
    decreases |source|
  {
    if root.IsValid() && |source| > 0 {
      TagsUnderMembers(source[1..], root, x);
      assert source == [source[0]] + source[1..];
      assert x in source <==> x == source[0] || x in source[1..];
    }
  }

  /** Appending one tag to the source appends it to TagsUnder exactly when it matches. */
  lemma {:induction false} TagsUnderSnoc(source: seq<Tag>, root: Tag, x: Tag)
    requires root.IsValid()
    ensures TagsUnder(source + [x], root) ==
            TagsUnder(source, root) + (if x.IsValid() && MatchesTag(x, root) then [x] else [])
    decreases |source|
  {
    if |source| > 0 {
      assert (source + [x])[1..] == source[1..] + [x];
      TagsUnderSnoc(source[1..], root, x);
    } else {
      assert source + [x] == [x];
    }
  }

  /** GatherTagsUnderRoot: resets Out, then appends every valid tag of Source matching Root. */
  method GatherTagsUnderRoot(source: seq<Tag>, root: Tag) returns (out: seq<Tag>)
    ensures out == TagsUnder(source, root)
  {
    out := [];
    if !root.IsValid() {
      return;
    }
    var i := 0;
    while i < |source|
      invariant 0 <= i <= |source|
      invariant out == TagsUnder(source[..i], root)
    {
      assert source[..i + 1] == source[..i] + [source[i]];
      TagsUnderSnoc(source[..i], root, source[i]);
      if source[i].IsValid() && MatchesTag(source[i], root) {
        out := out + [source[i]];
      }
      i := i + 1;
    }
    assert source[..i] == source;
  }

  /** The first tag of `a`, in order, that also occurs in `b` (FindExactOverlap's answer). */
  function FirstCommon(a: seq<Tag>, b: seq<Tag>): (r: Option<Tag>)
    ensures r.None? <==> forall k :: 0 <= k < |a| ==> a[k] !in b
    ensures r.Some? ==> r.value in b && exists k :: 0 <= k < |a| && a[k] == r.value && forall j :: 0 <= j < k ==> a[j] !in b
  {
    if |a| == 0 then None
    else if a[0] in b then Some(a[0])
    else
      var r := FirstCommon(a[1..], b);
      assert forall k :: 1 <= k < |a| ==> a[k] == a[1..][k - 1];
      if r.Some? then
        var k :| 0 <= k < |a[1..]| && a[1..][k] == r.value && forall j :: 0 <= j < k ==> a[1..][j] !in b;
        assert a[k + 1] == r.value;
        assert forall j :: 1 <= j < k + 1 ==> a[j] == a[1..][j - 1];
        r
      else r
  }

  /** FindExactOverlap: the nested scan stops at the first tag of A that equals some tag of B. */
  method FindExactOverlap(a: seq<Tag>, b: seq<Tag>) returns (found: bool, matched: Tag)
    ensures found == FirstCommon(a, b).Some?
    ensures found ==> matched == FirstCommon(a, b).value
  {
    matched := InvalidTag;
    var i := 0;
    while i < |a|
      invariant 0 <= i <= |a|
      invariant FirstCommon(a[i..], b) == FirstCommon(a, b)
    {
      var j := 0;
      while j < |b|
        invariant 0 <= j <= |b|
        invariant forall jj :: 0 <= jj < j ==> b[jj] != a[i]
      {
        if a[i] == b[j] {
          assert a[i..][0] == a[i];
          return true, a[i];
        }
        j := j + 1;
      }
      assert a[i..][0] == a[i] && a[i..][1..] == a[i + 1..];
      i := i + 1;
    }
    return false, matched;
  }

  /** The answer a scope gives when it decides: its root for AnyUnderRoot, else the first exact overlap. */
  predicate ScopeDecides(s: AffiliationScope, c: seq<Tag>, t: seq<Tag>) {
    s.enabled && s.scopeRoot.IsValid() &&
    |TagsUnder(c, s.scopeRoot)| > 0 && |TagsUnder(t, s.scopeRoot)| > 0 &&
    (s.matchMode == AnyUnderRoot || FirstCommon(TagsUnder(c, s.scopeRoot), TagsUnder(t, s.scopeRoot)).Some?)
  }

  function ScopeAnswer(s: AffiliationScope, c: seq<Tag>, t: seq<Tag>): (r: Tag)
    requires ScopeDecides(s, c, t)
    ensures r.IsValid() && MatchesTag(r, s.scopeRoot)
  {
    if s.matchMode == AnyUnderRoot then MatchesTagReflexive(s.scopeRoot); s.scopeRoot
    else
      var m := FirstCommon(TagsUnder(c, s.scopeRoot), TagsUnder(t, s.scopeRoot)).value;
      TagsUnderMembers(t, s.scopeRoot, m);
      m
  }

  /**
   * The scoped-affiliation step of ResolveRelationDetailed: the scopes are
   * tried in array order, disabled ones skipped, and the index of the first
   * that decides is the answer.
   */
  function FirstScope(scopes: seq<AffiliationScope>, c: seq<Tag>, t: seq<Tag>): (r: Option<nat>)
    ensures r.None? <==> forall k :: 0 <= k < |scopes| ==> !ScopeDecides(scopes[k], c, t)
    ensures r.Some? ==> r.value < |scopes| && ScopeDecides(scopes[r.value], c, t) &&
                        forall j :: 0 <= j < r.value ==> !ScopeDecides(scopes[j], c, t)
  {
    if |scopes| == 0 then None
    else if ScopeDecides(scopes[0], c, t) then Some(0)
    else
      var r := FirstScope(scopes[1..], c, t);
      assert forall k :: 1 <= k < |scopes| ==> scopes[k] == scopes[1..][k - 1];
      if r.Some? then
        assert scopes[r.value + 1] == scopes[1..][r.value];
        Some(r.value + 1)
      else None
  }

  /** The matched tag the scoped step reports, if some scope decides. */
  function ScopedAnswer(scopes: seq<AffiliationScope>, c: seq<Tag>, t: seq<Tag>): (r: Option<Tag>)
    ensures r.None? <==> forall k :: 0 <= k < |scopes| ==> !ScopeDecides(scopes[k], c, t)
    ensures r.Some? ==> r.value.IsValid()
  {
    var i := FirstScope(scopes, c, t);
    if i.Some? then Some(ScopeAnswer(scopes[i.value], c, t)) else None
  }

  /** A scope that can take part: enabled, with a valid root. */
  predicate Usable(s: AffiliationScope) {
    s.enabled && s.scopeRoot.IsValid()
  }

  /** The scoped step looks at the first scope, then at the rest. */
  lemma ScopedAnswerStep(scopes: seq<AffiliationScope>, c: seq<Tag>, t: seq<Tag>)
    requires |scopes| > 0
    ensures ScopedAnswer(scopes, c, t) ==
            if ScopeDecides(scopes[0], c, t) then Some(ScopeAnswer(scopes[0], c, t)) else ScopedAnswer(scopes[1..], c, t)
  {
    if !ScopeDecides(scopes[0], c, t) {
      var r := FirstScope(scopes[1..], c, t);
      if r.Some? {
        assert scopes[r.value + 1] == scopes[1..][r.value];
      }
    }
  }

  /** Only enabled scopes matter: dropping the others changes nothing. */
  lemma {:induction false} ScopedAnswerIgnoresDisabled(scopes: seq<AffiliationScope>, c: seq<Tag>, t: seq<Tag>)
    ensures ScopedAnswer(scopes, c, t) == ScopedAnswer(Filter(scopes, Usable), c, t)
    decreases |scopes|
  {
    if |scopes| > 0 {
      var rest := scopes[1..];
      var f := Filter(rest, Usable);
      ScopedAnswerIgnoresDisabled(rest, c, t);
      ScopedAnswerStep(scopes, c, t);
      if Usable(scopes[0]) {
        var g := [scopes[0]] + f;
        assert Filter(scopes, Usable) == g;
        assert g[0] == scopes[0] && g[1..] == f;
        ScopedAnswerStep(g, c, t);
      } else {
        assert Filter(scopes, Usable) == f;
      }
    }
  }

  /** ResolveRelationDetailed's result: the relation with its reason and the two matched tags. */
  datatype RelationVerdict = RelationVerdict(relation: TargetRelation, reason: Tag, matchedA: Tag, matchedB: Tag)

  const Reasons := {ReasonForced, ReasonOwnerAlly, ReasonSharedAffiliation, ReasonRuleHostile,
                    ReasonRuleFriendly, ReasonTargetNotTargetable, ReasonFallbackNeutral}

  /**
   * ResolveRelationDetailed: the cascade of ResolveRelation with the shared
   * affiliation step replaced by the scoped search, reporting why.
   */
  function ResolveRelationDetailed(caster: Option<ActorId>, target: Option<ActorId>,
                                   comp: ActorId -> Option<RelationComponent>, rules: Option<RulesAsset>,
                                   scopes: seq<AffiliationScope>): (v: RelationVerdict)
    ensures v.relation == Any <==> caster.None? || target.None?
    ensures v.relation == Self <==> caster.Some? && caster == target
    ensures v.relation in {Any, Self} <==> v.reason == InvalidTag
    ensures v.relation !in {Any, Self} ==> v.reason in Reasons
    ensures v.reason == ReasonFallbackNeutral ==> v.relation == Neutral && v.matchedA == InvalidTag && v.matchedB == InvalidTag
    ensures v.reason == ReasonSharedAffiliation ==> v.relation == Ally && v.matchedA == v.matchedB && v.matchedA.IsValid()
  {
    if caster.None? || target.None? then RelationVerdict(Any, InvalidTag, InvalidTag, InvalidTag)
    else if caster == target then RelationVerdict(Self, InvalidTag, InvalidTag, InvalidTag)
    else
      var cRel := comp(caster.value);
      var tRel := comp(target.value);
      if tRel.Some? && !tRel.value.targetable then RelationVerdict(Neutral, ReasonTargetNotTargetable, InvalidTag, InvalidTag)
      else if tRel.Some? && ForcedOutcome(tRel.value.forced).Some? then
        RelationVerdict(ForcedOutcome(tRel.value.forced).value, ReasonForced, InvalidTag, InvalidTag)
      else if tRel.Some? && OwnedByCaster(caster.value, tRel.value) then RelationVerdict(Ally, ReasonOwnerAlly, InvalidTag, InvalidTag)
      else
        var scoped := if cRel.Some? && tRel.Some? && |scopes| > 0
                      then ScopedAnswer(scopes, cRel.value.affiliationTags, tRel.value.affiliationTags)
                      else None;
        if scoped.Some? then RelationVerdict(Ally, ReasonSharedAffiliation, scoped.value, scoped.value)
        else
          var hostile := if rules.Some? && cRel.Some? && tRel.Some?
                         then FirstPair(rules.value.hostilePairs, cRel.value.affiliationTags, tRel.value.affiliationTags)
                         else None;
          var friendly := if rules.Some? && cRel.Some? && tRel.Some?
                          then FirstPair(rules.value.friendlyPairs, cRel.value.affiliationTags, tRel.value.affiliationTags)
                          else None;
          if hostile.Some? then RelationVerdict(Enemy, ReasonRuleHostile, hostile.value.a, hostile.value.b)
          else if friendly.Some? then RelationVerdict(Ally, ReasonRuleFriendly, friendly.value.a, friendly.value.b)
          else RelationVerdict(Neutral, ReasonFallbackNeutral, InvalidTag, InvalidTag)
  }

  /** ResolveRelationDetailed considers only the enabled scopes. */
  lemma DetailedIgnoresDisabledScopes(caster: Option<ActorId>, target: Option<ActorId>,
                                      comp: ActorId -> Option<RelationComponent>, rules: Option<RulesAsset>,
                                      scopes: seq<AffiliationScope>)
    ensures ResolveRelationDetailed(caster, target, comp, rules, scopes) ==
            ResolveRelationDetailed(caster, target, comp, rules, Filter(scopes, Usable))
  {
    if caster.Some? && target.Some? && comp(caster.value).Some? && comp(target.value).Some? {
      var c := comp(caster.value).value.affiliationTags;
      var t := comp(target.value).value.affiliationTags;
      ScopedAnswerIgnoresDisabled(scopes, c, t);
      if |Filter(scopes, Usable)| == 0 {
        assert ScopedAnswer(Filter(scopes, Usable), c, t).None?;
      }
    }
  }

  /** An AnyUnderRoot scope that decides reports its root as both matched tags. */
  lemma AnyUnderRootReportsRoot(caster: ActorId, target: ActorId, comp: ActorId -> Option<RelationComponent>,
                                rules: Option<RulesAsset>, scopes: seq<AffiliationScope>, k: nat)
    requires caster != target && comp(caster).Some? && comp(target).Some?
    requires comp(target).value.targetable && comp(target).value.forced == NoForce && !OwnedByCaster(caster, comp(target).value)
    requires FirstScope(scopes, comp(caster).value.affiliationTags, comp(target).value.affiliationTags) == Some(k)
    requires scopes[k].matchMode == AnyUnderRoot
    ensures ResolveRelationDetailed(Some(caster), Some(target), comp, rules, scopes) ==
            RelationVerdict(Ally, ReasonSharedAffiliation, scopes[k].scopeRoot, scopes[k].scopeRoot)
  {
    var c, t := comp(caster).value.affiliationTags, comp(target).value.affiliationTags;
    assert ScopedAnswer(scopes, c, t) == Some(scopes[k].scopeRoot);
  }

  /** A tag both sides carry exactly is a shared affiliation in the sense of ResolveRelation. */
  lemma CommonTagIsShared(c: seq<Tag>, t: seq<Tag>, m: Tag)
    requires m.IsValid() && m in c && m in t
    ensures SharesAffiliation(c, t)
  {
    var k :| 0 <= k < |c| && c[k] == m;
    MatchesTagReflexive(m);
    assert HasTag(t, c[k]);
  }

  /**
   * With only ExactTag scopes, the detailed cascade never finds an ally that
   * ResolveRelation would not: when no affiliation tag is shared, both give
   * the same relation.
   */
  lemma DetailedAgreesWithoutSharedTags(caster: Option<ActorId>, target: Option<ActorId>,
                                        comp: ActorId -> Option<RelationComponent>, rules: Option<RulesAsset>,
                                        scopes: seq<AffiliationScope>)
    requires forall k :: 0 <= k < |scopes| ==> scopes[k].matchMode == ExactTag
    requires caster.Some? && target.Some? && comp(caster.value).Some? && comp(target.value).Some? ==>
               !SharesAffiliation(comp(caster.value).value.affiliationTags, comp(target.value).value.affiliationTags)
    ensures ResolveRelationDetailed(caster, target, comp, rules, scopes).relation == ResolveRelation(caster, target, comp, rules)
  {
    if caster.Some? && target.Some? && caster != target && comp(caster.value).Some? && comp(target.value).Some? {
      var c := comp(caster.value).value.affiliationTags;
      var t := comp(target.value).value.affiliationTags;
      forall k | 0 <= k < |scopes| ensures !ScopeDecides(scopes[k], c, t) {
        ExactScopeShares(scopes[k], c, t);
      }
    }
  }

  /** An ExactTag scope decides only on a tag both sides carry. */
  lemma ExactScopeShares(s: AffiliationScope, c: seq<Tag>, t: seq<Tag>)
    ensures s.matchMode == ExactTag && ScopeDecides(s, c, t) ==> SharesAffiliation(c, t)
  {
    if s.matchMode == ExactTag && ScopeDecides(s, c, t) {
      var m := FirstCommon(TagsUnder(c, s.scopeRoot), TagsUnder(t, s.scopeRoot)).value;
      assert m in TagsUnder(c, s.scopeRoot) && m in TagsUnder(t, s.scopeRoot);
      TagsUnderMembers(c, s.scopeRoot, m);
      TagsUnderMembers(t, s.scopeRoot, m);
      CommonTagIsShared(c, t, m);
    }
  }

  /** The default scopes Party, Guild, Faction, each enabled only when its root tag is registered. */
  function DefaultScopes(registered: Tag -> bool): (r: seq<AffiliationScope>)
    ensures |r| == 3
    ensures forall k :: 0 <= k < 3 ==> r[k].matchMode == ExactTag && (r[k].enabled <==> r[k].scopeRoot.IsValid())
    ensures r[0].scopeRoot.IsValid() <==> registered(Tag("Affiliation.Party"))
  {
    [MakeScope(registered, Tag("Affiliation.Party")),
     MakeScope(registered, Tag("Affiliation.Guild")),
     MakeScope(registered, Tag("Affiliation.Faction"))]
  }

  function MakeScope(registered: Tag -> bool, root: Tag): AffiliationScope {
    var r := if registered(root) then root else InvalidTag;
    AffiliationScope(r, ExactTag, r.IsValid())
  }

  /** USpellRelationSubsystemV3: the optional rules asset and the affiliation scopes. */
  class RelationSubsystem {
    var rulesAsset: Option<RulesAsset>
    var scopes: seq<AffiliationScope>

    constructor()
      ensures rulesAsset.None? && scopes == []
    {
      rulesAsset := None;
      scopes := [];
    }

    /**
     * Initialize: the defaults are installed only when no scopes were
     * configured; `registered` stands for the gameplay-tag manager.
     */
    method Initialize(registered: Tag -> bool)
      modifies this
      ensures old(scopes) == [] ==> scopes == DefaultScopes(registered)
      ensures old(scopes) != [] ==> scopes == old(scopes)
      ensures rulesAsset == old(rulesAsset)
    {
      if |scopes| == 0 {
        scopes := scopes + [MakeScope(registered, Tag("Affiliation.Party"))];
        scopes := scopes + [MakeScope(registered, Tag("Affiliation.Guild"))];
        scopes := scopes + [MakeScope(registered, Tag("Affiliation.Faction"))];
      }
    }
  }
}
