// Target references and target sets (Public/Targeting/TargetingTypesV3.h),
// plus the request vocabulary of the targeting pipeline.
module TargetingTypes {
  import opened Common

  /** FTargetRefV3: a weak actor pointer; None when null or stale. */
  datatype TargetRef = TargetRef(actor: Option<ActorId>) {
    predicate IsValid() { actor.Some? }

    /** StableId: the actor's unique id, 0 for an invalid reference. */
    function StableId(): (id: nat)
      ensures !IsValid() ==> id == 0
      ensures IsValid() ==> id == actor.value
    {
      if actor.Some? then actor.value else 0
    }
  }

  const NullRef := TargetRef(None)

  predicate IsValidRef(r: TargetRef) { r.IsValid() }

  /** No live actor is referenced twice. */
  predicate UniqueActors(s: seq<TargetRef>) {
    forall i, j :: 0 <= i < j < |s| && s[i].IsValid() ==> s[i].actor != s[j].actor
  }

  predicate Contains(s: seq<TargetRef>, r: TargetRef) {
    exists k :: 0 <= k < |s| && s[k].actor == r.actor
  }

  /** FTargetSetV3: an ordered list of references. */
  datatype TargetSet = TargetSet(targets: seq<TargetRef>) {

    /** Reset: no references left. */
    function Reset(): (r: TargetSet)
      ensures |r.targets| == 0
    {
      TargetSet([])
    }

    /**
     * RemoveInvalid: exactly the valid references, in their original order,
     * every copy of each kept.
     */
    function RemoveInvalid(): (r: TargetSet)
      ensures forall k :: 0 <= k < |r.targets| ==> r.targets[k].IsValid() && r.targets[k] in targets
      ensures forall k :: 0 <= k < |targets| && targets[k].IsValid() ==> targets[k] in r.targets
      ensures IsSubsequence(r.targets, targets)
      ensures forall x :: multiset(r.targets)[x] == if x.IsValid() then multiset(targets)[x] else 0
    {
      FilterCounts(targets, IsValidRef);
      TargetSet(Filter(targets, IsValidRef))
    }

    /**
     * AddUnique: an invalid reference or an actor already present changes
     * nothing; a new live actor is appended at the end.
     */
    function AddUnique(ref: TargetRef): (r: TargetSet)
      ensures !ref.IsValid() || Contains(targets, ref) ==> r == this
      ensures ref.IsValid() && !Contains(targets, ref) ==> r.targets == targets + [ref]
      ensures ref.IsValid() ==> Contains(r.targets, ref)
      ensures UniqueActors(targets) ==> UniqueActors(r.targets)
    {
      if !ref.IsValid() then this
      else if FindActor(targets, ref) then this
      else
        var r := TargetSet(targets + [ref]);
        assert r.targets[|targets|] == ref;
        r
    }
  }

  /** The scan of AddUnique: some entry points to the same actor as `ref`. */
  function FindActor(s: seq<TargetRef>, ref: TargetRef): (b: bool)
    ensures b <==> Contains(s, ref)
  {
    if |s| == 0 then false
    else if s[0].actor == ref.actor then true
    else
      var b := FindActor(s[1..], ref);
      assert Contains(s[1..], ref) ==> Contains(s, ref) by {
        if Contains(s[1..], ref) {
          var k :| 0 <= k < |s[1..]| && s[1..][k].actor == ref.actor;
          assert s[k + 1].actor == ref.actor;
        }
      }
      b
  }

  /** AddUnique is idempotent. */
  lemma AddUniqueIdempotent(s: TargetSet, ref: TargetRef)
    ensures s.AddUnique(ref).AddUnique(ref) == s.AddUnique(ref)
  {
  }

  /** RemoveInvalid is idempotent: once filtered, every reference is valid. */
  lemma {:induction false} RemoveInvalidIdempotent(s: TargetSet)
    ensures s.RemoveInvalid().RemoveInvalid() == s.RemoveInvalid()
  {
    FilterAllKept(s.RemoveInvalid().targets);
  }

  lemma {:induction false} FilterAllKept(s: seq<TargetRef>)
    requires forall k :: 0 <= k < |s| ==> s[k].IsValid()
    ensures Filter(s, IsValidRef) == s
  {
    if |s| > 0 {
      FilterAllKept(s[1..]);
    }
  }

  /** AddUnique of each reference in turn (the writeback loops of the delivery drivers). */
  function AddAllUnique(set0: TargetSet, refs: seq<TargetRef>): (r: TargetSet)
    ensures UniqueActors(set0.targets) ==> UniqueActors(r.targets)
    ensures IsPrefixOf(set0.targets, r.targets)
    ensures forall k :: 0 <= k < |refs| && refs[k].IsValid() ==> Contains(r.targets, refs[k])
    decreases |refs|
  {
    if |refs| == 0 then set0
    else
      var mid := set0.AddUnique(refs[0]);
      var r := AddAllUnique(mid, refs[1..]);
      PrefixTransitive(set0.targets, mid.targets, r.targets);
      ContainsKept(mid.targets, r.targets, refs[0]);
      assert forall k :: 1 <= k < |refs| ==> refs[k] == refs[1..][k - 1];
      r
  }

  predicate IsPrefixOf(p: seq<TargetRef>, s: seq<TargetRef>) {
    |p| <= |s| && s[..|p|] == p
  }

  lemma PrefixTransitive(a: seq<TargetRef>, b: seq<TargetRef>, c: seq<TargetRef>)
    requires IsPrefixOf(a, b) && IsPrefixOf(b, c)
    ensures IsPrefixOf(a, c)
  {
    assert c[..|a|] == c[..|b|][..|a|];
  }

  lemma ContainsKept(p: seq<TargetRef>, s: seq<TargetRef>, ref: TargetRef)
    requires IsPrefixOf(p, s)
    ensures Contains(p, ref) ==> Contains(s, ref)
  {
    if Contains(p, ref) {
      var k :| 0 <= k < |p| && p[k].actor == ref.actor;
      assert s[k] == p[k];
    }
  }

  predicate IsLive(a: Option<ActorId>) { a.Some? }

  /**
   * Keeps the live actors of `actors` as references, dropping nulls: one
   * reference per non-null entry, in order.
   */
  function RefsOf(actors: seq<Option<ActorId>>): (r: seq<TargetRef>)
    ensures forall k :: 0 <= k < |r| ==> r[k].IsValid() && r[k].actor in actors
    ensures forall k :: 0 <= k < |actors| && actors[k].Some? ==> TargetRef(actors[k]) in r
    ensures |r| <= |actors|
  {
    if |actors| == 0 then []
    else
      var n := |actors| - 1;
      var rest := RefsOf(actors[..n]);
      assert forall k :: 0 <= k < n ==> actors[k] == actors[..n][k];
      if actors[n].Some? then rest + [TargetRef(actors[n])] else rest
  }

  /** RefsOf holds exactly one reference per non-null entry, in the entries' order. */
  lemma {:induction false} RefsOfInOrder(actors: seq<Option<ActorId>>)
    ensures |RefsOf(actors)| == |Filter(actors, IsLive)|
    ensures forall k :: 0 <= k < |RefsOf(actors)| ==> RefsOf(actors)[k] == TargetRef(Filter(actors, IsLive)[k])
  {
    if |actors| > 0 {
      var n := |actors| - 1;
      RefsOfInOrder(actors[..n]);
      assert actors == actors[..n] + [actors[n]];
      FilterSnoc(actors[..n], actors[n], IsLive);
    }
  }

  /** ETargetRelationV3. */
  datatype TargetRelation = Any | Self | Ally | Enemy | Neutral

  /** ETargetOriginKindV3. */
  datatype OriginKind = Caster | CasterView | ActorOrigin | WorldLocation | TargetSetCenter

  /** FTargetOriginV3. */
  datatype TargetOrigin = TargetOrigin(kind: OriginKind, actor: Option<ActorId>, worldLocation: Vec, targetSetKey: Name)

  /** ETargetFilterOpV3. */
  datatype FilterOp = Keep | Drop

  /** ETargetFilterKindV3. */
  datatype FilterKind =
    | RelationFilter | HasTagFilter | HasAnyTags | HasAllTags | HasNoneTags | HasStatusFilter
    | LineOfSight | DistanceRange | HasComponent | HasAttributeComponent | HasStatusComponent

  /** FTargetFilterV3 (the component class of HasComponent is not modelled). */
  datatype TargetFilter = TargetFilter(
    kind: FilterKind,
    op: FilterOp,
    relation: TargetRelation,
    tag: Tag,
    tags: seq<Tag>,
    minDistance: real,
    maxDistance: real)

  /** ETargetSelectKindV3. */
  datatype SelectKind = All | Nearest | Farthest | Random

  /** FTargetSelectV3; a count of 0 or less means all. */
  datatype TargetSelect = TargetSelect(kind: SelectKind, count: int, unique: bool)
}
