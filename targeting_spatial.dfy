// FTargetingSpatialHelpersV3 (Private/Targeting/TargetingSpatialHelpersV3.cpp):
// origin resolution and the deterministic distance ordering of candidates.
module TargetingSpatial {
  import opened Common
  import opened TargetingTypes
  import opened TargetStore

  /** UE's BIG_NUMBER (3.4e38), the distance given to a null actor. */
  const BIG_NUMBER: real := 340000000000000000000000000000000000000.0

  /** The squared distance used by the comparator; BIG_NUMBER for a null actor. */
  function DistKey(distSq: ActorId -> real, r: TargetRef): real {
    if r.actor.Some? then distSq(r.actor.value) else BIG_NUMBER
  }

  /**
   * The comparator of SortByDistanceTo: `a` goes before `b`. Ascending
   * orders by distance, then by ascending unique id (0 for null);
   * descending reverses both keys.
   */
  predicate Before(distSq: ActorId -> real, ascending: bool, a: TargetRef, b: TargetRef) {
    var da := DistKey(distSq, a);
    var db := DistKey(distSq, b);
    if da == db then (if ascending then a.StableId() < b.StableId() else a.StableId() > b.StableId())
    else (if ascending then da < db else da > db)
  }

  lemma DescendingIsReversed(distSq: ActorId -> real, a: TargetRef, b: TargetRef)
    ensures Before(distSq, false, a, b) <==> Before(distSq, true, b, a)
  {
  }

  /** No element goes before an earlier one. */
  predicate SortedBy(distSq: ActorId -> real, ascending: bool, s: seq<TargetRef>) {
    forall i, j :: 0 <= i < j < |s| ==> !Before(distSq, ascending, s[j], s[i])
  }

  lemma BeforeAsymmetric(distSq: ActorId -> real, ascending: bool, a: TargetRef, b: TargetRef)
    ensures Before(distSq, ascending, a, b) ==> !Before(distSq, ascending, b, a)
  {
  }

  /** "Not before" is transitive: the comparator is a lexicographic order on (distance, id). */
  lemma NotBeforeTransitive(distSq: ActorId -> real, ascending: bool, a: TargetRef, b: TargetRef, c: TargetRef)
    requires !Before(distSq, ascending, b, a) && !Before(distSq, ascending, c, b)
    ensures !Before(distSq, ascending, c, a)
  {
  }

  function Insert(distSq: ActorId -> real, ascending: bool, x: TargetRef, s: seq<TargetRef>): (r: seq<TargetRef>)
    requires SortedBy(distSq, ascending, s)
    ensures SortedBy(distSq, ascending, r)
    ensures multiset(r) == multiset(s) + multiset{x}
  {
    if |s| == 0 then [x]
    else if Before(distSq, ascending, s[0], x) then
      var rest := Insert(distSq, ascending, x, s[1..]);
      InsertBehindHead(distSq, ascending, x, s, rest);
      [s[0]] + rest
    else
      InsertInFront(distSq, ascending, x, s);
      [x] + s
  }

  /** `x` goes after the head of `s`: the head stays first, ahead of the insertion into the tail. */
  lemma InsertBehindHead(distSq: ActorId -> real, ascending: bool, x: TargetRef, s: seq<TargetRef>, rest: seq<TargetRef>)
    requires |s| > 0 && SortedBy(distSq, ascending, s) && Before(distSq, ascending, s[0], x)
    requires SortedBy(distSq, ascending, rest) && multiset(rest) == multiset(s[1..]) + multiset{x}
    ensures SortedBy(distSq, ascending, [s[0]] + rest)
    ensures multiset([s[0]] + rest) == multiset(s) + multiset{x}
  {
    assert s == [s[0]] + s[1..];
    BeforeAsymmetric(distSq, ascending, s[0], x);
    forall y | y in rest ensures !Before(distSq, ascending, y, s[0]) {
      assert y in multiset(rest);
      if y != x {
        var k :| 0 <= k < |s[1..]| && s[1..][k] == y;
        assert s[k + 1] == y;
      }
    }
    var r := [s[0]] + rest;
    forall i, j | 0 <= i < j < |r| ensures !Before(distSq, ascending, r[j], r[i]) {
      if i == 0 {
        assert r[j] == rest[j - 1] && r[j] in rest;
      } else {
        assert r[i] == rest[i - 1] && r[j] == rest[j - 1];
      }
    }
  }

  /** `x` does not go after the head of `s`: it goes in front of everything. */
  lemma InsertInFront(distSq: ActorId -> real, ascending: bool, x: TargetRef, s: seq<TargetRef>)
    requires |s| > 0 && SortedBy(distSq, ascending, s) && !Before(distSq, ascending, s[0], x)
    ensures SortedBy(distSq, ascending, [x] + s)
  {
    var r := [x] + s;
    forall i, j | 0 <= i < j < |r| ensures !Before(distSq, ascending, r[j], r[i]) {
      if i == 0 {
        if j > 1 {
          NotBeforeTransitive(distSq, ascending, x, s[0], s[j - 1]);
        }
      } else {
        assert r[i] == s[i - 1] && r[j] == s[j - 1];
      }
    }
  }

  /**
   * SortByDistanceTo, as an insertion sort under the comparator: the result
   * is sorted and a permutation of the input. UE's Sort is an unstable
   * introsort; where the comparator ties, the source may order the tied
   * references differently from this model.
   */
  function SortByDistanceTo(distSq: ActorId -> real, ascending: bool, s: seq<TargetRef>): (r: seq<TargetRef>)
    ensures SortedBy(distSq, ascending, r)
    ensures multiset(r) == multiset(s)
    ensures |r| == |s|
  {
    if |s| == 0 then []
    else
      assert s == [s[0]] + s[1..];
      Insert(distSq, ascending, s[0], SortByDistanceTo(distSq, ascending, s[1..]))
  }

  /** With every live actor nearer than BIG_NUMBER, an ascending sort puts nulls last. */
  lemma NullsLast(distSq: ActorId -> real, s: seq<TargetRef>)
    requires forall k :: 0 <= k < |s| && s[k].IsValid() ==> distSq(s[k].actor.value) < BIG_NUMBER
    ensures var r := SortByDistanceTo(distSq, true, s);
      forall i, j :: 0 <= i < j < |r| && !r[i].IsValid() ==> !r[j].IsValid()
  {
    var r := SortByDistanceTo(distSq, true, s);
    assert forall x :: x in s && x.IsValid() ==> distSq(x.actor.value) < BIG_NUMBER;
    forall x | x in r ensures x in s {
      assert x in multiset(r);
    }
  }

  /**
   * ResolveOriginLocation. `location` gives actor positions and `center`
   * the centroid of a target list (the vector math is not modelled).
   */
  function ResolveOriginLocation(caster: Option<ActorId>, store: SpellTargetStore?, origin: TargetOrigin,
                                 location: ActorId -> Vec, center: seq<TargetRef> -> Vec): (v: Vec)
    reads store
    ensures origin.kind == WorldLocation ==> v == origin.worldLocation
    ensures origin.kind in {Caster, CasterView} ==>
      v == (if caster.Some? then location(caster.value) else ZeroVec)
    ensures origin.kind == ActorOrigin ==>
      v == (if origin.actor.Some? then location(origin.actor.value) else ZeroVec)
    ensures origin.kind == TargetSetCenter && (store == null || store.Find(origin.targetSetKey).None?) ==> v == ZeroVec
    ensures origin.kind == TargetSetCenter && store != null && store.Find(origin.targetSetKey).Some? ==>
      v == center(store.Find(origin.targetSetKey).value.targets)
  {
    match origin.kind
    case Caster => if caster.Some? then location(caster.value) else ZeroVec
    case CasterView => if caster.Some? then location(caster.value) else ZeroVec
    case ActorOrigin => if origin.actor.Some? then location(origin.actor.value) else ZeroVec
    case WorldLocation => origin.worldLocation
    case TargetSetCenter =>
      if store != null && store.Find(origin.targetSetKey).Some? then
        center(store.Find(origin.targetSetKey).value.targets)
      else ZeroVec
  }
}
