// What the delivery drivers do with the answers of their collision queries:
// the deterministic hit orderings, the nearest-target scans, the ascending
// unique-id actor lists and the target-set writebacks
// (Private/Delivery/Drivers/*.cpp, Public/Delivery/Drivers/DeliveryDriver_BeamV3.cpp).
module DeliveryHits {
  import opened Common
  import opened TargetingTypes
  import opened DeliveryTypes

  /**
   * A hit of a collision query: its actor (None when the hit has none) and
   * the squared distance from the query origin to its impact point.
   */
  datatype Hit = Hit(actor: Option<ActorId>, distSq: real)

  /** GetUniqueID of the hit's actor, 0 without an actor. */
  function HitId(h: Hit): nat {
    if h.actor.Some? then h.actor.value else 0
  }

  /** The hit's target reference. */
  function RefOf(h: Hit): TargetRef {
    TargetRef(h.actor)
  }

  function RefsOfHits(hits: seq<Hit>): (r: seq<TargetRef>)
    ensures |r| == |hits| && forall k :: 0 <= k < |hits| ==> r[k] == RefOf(hits[k])
  {
    seq(|hits|, k requires 0 <= k < |hits| => RefOf(hits[k]))
  }

  /** The tie-break after the distance: the actor's FName (InstantQuery) or its unique id (Beam, Mover). */
  datatype TieBreak = ByName(nameOf: ActorId -> Name) | ById

  function HitName(nameOf: ActorId -> Name, h: Hit): Name {
    if h.actor.Some? then nameOf(h.actor.value) else NoName
  }

  predicate TieLess(tb: TieBreak, a: Hit, b: Hit) {
    match tb
    case ByName(nameOf) => NameLess(HitName(nameOf, a), HitName(nameOf, b))
    case ById => HitId(a) < HitId(b)
  }

  /** The comparator of the hit sorts: nearer first, then the tie-break. */
  predicate HitBefore(tb: TieBreak, a: Hit, b: Hit) {
    if a.distSq != b.distSq then a.distSq < b.distSq else TieLess(tb, a, b)
  }

  predicate HitsSorted(tb: TieBreak, s: seq<Hit>) {
    forall i, j :: 0 <= i < j < |s| ==> !HitBefore(tb, s[j], s[i])
  }

  lemma TieLessAsymmetric(tb: TieBreak, a: Hit, b: Hit)
    ensures TieLess(tb, a, b) ==> !TieLess(tb, b, a)
  {
    if tb.ByName? && TieLess(tb, a, b) && TieLess(tb, b, a) {
      NameLessTransitive(HitName(tb.nameOf, a), HitName(tb.nameOf, b), HitName(tb.nameOf, a));
      NameLessIrreflexive(HitName(tb.nameOf, a));
    }
  }

  lemma HitBeforeAsymmetric(tb: TieBreak, a: Hit, b: Hit)
    ensures HitBefore(tb, a, b) ==> !HitBefore(tb, b, a)
  {
    TieLessAsymmetric(tb, a, b);
  }

  lemma NotTieLessTransitive(tb: TieBreak, a: Hit, b: Hit, c: Hit)
    requires !TieLess(tb, b, a) && !TieLess(tb, c, b)
    ensures !TieLess(tb, c, a)
  {
    if tb.ByName? {
      var na, nb, nc := HitName(tb.nameOf, a), HitName(tb.nameOf, b), HitName(tb.nameOf, c);
      if NameLess(nc, na) {
        NameLessTotal(na, nb);
        NameLessTotal(nb, nc);
        NameLessIrreflexive(na);
        if na != nb && nb != nc {
          NameLessTransitive(na, nb, nc);
        }
        if na != nc {
          NameLessTransitive(na, nc, na);
        }
      }
    }
  }

  /** "Not before" is transitive: the comparator orders lexicographically by (distance, tie-break). */
  lemma NotBeforeTransitive(tb: TieBreak, a: Hit, b: Hit, c: Hit)
    requires !HitBefore(tb, b, a) && !HitBefore(tb, c, b)
    ensures !HitBefore(tb, c, a)
  {
    if a.distSq == b.distSq && b.distSq == c.distSq {
      NotTieLessTransitive(tb, a, b, c);
    }
  }

  function InsertHit(tb: TieBreak, x: Hit, s: seq<Hit>): (r: seq<Hit>)
    requires HitsSorted(tb, s)
    ensures HitsSorted(tb, r)
    ensures multiset(r) == multiset(s) + multiset{x}
  {
    if |s| == 0 then [x]
    else if HitBefore(tb, s[0], x) then
      var rest := InsertHit(tb, x, s[1..]);
      InsertBehindHead(tb, x, s, rest);
      [s[0]] + rest
    else
      InsertInFront(tb, x, s);
      [x] + s
  }

  lemma InsertBehindHead(tb: TieBreak, x: Hit, s: seq<Hit>, rest: seq<Hit>)
    requires |s| > 0 && HitsSorted(tb, s) && HitBefore(tb, s[0], x)
    requires HitsSorted(tb, rest) && multiset(rest) == multiset(s[1..]) + multiset{x}
    ensures HitsSorted(tb, [s[0]] + rest)
    ensures multiset([s[0]] + rest) == multiset(s) + multiset{x}
  {
    assert s == [s[0]] + s[1..];
    HitBeforeAsymmetric(tb, s[0], x);
    forall y | y in rest ensures !HitBefore(tb, y, s[0]) {
      assert y in multiset(rest);
      if y != x {
        var k :| 0 <= k < |s[1..]| && s[1..][k] == y;
        assert s[k + 1] == y;
      }
    }
    var r := [s[0]] + rest;
    forall i, j | 0 <= i < j < |r| ensures !HitBefore(tb, r[j], r[i]) {
      if i == 0 {
        assert r[j] == rest[j - 1] && r[j] in rest;
      } else {
        assert r[i] == rest[i - 1] && r[j] == rest[j - 1];
      }
    }
  }

  lemma InsertInFront(tb: TieBreak, x: Hit, s: seq<Hit>)
    requires |s| > 0 && HitsSorted(tb, s) && !HitBefore(tb, s[0], x)
    ensures HitsSorted(tb, [x] + s)
  {
    var r := [x] + s;
    forall i, j | 0 <= i < j < |r| ensures !HitBefore(tb, r[j], r[i]) {
      if i == 0 {
        if j > 1 {
          NotBeforeTransitive(tb, x, s[0], s[j - 1]);
        }
      } else {
        assert r[i] == s[i - 1] && r[j] == s[j - 1];
      }
    }
  }

  /**
   * The deterministic hit sort (SortHitsDeterministic, SortHitResultsDeterministic).
   * UE's Sort is unstable; the model fixes one sorted permutation.
   */
  function SortHits(tb: TieBreak, s: seq<Hit>): (r: seq<Hit>)
    ensures HitsSorted(tb, r)
    ensures multiset(r) == multiset(s)
    ensures |r| == |s|
  {
    if |s| == 0 then []
    else
      assert s == [s[0]] + s[1..];
      InsertHit(tb, s[0], SortHits(tb, s[1..]))
  }

  /** Hits no two distinct members of which tie under the comparator. */
  predicate Comparable(tb: TieBreak, a: seq<Hit>) {
    forall x, y :: x in a && y in a && x != y ==> HitBefore(tb, x, y) || HitBefore(tb, y, x)
  }

  /** Two sorted permutations of the same hits agree when no two distinct hits tie. */
  lemma {:induction false} SortedPermutationsAgree(tb: TieBreak, a: seq<Hit>, b: seq<Hit>)
    requires HitsSorted(tb, a) && HitsSorted(tb, b) && multiset(a) == multiset(b)
    requires Comparable(tb, a)
    ensures a == b
    decreases |a|
  {
    if |a| > 0 {
      assert |b| > 0 by {
        assert a[0] in multiset(b);
      }
      SortedHeadsAgree(tb, a, b);
      SameTails(a, b);
      forall x, y | x in a[1..] && y in a[1..] && x != y ensures HitBefore(tb, x, y) || HitBefore(tb, y, x) {
        assert x in a && y in a;
      }
      SortedPermutationsAgree(tb, a[1..], b[1..]);
      assert a == [a[0]] + a[1..] && b == [b[0]] + b[1..];
    }
  }

  lemma SortedHeadsAgree(tb: TieBreak, a: seq<Hit>, b: seq<Hit>)
    requires |a| > 0 && |b| > 0
    requires HitsSorted(tb, a) && HitsSorted(tb, b) && multiset(a) == multiset(b)
    requires Comparable(tb, a)
    ensures a[0] == b[0]
  {
    assert a[0] in multiset(b) && b[0] in multiset(a);
    var i :| 0 <= i < |b| && b[i] == a[0];
    var j :| 0 <= j < |a| && a[j] == b[0];
    HitBeforeAsymmetric(tb, a[0], a[0]);
    HitBeforeAsymmetric(tb, b[0], b[0]);
    if i > 0 {
      assert !HitBefore(tb, b[i], b[0]);
    }
    if j > 0 {
      assert !HitBefore(tb, a[j], a[0]);
    }
  }

  lemma SameTails(a: seq<Hit>, b: seq<Hit>)
    requires |a| > 0 && |b| > 0 && a[0] == b[0] && multiset(a) == multiset(b)
    ensures multiset(a[1..]) == multiset(b[1..])
  {
    assert a == [a[0]] + a[1..] && b == [b[0]] + b[1..];
    var h := multiset{a[0]};
    assert multiset(a) == h + multiset(a[1..]);
    assert multiset(b) == h + multiset(b[1..]);
    forall x ensures multiset(a[1..])[x] == multiset(b[1..])[x] {
      assert multiset(a)[x] == h[x] + multiset(a[1..])[x];
      assert multiset(b)[x] == h[x] + multiset(b[1..])[x];
    }
  }

  /** AddUnique of every hit's actor, in hit order (the target-set writebacks). */
  function UniqueHitActors(hits: seq<Hit>): (r: TargetSet)
    ensures UniqueActors(r.targets)
    ensures forall k :: 0 <= k < |hits| && hits[k].actor.Some? ==> Contains(r.targets, RefOf(hits[k]))
  {
    var r := AddAllUnique(TargetSet([]), RefsOfHits(hits));
    assert forall k :: 0 <= k < |hits| ==> RefsOfHits(hits)[k] == RefOf(hits[k]);
    r
  }

  /** AddAllUnique of one more reference is one more AddUnique (the writeback loops step by step). */
  lemma {:induction false} AddAllUniqueSnoc(set0: TargetSet, refs: seq<TargetRef>, x: TargetRef)
    ensures AddAllUnique(set0, refs + [x]) == AddAllUnique(set0, refs).AddUnique(x)
    decreases |refs|
  {
    if |refs| == 0 {
      assert refs + [x] == [x];
      assert ([x])[1..] == [];
    } else {
      assert (refs + [x])[0] == refs[0];
      assert (refs + [x])[1..] == refs[1..] + [x];
      AddAllUniqueSnoc(set0.AddUnique(refs[0]), refs[1..], x);
    }
  }

  /** The references of a prefix of the hits are a prefix of the references. */
  lemma RefsOfHitsPrefix(hits: seq<Hit>, i: nat)
    requires i < |hits|
    ensures RefsOfHits(hits)[..i + 1] == RefsOfHits(hits)[..i] + [RefOf(hits[i])]
  {
  }

  /** Every reference AddAllUnique adds is a valid one of `refs`. */
  lemma {:induction false} AddAllUniqueOnlyFrom(set0: TargetSet, refs: seq<TargetRef>, x: TargetRef)
    requires x in AddAllUnique(set0, refs).targets
    ensures x in set0.targets || (x.IsValid() && x in refs)
    decreases |refs|
  {
    if |refs| > 0 {
      var mid := set0.AddUnique(refs[0]);
      AddAllUniqueOnlyFrom(mid, refs[1..], x);
      if x in refs[1..] {
        assert x in refs;
      }
    }
  }

  /** AddAllUnique of already distinct valid references appends them as they are. */
  lemma {:induction false} AddAllDistinct(set0: TargetSet, refs: seq<TargetRef>)
    requires forall k :: 0 <= k < |refs| ==> refs[k].IsValid()
    requires UniqueActors(set0.targets + refs)
    ensures AddAllUnique(set0, refs).targets == set0.targets + refs
    decreases |refs|
  {
    if |refs| > 0 {
      var all := set0.targets + refs;
      forall k | 0 <= k < |set0.targets| ensures set0.targets[k].actor != refs[0].actor {
        assert all[k] == set0.targets[k] && all[|set0.targets|] == refs[0];
      }
      var mid := set0.AddUnique(refs[0]);
      assert mid.targets + refs[1..] == all;
      AddAllDistinct(mid, refs[1..]);
    }
  }

  /** The writeback only holds live actors of the hits, each at most once. */
  lemma UniqueHitActorsOnlyHits(hits: seq<Hit>, x: TargetRef)
    requires x in UniqueHitActors(hits).targets
    ensures x.IsValid() && exists k :: 0 <= k < |hits| && hits[k].actor == x.actor
  {
    AddAllUniqueOnlyFrom(TargetSet([]), RefsOfHits(hits), x);
    var k :| 0 <= k < |hits| && RefsOfHits(hits)[k] == x;
    assert hits[k].actor == x.actor;
  }

  /** GetUniqueID scan of the live references: the smallest StableId. */
  predicate IsLowestId(targets: seq<TargetRef>, a: ActorId) {
    (exists k :: 0 <= k < |targets| && targets[k].actor == Some(a)) &&
    forall k :: 0 <= k < |targets| && targets[k].IsValid() ==> a <= targets[k].actor.value
  }

  /** `a` is at least as good as `b`: nearer, or as near with a smaller or equal StableId. */
  predicate NotWorse(distSq: ActorId -> real, a: ActorId, b: ActorId) {
    distSq(a) < distSq(b) || (distSq(a) == distSq(b) && a <= b)
  }

  /** The live reference nearest to the origin, ties to the smaller StableId. */
  predicate IsNearest(targets: seq<TargetRef>, distSq: ActorId -> real, a: ActorId) {
    (exists k :: 0 <= k < |targets| && targets[k].actor == Some(a)) &&
    forall k :: 0 <= k < |targets| && targets[k].IsValid() ==> NotWorse(distSq, a, targets[k].actor.value)
  }

  predicate NoLiveRef(targets: seq<TargetRef>) {
    forall k :: 0 <= k < |targets| ==> !targets[k].IsValid()
  }

  /** At most one actor is the nearest: the deterministic scans cannot disagree. */
  lemma NearestUnique(targets: seq<TargetRef>, distSq: ActorId -> real, a: ActorId, b: ActorId)
    requires IsNearest(targets, distSq, a) && IsNearest(targets, distSq, b)
    ensures a == b
  {
    var i :| 0 <= i < |targets| && targets[i].actor == Some(a);
    var j :| 0 <= j < |targets| && targets[j].actor == Some(b);
    assert NotWorse(distSq, a, b) && NotWorse(distSq, b, a);
  }

  /**
   * The nearest-target scan of ChooseHomingTargetDeterministic (Mover) and
   * of the lock-on in ResolveBeamOriginAndDir (Beam): a live reference
   * replaces the best so far when there is none yet, when it is nearer, or
   * when it is as near with a smaller StableId.
   */
  method ChooseNearest(targets: seq<TargetRef>, distSq: ActorId -> real) returns (best: Option<ActorId>)
    ensures best.None? <==> NoLiveRef(targets)
    ensures best.Some? ==> IsNearest(targets, distSq, best.value)
    ensures best == NearestLive(targets, distSq)
  {
    best := None;
    var i := 0;
    while i < |targets|
      invariant 0 <= i <= |targets|
      invariant best.None? <==> NoLiveRef(targets[..i])
      invariant best.Some? ==> IsNearest(targets[..i], distSq, best.value)
    {
      var r := targets[i];
      if r.actor.Some? {
        var a := r.actor.value;
        if best.None? || distSq(a) < distSq(best.value) ||
           (distSq(a) == distSq(best.value) && a < best.value) {
          best := Some(a);
        }
      }
      assert targets[..i + 1][i] == targets[i];
      assert forall k :: 0 <= k < i ==> targets[..i + 1][k] == targets[..i][k];
      i := i + 1;
    }
    assert targets[..i] == targets;
    if best.Some? {
      NearestUnique(targets, distSq, best.value, NearestLive(targets, distSq).value);
    }
  }

  /** The smallest-StableId scan of PickLockTargetDeterministic. */
  method ChooseLowestId(targets: seq<TargetRef>) returns (best: Option<ActorId>)
    ensures best.None? <==> NoLiveRef(targets)
    ensures best.Some? ==> IsLowestId(targets, best.value)
    ensures best == LowestLiveId(targets)
  {
    best := None;
    var i := 0;
    while i < |targets|
      invariant 0 <= i <= |targets|
      invariant best.None? <==> NoLiveRef(targets[..i])
      invariant best.Some? ==> IsLowestId(targets[..i], best.value)
    {
      var r := targets[i];
      if r.IsValid() && (best.None? || r.StableId() < best.value) {
        best := Some(r.actor.value);
      }
      assert targets[..i + 1][i] == targets[i];
      assert forall k :: 0 <= k < i ==> targets[..i + 1][k] == targets[..i][k];
      i := i + 1;
    }
    assert targets[..i] == targets;
    if best.Some? {
      LowestIdUnique(targets, best.value, LowestLiveId(targets).value);
    }
  }

  /** The live actors a list of references points to. */
  function LiveActors(targets: seq<TargetRef>): (r: set<ActorId>)
    ensures forall a :: a in r <==> exists k :: 0 <= k < |targets| && targets[k].actor == Some(a)
  {
    set k | 0 <= k < |targets| && targets[k].actor.Some? :: targets[k].actor.value
  }

  /** The live actor with the smallest StableId, None when there is none. */
  function LowestLiveId(targets: seq<TargetRef>): (r: Option<ActorId>)
    ensures r.None? <==> NoLiveRef(targets)
    ensures r.Some? ==> IsLowestId(targets, r.value)
  {
    var live := LiveActors(targets);
    if live == {} then
      None
    else
      var m := Least(live);
      assert forall k :: 0 <= k < |targets| && targets[k].IsValid() ==> targets[k].actor.value in live;
      Some(m)
  }

  /** At most one actor has the smallest StableId. */
  lemma LowestIdUnique(targets: seq<TargetRef>, a: ActorId, b: ActorId)
    requires IsLowestId(targets, a) && IsLowestId(targets, b)
    ensures a == b
  {
    var i :| 0 <= i < |targets| && targets[i].actor == Some(a);
    var j :| 0 <= j < |targets| && targets[j].actor == Some(b);
  }

  /** The live actor nearest to the origin, ties to the smaller StableId; None when there is none. */
  function NearestLive(targets: seq<TargetRef>, distSq: ActorId -> real): (r: Option<ActorId>)
    ensures r.None? <==> NoLiveRef(targets)
    ensures r.Some? ==> IsNearest(targets, distSq, r.value)
  {
    if |targets| == 0 then None
    else
      var n := |targets| - 1;
      var rest := NearestLive(targets[..n], distSq);
      assert forall k :: 0 <= k < n ==> targets[..n][k] == targets[k];
      var last := targets[n];
      if last.actor.None? then rest
      else if rest.None? || NotWorse(distSq, last.actor.value, rest.value) then
        Some(last.actor.value)
      else rest
  }

  /** A non-empty set of ids has a least element. */
  lemma {:induction false} LeastExists(s: set<ActorId>)
    requires s != {}
    ensures exists m :: m in s && forall y :: y in s ==> m <= y
    decreases |s|
  {
    var x :| x in s;
    var rest := s - {x};
    if rest == {} {
      forall y | y in s ensures x <= y {
        assert y !in rest;
      }
    } else {
      LeastExists(rest);
      var m :| m in rest && forall y :: y in rest ==> m <= y;
      LeastOfOneMore(s, x, m);
    }
  }

  /** The least of a set is the smaller of one element and the least of the others. */
  lemma LeastOfOneMore(s: set<ActorId>, x: ActorId, m: ActorId)
    requires x in s && m in s - {x} && forall y :: y in s - {x} ==> m <= y
    ensures exists w :: w in s && forall y :: y in s ==> w <= y
  {
    var w := if x < m then x else m;
    forall y | y in s ensures w <= y {
      if y != x {
        assert y in s - {x};
      }
    }
    assert w in s;
  }

  function Least(s: set<ActorId>): (m: ActorId)
    requires s != {}
    ensures m in s && forall y :: y in s ==> m <= y
  {
    LeastExists(s);
    var m :| m in s && forall y :: y in s ==> m <= y;
    m
  }

  /** The actors of a set in ascending unique-id order (BuildSortedActorsDeterministic, SortActorsDeterministic). */
  function SortedActors(s: set<ActorId>): (r: seq<ActorId>)
    ensures forall x :: x in r <==> x in s
    ensures forall i, j :: 0 <= i < j < |r| ==> r[i] < r[j]
    ensures |r| == |s|
    decreases |s|
  {
    if s == {} then []
    else
      var m := Least(s);
      var rest := SortedActors(s - {m});
      assert |s - {m}| == |s| - 1;
      assert forall x :: x in rest ==> m < x;
      AscendingCons(m, rest);
      [m] + rest
  }

  /** An ascending list stays ascending behind an element below all of it. */
  lemma AscendingCons(m: ActorId, rest: seq<ActorId>)
    requires Ascending(rest) && forall x :: x in rest ==> m < x
    ensures Ascending([m] + rest)
    ensures forall x :: x in [m] + rest <==> x == m || x in rest
  {
    var r := [m] + rest;
    forall i, j | 0 <= i < j < |r| ensures r[i] < r[j] {
      assert r[j] == rest[j - 1];
      if i > 0 {
        assert r[i] == rest[i - 1];
      } else {
        assert rest[j - 1] in rest;
      }
    }
  }

  /** Strictly ascending unique ids. */
  predicate Ascending(s: seq<ActorId>) {
    forall i, j :: 0 <= i < j < |s| ==> s[i] < s[j]
  }

  /** Two strictly ascending lists with the same members are the same list. */
  lemma {:induction false} AscendingSameElements(a: seq<ActorId>, b: seq<ActorId>)
    requires Ascending(a) && Ascending(b)
    requires forall x :: x in a <==> x in b
    ensures a == b
  {
    if |a| > 0 {
      assert a[0] in b;
    }
    if |b| > 0 {
      assert b[0] in a;
    }
    if |a| > 0 && |b| > 0 {
      assert a[0] == b[0];
      forall x | x in a[1..] ensures x in b[1..] {
        var j :| 0 <= j < |a| - 1 && a[1..][j] == x;
        assert a[0] < a[j + 1] && a[j + 1] == x;
        assert x in a;
        assert x in b;
        var l :| 0 <= l < |b| && b[l] == x;
        assert l != 0;
        assert b[1..][l - 1] == x;
      }
      forall x | x in b[1..] ensures x in a[1..] {
        var j :| 0 <= j < |b| - 1 && b[1..][j] == x;
        assert b[0] < b[j + 1] && b[j + 1] == x;
        assert x in b;
        assert x in a;
        var l :| 0 <= l < |a| && a[l] == x;
        assert l != 0;
        assert a[1..][l - 1] == x;
      }
      AscendingSameElements(a[1..], b[1..]);
      assert a == [a[0]] + a[1..] && b == [b[0]] + b[1..];
    }
  }

  /** SortedActors is the only strictly ascending listing of a set. */
  lemma SortedActorsUnique(s: set<ActorId>, r: seq<ActorId>)
    requires Ascending(r) && forall x :: x in r <==> x in s
    ensures r == SortedActors(s)
  {
    AscendingSameElements(r, SortedActors(s));
  }

  /** References to the given actors. */
  function RefsTo(actors: seq<ActorId>): (r: seq<TargetRef>)
    ensures |r| == |actors| && forall k :: 0 <= k < |actors| ==> r[k] == TargetRef(Some(actors[k]))
  {
    seq(|actors|, k requires 0 <= k < |actors| => TargetRef(Some(actors[k])))
  }

  /** The references to an ascending list of actors are live, unique and in the same ascending order. */
  lemma RefsToAscending(s: seq<ActorId>)
    requires Ascending(s)
    ensures var t := RefsTo(s);
            UniqueActors(t) &&
            (forall k :: 0 <= k < |t| ==> t[k].IsValid() && t[k].actor.value == s[k]) &&
            (forall i, j :: 0 <= i < j < |t| ==> t[i].actor.value < t[j].actor.value)
  {
    var t := RefsTo(s);
    forall i, j | 0 <= i < j < |t| ensures t[i].actor.value < t[j].actor.value {
      assert t[i].actor.value == s[i] && t[j].actor.value == s[j];
    }
  }

  /** AddUnique of each actor of an ascending list keeps the list as it is. */
  lemma WritebackOfSorted(s: set<ActorId>)
    ensures AddAllUnique(TargetSet([]), RefsTo(SortedActors(s))).targets == RefsTo(SortedActors(s))
  {
    var a := SortedActors(s);
    assert NoDuplicates(a) by {
      forall i, j | 0 <= i < j < |a| ensures a[i] != a[j] {
        assert a[i] < a[j];
      }
    }
    DistinctActorsWrittenAsListed(a);
  }

  /** The live actors of the hits, as a set (the TSet the Beam and Field drivers fill). */
  function ActorSet(hits: seq<Hit>): (r: set<ActorId>)
    ensures forall a :: a in r <==> exists k :: 0 <= k < |hits| && hits[k].actor == Some(a)
  {
    set k | 0 <= k < |hits| && hits[k].actor.Some? :: hits[k].actor.value
  }

  /** The live actors of one more hit (the set-building loops step by step). */
  lemma ActorSetSnoc(hits: seq<Hit>, i: nat)
    requires i < |hits|
    ensures ActorSet(hits[..i + 1]) == ActorSet(hits[..i]) + (if hits[i].actor.Some? then {hits[i].actor.value} else {})
  {
    var a := hits[..i + 1];
    assert a[..i] == hits[..i] && a[i] == hits[i];
    forall x ensures x in ActorSet(a) <==> x in ActorSet(hits[..i]) || (hits[i].actor == Some(x)) {
      if x in ActorSet(a) {
        var k :| 0 <= k < |a| && a[k].actor == Some(x);
        if k < i {
          assert hits[..i][k] == a[k];
        }
      }
      if x in ActorSet(hits[..i]) {
        var k :| 0 <= k < i && hits[..i][k].actor == Some(x);
        assert a[k] == hits[..i][k];
      }
    }
  }

  /** The NewInside loop: every live actor of the hits, added one by one. */
  method CollectActors(hits: seq<Hit>) returns (actors: set<ActorId>)
    ensures actors == ActorSet(hits)
  {
    actors := {};
    var i := 0;
    while i < |hits|
      invariant 0 <= i <= |hits|
      invariant actors == ActorSet(hits[..i])
    {
      ActorSetSnoc(hits, i);
      if hits[i].actor.Some? {
        actors := actors + {hits[i].actor.value};
      }
      i := i + 1;
    }
    assert hits[..i] == hits;
  }

  lemma RefsToPrefix(actors: seq<ActorId>, i: nat)
    requires i < |actors|
    ensures RefsTo(actors)[..i + 1] == RefsTo(actors)[..i] + [TargetRef(Some(actors[i]))]
  {
  }

  /**
   * The writeback loops over an actor list: AddUnique of a reference to
   * each actor, in list order, into an empty set.
   */
  method AddActorsUnique(actors: seq<ActorId>) returns (out: TargetSet)
    ensures out == AddAllUnique(TargetSet([]), RefsTo(actors))
    ensures UniqueActors(out.targets)
    ensures forall a :: a in actors ==> Contains(out.targets, TargetRef(Some(a)))
  {
    out := TargetSet([]);
    var i := 0;
    while i < |actors|
      invariant 0 <= i <= |actors|
      invariant out == AddAllUnique(TargetSet([]), RefsTo(actors)[..i])
    {
      RefsToPrefix(actors, i);
      AddAllUniqueSnoc(TargetSet([]), RefsTo(actors)[..i], TargetRef(Some(actors[i])));
      out := out.AddUnique(TargetRef(Some(actors[i])));
      i := i + 1;
    }
    assert RefsTo(actors)[..i] == RefsTo(actors);
    forall a | a in actors ensures Contains(out.targets, TargetRef(Some(a))) {
      var k :| 0 <= k < |actors| && actors[k] == a;
      assert RefsTo(actors)[k] == TargetRef(Some(a));
    }
  }

  /** Distinct actors are written back as they are, in order. */
  lemma DistinctActorsWrittenAsListed(actors: seq<ActorId>)
    requires NoDuplicates(actors)
    ensures AddAllUnique(TargetSet([]), RefsTo(actors)).targets == RefsTo(actors)
  {
    var r := RefsTo(actors);
    assert TargetSet([]).targets + r == r;
    forall i, j | 0 <= i < j < |r| && r[i].IsValid() ensures r[i].actor != r[j].actor {
      assert actors[i] != actors[j];
    }
    AddAllDistinct(TargetSet([]), r);
  }

  /**
   * Interval gating: with iv = max(0, TickInterval), an evaluation is due
   * unless iv > 0 and less than iv has accumulated.
   */
  function EvaluationDue(acc: real, tickInterval: real): bool {
    var iv := Max(0.0, tickInterval);
    !(iv > 0.0 && acc < iv)
  }

  /** An evaluation is due exactly when the interval is not positive or has fully elapsed. */
  lemma EvaluationDueMeaning(acc: real, tickInterval: real)
    ensures EvaluationDue(acc, tickInterval) <==> tickInterval <= 0.0 || acc >= tickInterval
  {
  }

  /** Stop condition of the stop policy: a positive limit (MaxDuration, MaxDistance) that has been reached. */
  predicate DurationReached(limit: real, soFar: real) {
    limit > 0.0 && soFar >= limit
  }

  /** What a driver finds of the engine: a world, and in it the delivery subsystem. */
  datatype DriverWorld = DriverWorld(hasWorld: bool, hasSubsystem: bool) {
    /** Events can be emitted: a world with its delivery subsystem. */
    predicate CanEmit() { hasWorld && hasSubsystem }
  }

  /** The store after a writeback, which only happens when the store exists. */
  function Written(sets: map<Name, TargetSet>, hasStore: bool, write: Option<(Name, TargetSet)>): map<Name, TargetSet> {
    if hasStore && write.Some? then sets[write.value.0 := write.value.1] else sets
  }

  /** ResolveOutTargetSetName: the primitive's out set, else the group default, else None. */
  function ResolveOutTargetSetName(primitiveOut: Name, group: Option<Name>): (r: Name)
    ensures primitiveOut != NoName ==> r == primitiveOut
    ensures primitiveOut == NoName && group.Some? && group.value != NoName ==> r == group.value
    ensures primitiveOut == NoName && (group.None? || group.value == NoName) ==> r == NoName
  {
    if primitiveOut != NoName then primitiveOut
    else if group.Some? && group.value != NoName then group.value
    else NoName
  }

  /**
   * The events a driver raises through the delivery subsystem
   * (EmitDeliveryEvent), each with the actors of its hits.
   */
  datatype DeliveryEvent =
    | Started
    | Ticked
    | Entered(actors: seq<ActorId>)
    | Exited(actors: seq<ActorId>)
    | Stayed(actors: seq<ActorId>)
    | HitBatch(actors: seq<ActorId>)
    | Stopped(reason: StopReason)
}
