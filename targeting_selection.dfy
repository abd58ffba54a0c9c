// FTargetingSelectionV3 (Private/Targeting/TargetingSelectionV3.cpp): the
// count-capped selection of targets among the filtered candidates.
module TargetingSelection {
  import opened Common
  import opened TargetingTypes
  import opened TargetingSpatial

  /**
   * What MakeUniqueActors keeps: valid references whose actor is not yet
   * in `seen`, each actor at its first occurrence.
   */
  function UniqueFirst(s: seq<TargetRef>, seen: set<ActorId>): seq<TargetRef>
  {
    if |s| == 0 then []
    else if !s[0].IsValid() || s[0].actor.value in seen then UniqueFirst(s[1..], seen)
    else [s[0]] + UniqueFirst(s[1..], seen + {s[0].actor.value})
  }

  /** The first-occurrence deduplication keeps every live actor once, in order. */
  lemma {:induction false} UniqueFirstSpec(s: seq<TargetRef>, seen: set<ActorId>)
    ensures var r := UniqueFirst(s, seen);
      IsSubsequence(r, s) && UniqueActors(r) &&
      (forall k :: 0 <= k < |r| ==> r[k].IsValid() && r[k].actor.value !in seen) &&
      (forall k :: 0 <= k < |s| && s[k].IsValid() && s[k].actor.value !in seen ==> s[k] in r)
  {
    if |s| > 0 {
      var rest := s[1..];
      if !s[0].IsValid() || s[0].actor.value in seen {
        UniqueFirstSpec(rest, seen);
        SubsequenceSkip(UniqueFirst(rest, seen), rest, s[0]);
        assert s == [s[0]] + rest;
        forall k | 0 < k < |s| ensures s[k] == rest[k - 1] { }
      } else {
        var seen' := seen + {s[0].actor.value};
        UniqueFirstSpec(rest, seen');
        var tail := UniqueFirst(rest, seen');
        var r := [s[0]] + tail;
        assert r[1..] == tail && s[1..] == rest;
        forall i, j | 0 <= i < j < |r| && r[i].IsValid() ensures r[i].actor != r[j].actor {
          if i > 0 {
            assert r[i] == tail[i - 1] && r[j] == tail[j - 1];
          } else {
            assert r[j] == tail[j - 1];
          }
        }
        forall k | 0 <= k < |s| && s[k].IsValid() && s[k].actor.value !in seen ensures s[k] in r {
          if k > 0 && s[k] != s[0] {
            assert s[k] == rest[k - 1];
            assert s[k].actor.value !in seen' by {
              assert s[k].actor != s[0].actor;
            }
          }
        }
      }
    }
  }

  /** For references that are all valid, unique actors means no repeated reference. */
  lemma UniqueActorsNoDuplicates(s: seq<TargetRef>)
    requires forall k :: 0 <= k < |s| ==> s[k].IsValid()
    ensures UniqueActors(s) <==> NoDuplicates(s)
  {
  }

  /**
   * MakeUniqueActors: RemoveAll with a set of actors seen so far, which
   * drops invalid references and every repeat of an actor.
   */
  method MakeUniqueActors(s: seq<TargetRef>) returns (out: seq<TargetRef>)
    ensures out == UniqueFirst(s, {})
    ensures IsSubsequence(out, s) && UniqueActors(out)
    ensures forall k :: 0 <= k < |out| ==> out[k].IsValid() && out[k] in s
    ensures forall k :: 0 <= k < |s| && s[k].IsValid() ==> s[k] in out
  {
    var seen: set<ActorId> := {};
    out := [];
    var i := 0;
    while i < |s|
      invariant 0 <= i <= |s|
      invariant out + UniqueFirst(s[i..], seen) == UniqueFirst(s, {})
    {
      var r := s[i];
      assert s[i..][0] == r && s[i..][1..] == s[i + 1..];
      if r.IsValid() && r.actor.value !in seen {
        seen := seen + {r.actor.value};
        out := out + [r];
      }
      i := i + 1;
    }
    assert s[|s|..] == [];
    assert out == UniqueFirst(s, {});
    UniqueFirstSpec(s, {});
    SubsequenceMembers(out, s);
  }

  /** Fisher–Yates: `pick(i)` is the RandRange(0, i) drawn for position `i`. */
  method Shuffle(work: seq<TargetRef>, pick: nat -> nat) returns (r: seq<TargetRef>)
    requires forall i :: pick(i) <= i
    ensures |r| == |work| && multiset(r) == multiset(work)
  {
    r := work;
    var i := |r| - 1;
    while i > 0
      invariant -1 <= i < |r| && |r| == |work|
      invariant multiset(r) == multiset(work)
    {
      var j := pick(i);
      var t := r[i];
      SwapPermutes(r, i, j);
      r := r[i := r[j]][j := t];
      i := i - 1;
    }
  }

  lemma SwapPermutes(s: seq<TargetRef>, i: nat, j: nat)
    requires i < |s| && j < |s|
    ensures multiset(s[i := s[j]][j := s[i]]) == multiset(s)
  {
    var u := s[i := s[j]];
    assert multiset(u) == multiset(s) - multiset{s[i]} + multiset{s[j]};
    assert u[j] == s[j];
    assert multiset(u[j := s[i]]) == multiset(u) - multiset{s[j]} + multiset{s[i]};
  }

  /** The number of targets a counted selection returns. */
  function WantCount(count: int, n: nat): (w: nat)
    ensures w <= n
    ensures count <= 0 ==> w == n
    ensures count > 0 ==> w == IntMin(count, n)
  {
    if count <= 0 then n else IntMin(count, n)
  }

  /** The work list: the valid candidates, deduplicated when asked. */
  function WorkList(spec: TargetSelect, candidates: seq<TargetRef>): seq<TargetRef> {
    if spec.unique then UniqueFirst(candidates, {}) else Filter(candidates, IsValidRef)
  }

  /**
   * What Select returns for `candidates`: valid candidates only, unique
   * when asked, drawn from the work list. All returns the whole work list
   * whatever the count; Nearest and Farthest the first WantCount of the
   * ascending or descending distance order; Random exactly WantCount
   * entries of the work list (the first WantCount of a shuffle).
   */
  predicate IsSelection(distSq: ActorId -> real, spec: TargetSelect, candidates: seq<TargetRef>, out: seq<TargetRef>) {
    var work := WorkList(spec, candidates);
    var want := WantCount(spec.count, |work|);
    (forall k :: 0 <= k < |out| ==> out[k].IsValid() && out[k] in candidates) &&
    (spec.unique ==> UniqueActors(out)) &&
    multiset(out) <= multiset(work) &&
    (spec.kind == All ==> out == work) &&
    (spec.kind == Nearest ==> out == SortByDistanceTo(distSq, true, work)[..want]) &&
    (spec.kind == Farthest ==> out == SortByDistanceTo(distSq, false, work)[..want]) &&
    (spec.kind != All ==> |out| == want)
  }

  /** Select: arranges the work list by the selection kind and keeps the first WantCount. */
  method Select(distSq: ActorId -> real, pick: nat -> nat, spec: TargetSelect, candidates: seq<TargetRef>)
    returns (out: seq<TargetRef>)
    requires forall i :: pick(i) <= i
    ensures IsSelection(distSq, spec, candidates, out)
  {
    var work := Filter(candidates, IsValidRef);
    if spec.unique {
      work := MakeUniqueActors(work);
      UniqueFirstValid(candidates);
    }
    assert work == WorkList(spec, candidates);
    assert forall k :: 0 <= k < |work| ==> work[k].IsValid() && work[k] in candidates;
    var want := WantCount(spec.count, |work|);
    var arranged: seq<TargetRef>;
    match spec.kind {
      case All =>
        out := work;
        return;
      case Nearest =>
        arranged := SortByDistanceTo(distSq, true, work);
      case Farthest =>
        arranged := SortByDistanceTo(distSq, false, work);
      case Random =>
        arranged := Shuffle(work, pick);
    }
    out := arranged[..want];
    PrefixOfArrangement(work, arranged, want, candidates, spec.unique);
  }

  /** A prefix of a rearranged work list keeps the work list's guarantees. */
  lemma PrefixOfArrangement(work: seq<TargetRef>, arranged: seq<TargetRef>, want: nat,
                            candidates: seq<TargetRef>, unique: bool)
    requires multiset(arranged) == multiset(work) && want <= |arranged|
    requires forall k :: 0 <= k < |work| ==> work[k].IsValid() && work[k] in candidates
    requires unique ==> UniqueActors(work)
    ensures var out := arranged[..want];
      (forall k :: 0 <= k < |out| ==> out[k].IsValid() && out[k] in candidates) &&
      (unique ==> UniqueActors(out)) &&
      multiset(out) <= multiset(work)
  {
    var out := arranged[..want];
    PrefixMultiset(arranged, want);
    forall k | 0 <= k < |out| ensures out[k].IsValid() && out[k] in candidates {
      assert out[k] in multiset(work);
    }
    if unique {
      UniqueActorsNoDuplicates(work);
      PermutationNoDuplicates(work, arranged);
      forall k | 0 <= k < |arranged| ensures arranged[k].IsValid() {
        assert arranged[k] in multiset(work);
      }
      UniqueActorsNoDuplicates(out);
    }
  }

  /** Deduplicating the valid candidates is deduplicating the candidates. */
  lemma {:induction false} UniqueFirstValid(s: seq<TargetRef>)
    ensures UniqueFirst(Filter(s, IsValidRef), {}) == UniqueFirst(s, {})
  {
    UniqueFirstValidFrom(s, {});
  }

  lemma {:induction false} UniqueFirstValidFrom(s: seq<TargetRef>, seen: set<ActorId>)
    ensures UniqueFirst(Filter(s, IsValidRef), seen) == UniqueFirst(s, seen)
  {
    if |s| > 0 {
      if s[0].IsValid() {
        var f := Filter(s, IsValidRef);
        assert f == [s[0]] + Filter(s[1..], IsValidRef);
        assert f[1..] == Filter(s[1..], IsValidRef);
        UniqueFirstValidFrom(s[1..], seen);
        UniqueFirstValidFrom(s[1..], seen + {s[0].actor.value});
      } else {
        UniqueFirstValidFrom(s[1..], seen);
      }
    }
  }
}
