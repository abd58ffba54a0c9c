// USpellStatusComponentV3 (Private/Status/SpellStatusComponentV3.cpp): the
// replicated array of active statuses on one actor, with at most one entry
// per status tag.
module Status {
  import opened Common
  import opened EffectTypes

  /** EStatusStackPolicyV3: what applying an already-present status does. */
  datatype StackPolicy = RefreshDuration | AddStacks | Replace | IgnoreIfPresent

  /** FSpellStatusDefinitionV3. */
  datatype StatusDefinition = StatusDefinition(
    statusTag: Tag,
    defaultDuration: real,
    maxStacks: int,
    stackPolicy: StackPolicy,
    tickInterval: real)

  /** FActiveStatusV3; a time of 0 or less means the status never expires. */
  datatype ActiveStatus = ActiveStatus(
    statusTag: Tag,
    stacks: int,
    timeRemaining: real,
    appliedContext: EffectContext)

  /** `FActiveStatusV3{}`. */
  const DefaultActiveStatus := ActiveStatus(InvalidTag, 1, 0.0, DefaultContext)

  /** The stack clamp used by every policy: into [1, max(1, maxStacks)]. */
  function ClampStacks(n: int, maxStacks: int): (r: int)
    ensures 1 <= r <= IntMax(1, maxStacks)
    ensures 1 <= n <= maxStacks ==> r == n
    ensures n < 1 ==> r == 1
    ensures n > IntMax(1, maxStacks) ==> r == IntMax(1, maxStacks)
  {
    IntClamp(n, 1, IntMax(1, maxStacks))
  }

  /** At most one entry per status tag. */
  predicate UniqueTags(s: seq<ActiveStatus>) {
    forall i, j :: 0 <= i < j < |s| ==> s[i].statusTag != s[j].statusTag
  }

  function TagSet(s: seq<ActiveStatus>): set<Tag> {
    set x | x in s :: x.statusTag
  }

  /** The index of the first entry carrying exactly `t`, as the search loops find it. */
  function FindTag(s: seq<ActiveStatus>, t: Tag): (r: Option<nat>)
    ensures r.Some? ==> r.value < |s| && s[r.value].statusTag == t
    ensures r.Some? ==> forall j :: 0 <= j < r.value ==> s[j].statusTag != t
    ensures r.None? <==> forall j :: 0 <= j < |s| ==> s[j].statusTag != t
  {
    if |s| == 0 then None
    else if s[0].statusTag == t then Some(0)
    else match FindTag(s[1..], t)
      case None => None
      case Some(k) => Some(k + 1)
  }

  /**
   * The entry that takes the place of `existing` when `nv` is applied
   * again under `policy`; None when the policy ignores the new value.
   */
  function Merge(existing: ActiveStatus, nv: ActiveStatus, policy: StackPolicy, maxStacks: int): (r: Option<ActiveStatus>)
    requires existing.statusTag == nv.statusTag
    ensures r.None? <==> policy == IgnoreIfPresent
    ensures r.Some? ==> r.value.statusTag == nv.statusTag
    ensures r.Some? ==> r.value.appliedContext == nv.appliedContext
    // RefreshDuration: new time and context, stacks kept.
    ensures policy == RefreshDuration ==>
      r.value.stacks == existing.stacks && r.value.timeRemaining == nv.timeRemaining
    // Replace: the new value, its stacks clamped.
    ensures policy == Replace ==>
      r.value.timeRemaining == nv.timeRemaining &&
      1 <= r.value.stacks <= IntMax(1, maxStacks) &&
      (1 <= nv.stacks <= maxStacks ==> r.value.stacks == nv.stacks) &&
      (nv.stacks < 1 ==> r.value.stacks == 1) &&
      (nv.stacks > IntMax(1, maxStacks) ==> r.value.stacks == IntMax(1, maxStacks))
    // AddStacks: stacks summed and clamped, the longer of the two times.
    ensures policy == AddStacks ==>
      1 <= r.value.stacks <= IntMax(1, maxStacks) &&
      (1 <= existing.stacks + nv.stacks <= maxStacks ==> r.value.stacks == existing.stacks + nv.stacks) &&
      (existing.stacks + nv.stacks < 1 ==> r.value.stacks == 1) &&
      (existing.stacks + nv.stacks > IntMax(1, maxStacks) ==> r.value.stacks == IntMax(1, maxStacks)) &&
      r.value.timeRemaining >= existing.timeRemaining && r.value.timeRemaining >= nv.timeRemaining &&
      (r.value.timeRemaining == existing.timeRemaining || r.value.timeRemaining == nv.timeRemaining)
  {
    match policy
    case IgnoreIfPresent => None
    case Replace => Some(nv.(stacks := ClampStacks(nv.stacks, maxStacks)))
    case RefreshDuration => Some(existing.(timeRemaining := nv.timeRemaining, appliedContext := nv.appliedContext))
    case AddStacks =>
      Some(existing.(stacks := ClampStacks(existing.stacks + nv.stacks, maxStacks),
                     timeRemaining := Max(existing.timeRemaining, nv.timeRemaining),
                     appliedContext := nv.appliedContext))
  }

  /**
   * The array after applying `nv` under `policy`: unchanged for an invalid
   * tag; the new value appended with clamped stacks when its tag is
   * absent; the first entry carrying the tag merged in place otherwise.
   */
  function Upserted(s: seq<ActiveStatus>, nv: ActiveStatus, policy: StackPolicy, maxStacks: int): seq<ActiveStatus> {
    if !nv.statusTag.IsValid() then s
    else match FindTag(s, nv.statusTag)
      case None => s + [nv.(stacks := ClampStacks(nv.stacks, maxStacks))]
      case Some(i) =>
        var m := Merge(s[i], nv, policy, maxStacks);
        if m.Some? then s[i := m.value] else s
  }

  /**
   * Applying a status keeps one entry per tag, adds exactly its (valid)
   * tag to the tags present, keeps the array's length unless the tag was
   * new (then one longer), and leaves every entry with another tag in
   * place.
   */
  lemma UpsertedShape(s: seq<ActiveStatus>, nv: ActiveStatus, policy: StackPolicy, maxStacks: int)
    requires UniqueTags(s)
    ensures var r := Upserted(s, nv, policy, maxStacks);
            UniqueTags(r) &&
            TagSet(r) == (if nv.statusTag.IsValid() then TagSet(s) + {nv.statusTag} else TagSet(s)) &&
            |r| == (if nv.statusTag.IsValid() && FindTag(s, nv.statusTag).None? then |s| + 1 else |s|) &&
            forall k :: 0 <= k < |s| && s[k].statusTag != nv.statusTag ==> r[k] == s[k]
  {
    var r := Upserted(s, nv, policy, maxStacks);
    if nv.statusTag.IsValid() {
      match FindTag(s, nv.statusTag)
      case None =>
        assert r[|s|].statusTag == nv.statusTag;
        assert TagSet(r) == TagSet(s) + {nv.statusTag} by {
          assert forall x :: x in r <==> x in s || x == r[|s|];
        }
      case Some(i) =>
        var m := Merge(s[i], nv, policy, maxStacks);
        if m.Some? {
          assert TagSet(r) == TagSet(s) by {
            forall t | t in TagSet(s) ensures t in TagSet(r) {
              var x :| x in s && x.statusTag == t;
              var k :| 0 <= k < |s| && s[k] == x;
              assert r[k].statusTag == t;
            }
            forall t | t in TagSet(r) ensures t in TagSet(s) {
              var x :| x in r && x.statusTag == t;
              var k :| 0 <= k < |r| && r[k] == x;
              assert s[k].statusTag == t;
            }
          }
        }
    }
  }

  /** A status whose timer is running runs out during a tick of `delta`. */
  predicate Expires(e: ActiveStatus, delta: real) {
    e.timeRemaining > 0.0 && e.timeRemaining - delta <= 0.0
  }

  /** One entry after a tick: permanent entries are untouched, the rest lose `delta`. */
  function Ticked(e: ActiveStatus, delta: real): ActiveStatus {
    if e.timeRemaining <= 0.0 then e else e.(timeRemaining := e.timeRemaining - delta)
  }

  /** The statuses a tick of `delta` expires, last entry first (the order of the reverse loop). */
  function ExpiredOf(s: seq<ActiveStatus>, delta: real): (r: seq<ActiveStatus>)
  {
    if |s| == 0 then []
    else
      var rest := ExpiredOf(s[1..], delta);
      rest + if Expires(s[0], delta) then [Ticked(s[0], delta)] else []
  }

  /** The statuses still active after a tick of `delta`, in their original order. */
  function SurvivorsOf(s: seq<ActiveStatus>, delta: real): (r: seq<ActiveStatus>)
  {
    if |s| == 0 then []
    else
      var rest := SurvivorsOf(s[1..], delta);
      (if Expires(s[0], delta) then [] else [Ticked(s[0], delta)]) + rest
  }

  /** Every entry, ticked once. */
  function TickAll(s: seq<ActiveStatus>, delta: real): (r: seq<ActiveStatus>)
    ensures |r| == |s|
    ensures forall k :: 0 <= k < |s| ==> r[k] == Ticked(s[k], delta)
  {
    if |s| == 0 then [] else [Ticked(s[0], delta)] + TickAll(s[1..], delta)
  }

  /**
   * A tick decrements each timed entry exactly once and sends each entry
   * to exactly one side: expired or surviving.
   */
  lemma {:induction false} TickPartitions(s: seq<ActiveStatus>, delta: real)
    ensures multiset(ExpiredOf(s, delta)) + multiset(SurvivorsOf(s, delta)) == multiset(TickAll(s, delta))
  {
    if |s| > 0 {
      TickPartitions(s[1..], delta);
      assert TickAll(s, delta) == [Ticked(s[0], delta)] + TickAll(s[1..], delta);
    }
  }

  /** Expired entries have run out; survivors have not. */
  lemma {:induction false} TickSides(s: seq<ActiveStatus>, delta: real)
    ensures forall x :: x in ExpiredOf(s, delta) ==> x.timeRemaining <= 0.0
    ensures delta > 0.0 ==> forall e :: e in s && e.timeRemaining <= 0.0 ==> e in SurvivorsOf(s, delta)
    ensures forall x :: x in SurvivorsOf(s, delta) ==> x.timeRemaining > 0.0 || x in s
  {
    if |s| > 0 {
      TickSides(s[1..], delta);
      forall e | e in s && e.timeRemaining <= 0.0 && delta > 0.0
        ensures e in SurvivorsOf(s, delta)
      {
        if e != s[0] {
          assert e in s[1..];
        }
      }
      forall x | x in SurvivorsOf(s, delta)
        ensures x.timeRemaining > 0.0 || x in s
      {
        if x !in SurvivorsOf(s[1..], delta) {
          assert x == Ticked(s[0], delta);
        } else if x.timeRemaining <= 0.0 {
          assert x in s[1..];
        }
      }
    }
  }

  /** A tick invents no tags. */
  lemma {:induction false} TickKeepsTags(s: seq<ActiveStatus>, delta: real)
    ensures TagSet(ExpiredOf(s, delta)) <= TagSet(s)
    ensures TagSet(SurvivorsOf(s, delta)) <= TagSet(s)
  {
    if |s| > 0 {
      TickKeepsTags(s[1..], delta);
      assert TagSet(s[1..]) <= TagSet(s) by {
        forall x | x in s[1..] ensures x in s { }
      }
    }
  }

  /** With unique tags, no tag that expires is also among the survivors. */
  lemma {:induction false} ExpiredTagsGone(s: seq<ActiveStatus>, delta: real)
    requires UniqueTags(s)
    ensures forall a, b :: a in ExpiredOf(s, delta) && b in SurvivorsOf(s, delta) ==> a.statusTag != b.statusTag
  {
    if |s| > 0 {
      var rest := s[1..];
      ExpiredTagsGone(rest, delta);
      TickKeepsTags(rest, delta);
      assert s[0].statusTag !in TagSet(rest) by {
        forall x | x in rest ensures x.statusTag != s[0].statusTag {
          var k :| 0 <= k < |rest| && rest[k] == x;
          assert s[k + 1] == x;
        }
      }
      forall a, b | a in ExpiredOf(s, delta) && b in SurvivorsOf(s, delta)
        ensures a.statusTag != b.statusTag
      {
        if a !in ExpiredOf(rest, delta) {
          assert a == Ticked(s[0], delta) && Expires(s[0], delta);
          assert b in SurvivorsOf(rest, delta);
          assert b.statusTag in TagSet(SurvivorsOf(rest, delta));
        } else if b !in SurvivorsOf(rest, delta) {
          assert b == Ticked(s[0], delta);
          assert a.statusTag in TagSet(ExpiredOf(rest, delta));
        }
      }
    }
  }

  /** What the tick loop's result means, once it holds the survivors in some order. */
  lemma TickOutcome(orig: seq<ActiveStatus>, cur: seq<ActiveStatus>, delta: real)
    requires UniqueTags(orig) && delta > 0.0
    requires multiset(cur) == multiset(SurvivorsOf(orig, delta))
    ensures forall e :: e in orig && e.timeRemaining <= 0.0 ==> e in cur
    ensures forall x :: x in ExpiredOf(orig, delta) ==>
      x.timeRemaining <= 0.0 && forall k :: 0 <= k < |cur| ==> cur[k].statusTag != x.statusTag
    ensures |cur| + |ExpiredOf(orig, delta)| == |orig|
  {
    var ex := ExpiredOf(orig, delta);
    var sv := SurvivorsOf(orig, delta);
    TickSides(orig, delta);
    ExpiredTagsGone(orig, delta);
    TickPartitions(orig, delta);
    assert |multiset(cur)| == |multiset(sv)|;
    assert |multiset(ex)| + |multiset(sv)| == |multiset(TickAll(orig, delta))|;
    forall e | e in orig && e.timeRemaining <= 0.0 ensures e in cur {
      assert e in multiset(sv);
    }
    forall x, k | x in ex && 0 <= k < |cur| ensures cur[k].statusTag != x.statusTag {
      assert cur[k] in multiset(cur);
    }
  }

  lemma TickSlice(o: seq<ActiveStatus>, i: nat, delta: real)
    requires i < |o|
    ensures ExpiredOf(o[i..], delta) == ExpiredOf(o[i + 1..], delta) + (if Expires(o[i], delta) then [Ticked(o[i], delta)] else [])
    ensures SurvivorsOf(o[i..], delta) == (if Expires(o[i], delta) then [] else [Ticked(o[i], delta)]) + SurvivorsOf(o[i + 1..], delta)
  {
    assert o[i..][0] == o[i];
    assert o[i..][1..] == o[i + 1..];
  }

  lemma UniqueAfterRemoveAtSwap(s: seq<ActiveStatus>, i: nat)
    requires i < |s| && UniqueTags(s)
    ensures UniqueTags(RemoveAtSwap(s, i))
    ensures forall k :: 0 <= k < |s| - 1 ==> RemoveAtSwap(s, i)[k].statusTag != s[i].statusTag
  {
    var r := RemoveAtSwap(s, i);
    forall a, b | 0 <= a < b < |r| ensures r[a].statusTag != r[b].statusTag {
      var fa := if a == i then |s| - 1 else a;
      var fb := if b == i then |s| - 1 else b;
      assert r[a] == s[fa] && r[b] == s[fb] && fa != fb;
    }
  }

  /** One step of the reverse tick loop, on the entry at index `i`. */
  function TickStepAt(cur: seq<ActiveStatus>, i: nat, delta: real): seq<ActiveStatus>
    requires i < |cur|
  {
    if cur[i].timeRemaining <= 0.0 then cur
    else if Expires(cur[i], delta) then RemoveAtSwap(cur, i)
    else cur[i := Ticked(cur[i], delta)]
  }

  /** The reverse tick loop keeps its invariant across one step. */
  lemma TickStepKeeps(orig: seq<ActiveStatus>, cur: seq<ActiveStatus>, i: nat, delta: real)
    requires i < |orig| && i < |cur|
    requires cur[..i + 1] == orig[..i + 1]
    requires multiset(cur[i + 1..]) == multiset(SurvivorsOf(orig[i + 1..], delta))
    requires UniqueTags(cur)
    ensures cur[i] == orig[i]
    ensures ExpiredOf(orig[i..], delta) ==
      ExpiredOf(orig[i + 1..], delta) + (if Expires(orig[i], delta) then [Ticked(orig[i], delta)] else [])
    ensures var next := TickStepAt(cur, i, delta);
      i <= |next| && next[..i] == orig[..i] && UniqueTags(next) &&
      multiset(next[i..]) == multiset(SurvivorsOf(orig[i..], delta))
  {
    TickSlice(orig, i, delta);
    var e := orig[i];
    assert cur[i] == e by {
      assert cur[..i + 1][i] == orig[..i + 1][i];
    }
    assert cur[..i] == orig[..i] by {
      assert cur[..i] == cur[..i + 1][..i];
      assert orig[..i] == orig[..i + 1][..i];
    }
    TickStepCase(orig, cur, i, delta);
  }

  /** The per-slot case split of one reverse tick step, once `cur` and `orig` agree up to `i`. */
  lemma TickStepCase(orig: seq<ActiveStatus>, cur: seq<ActiveStatus>, i: nat, delta: real)
    requires i < |orig| && i < |cur|
    requires cur[i] == orig[i] && cur[..i] == orig[..i]
    requires multiset(cur[i + 1..]) == multiset(SurvivorsOf(orig[i + 1..], delta))
    requires UniqueTags(cur)
    ensures var next := TickStepAt(cur, i, delta);
      i <= |next| && next[..i] == orig[..i] && UniqueTags(next) &&
      multiset(next[i..]) == multiset(SurvivorsOf(orig[i..], delta))
  {
    TickSlice(orig, i, delta);
    var e := orig[i];
    if e.timeRemaining <= 0.0 {
      assert cur[i..] == [e] + cur[i + 1..];
    } else if Expires(e, delta) {
      ExpireStep(cur, i);
    } else {
      DecrementStep(cur, i, Ticked(e, delta));
      PermanentOrTickedTail(cur, i, Ticked(e, delta), SurvivorsOf(orig[i + 1..], delta));
    }
  }

  lemma PermanentOrTickedTail(cur: seq<ActiveStatus>, i: nat, x: ActiveStatus, rest: seq<ActiveStatus>)
    requires i < |cur| && multiset(cur[i + 1..]) == multiset(rest)
    ensures multiset(cur[i := x][i..]) == multiset([x] + rest)
  {
    assert cur[i := x][i..] == [x] + cur[i + 1..];
  }

  lemma ExpireStep(cur: seq<ActiveStatus>, i: nat)
    requires i < |cur| && UniqueTags(cur)
    ensures var next := RemoveAtSwap(cur, i);
      next[..i] == cur[..i] && UniqueTags(next) && multiset(next[i..]) == multiset(cur[i + 1..])
  {
    UniqueAfterRemoveAtSwap(cur, i);
    RemoveAtSwapTail(cur, i);
  }

  lemma RemoveAtSwapTail<T>(s: seq<T>, i: nat)
    requires i < |s|
    ensures multiset(RemoveAtSwap(s, i)[i..]) == multiset(s[i + 1..])
  {
    if i < |s| - 1 {
      var r := RemoveAtSwap(s, i);
      assert r[i..] == [s[|s| - 1]] + s[i + 1..|s| - 1];
      assert s[i + 1..] == s[i + 1..|s| - 1] + [s[|s| - 1]];
    }
  }

  lemma DecrementStep(cur: seq<ActiveStatus>, i: nat, x: ActiveStatus)
    requires i < |cur| && UniqueTags(cur) && x.statusTag == cur[i].statusTag
    ensures var next := cur[i := x];
      next[..i] == cur[..i] && UniqueTags(next) && next[i..] == [x] + cur[i + 1..]
  {
    var next := cur[i := x];
    assert next[i..] == [x] + cur[i + 1..];
    forall a, b | 0 <= a < b < |next| ensures next[a].statusTag != next[b].statusTag {
      assert next[a].statusTag == cur[a].statusTag && next[b].statusTag == cur[b].statusTag;
    }
  }

  lemma MultisetSplit(s: seq<ActiveStatus>, i: nat)
    requires i <= |s|
    ensures multiset(s) == multiset(s[..i]) + multiset(s[i..])
  {
    assert s == s[..i] + s[i..];
  }

  /** USpellStatusComponentV3. */
  class StatusComponent {
    var active: seq<ActiveStatus>

    ghost predicate Valid()
      reads this
    {
      UniqueTags(active)
    }

    constructor()
      ensures active == [] && Valid()
    {
      active := [];
    }

    /** HasStatus: the valid tag `t` is carried by some entry. */
    function HasStatus(t: Tag): (b: bool)
      reads this
      ensures b <==> t.IsValid() && exists i :: 0 <= i < |active| && active[i].statusTag == t
    {
      t.IsValid() && FindTag(active, t).Some?
    }

    /** GetStacks: the stacks of the entry carrying the valid tag `t`, else 0. */
    function GetStacks(t: Tag): (n: int)
      reads this
      ensures !HasStatus(t) ==> n == 0
      ensures forall i :: 0 <= i < |active| && t.IsValid() && active[i].statusTag == t && UniqueTags(active) ==>
                n == active[i].stacks
    {
      if !t.IsValid() then 0
      else match FindTag(active, t)
        case None => 0
        case Some(i) => active[i].stacks
    }

    /**
     * UpsertStatus: an invalid tag changes nothing; an absent tag is
     * appended with clamped stacks; a present one is merged under `policy`.
     */
    method UpsertStatus(nv: ActiveStatus, policy: StackPolicy, maxStacks: int) returns (changed: bool)
      requires Valid()
      modifies this
      ensures Valid()
      ensures nv.statusTag.IsValid() ==> HasStatus(nv.statusTag)
      ensures active == Upserted(old(active), nv, policy, maxStacks)
      ensures !nv.statusTag.IsValid() ==> !changed && active == old(active)
      ensures nv.statusTag.IsValid() && FindTag(old(active), nv.statusTag).None? ==>
                changed && active == old(active) + [nv.(stacks := ClampStacks(nv.stacks, maxStacks))]
      ensures nv.statusTag.IsValid() && FindTag(old(active), nv.statusTag).Some? ==>
                var i := FindTag(old(active), nv.statusTag).value;
                var m := Merge(old(active)[i], nv, policy, maxStacks);
                changed == m.Some? && active == (if m.Some? then old(active)[i := m.value] else old(active))
    {
      if !nv.statusTag.IsValid() {
        return false;
      }
      var i := 0;
      while i < |active|
        invariant 0 <= i <= |active|
        invariant forall j :: 0 <= j < i ==> active[j].statusTag != nv.statusTag
      {
        if active[i].statusTag == nv.statusTag {
          var m := Merge(active[i], nv, policy, maxStacks);
          if m.None? {
            return false;
          }
          active := active[i := m.value];
          assert active[i].statusTag == nv.statusTag;
          return true;
        }
        i := i + 1;
      }
      active := active + [nv.(stacks := ClampStacks(nv.stacks, maxStacks))];
      assert active[|active| - 1].statusTag == nv.statusTag;
      return true;
    }

    /**
     * RemoveStatus: removes the entry carrying the valid tag `t`, by swap,
     * and reports it; afterwards no entry carries `t`.
     */
    method RemoveStatus(t: Tag) returns (removed: bool, entry: Option<ActiveStatus>)
      requires Valid()
      modifies this
      ensures Valid()
      ensures removed <==> old(HasStatus(t))
      ensures !HasStatus(t)
      ensures !removed ==> entry.None? && active == old(active)
      ensures removed ==>
                var i := FindTag(old(active), t).value;
                entry == Some(old(active)[i]) && active == RemoveAtSwap(old(active), i) &&
                |active| == |old(active)| - 1
    {
      if !t.IsValid() {
        return false, None;
      }
      var i := 0;
      while i < |active|
        invariant 0 <= i <= |active|
        invariant active == old(active)
        invariant forall j :: 0 <= j < i ==> active[j].statusTag != t
      {
        if active[i].statusTag == t {
          entry := Some(active[i]);
          UniqueAfterRemoveAtSwap(active, i);
          active := RemoveAtSwap(active, i);
          return true, entry;
        }
        i := i + 1;
      }
      return false, None;
    }

    /**
     * TickStatuses: a non-positive delta changes nothing; otherwise every
     * timed entry loses `delta`, and those that run out leave the array
     * and are returned last entry first. The survivors are a permutation
     * (RemoveAtSwap reorders) of the entries that did not run out.
     */
    method TickStatuses(delta: real) returns (expired: seq<ActiveStatus>)
      requires Valid()
      modifies this
      ensures Valid()
      ensures delta <= 0.0 ==> expired == [] && active == old(active)
      ensures delta > 0.0 ==> expired == ExpiredOf(old(active), delta)
      ensures delta > 0.0 ==> multiset(active) == multiset(SurvivorsOf(old(active), delta))
      ensures forall e :: e in old(active) && e.timeRemaining <= 0.0 ==> e in active
      ensures forall x :: x in expired ==>
                x.timeRemaining <= 0.0 && forall k :: 0 <= k < |active| ==> active[k].statusTag != x.statusTag
      ensures |active| + |expired| == |old(active)|
    {
      expired := [];
      if delta <= 0.0 {
        return;
      }
      var orig := active;
      var cur := active;
      var i := |cur|;
      assert orig[i..] == [];
      while i > 0
        invariant 0 <= i <= |orig| && i <= |cur|
        invariant cur[..i] == orig[..i]
        invariant expired == ExpiredOf(orig[i..], delta)
        invariant multiset(cur[i..]) == multiset(SurvivorsOf(orig[i..], delta))
        invariant UniqueTags(cur)
      {
        i := i - 1;
        TickStepKeeps(orig, cur, i, delta);
        ghost var before := cur;
        var s := cur[i];
        if s.timeRemaining > 0.0 {
          s := s.(timeRemaining := s.timeRemaining - delta);
          if s.timeRemaining <= 0.0 {
            // the decremented entry is reported, then swapped out
            expired := expired + [s];
            cur := RemoveAtSwap(cur, i);
          } else {
            cur := cur[i := s];
          }
        }
        assert cur == TickStepAt(before, i, delta);
      }
      assert cur[0..] == cur && orig[0..] == orig;
      TickOutcome(orig, cur, delta);
      active := cur;
    }
  }
}
