// Private/Effects/Exec_ReadAttributeV3.cpp: reads one attribute from the
// targets of a named set through the attribute subsystem's provider and
// stores either the first value found or the sum of all found values as a
// Float variable.
module ReadAttribute {
  import opened Common
  import opened TargetingTypes
  import opened TargetStore
  import VariableStore

  /** FPayload_ReadAttributeV3. */
  datatype ReadAttributePayload = ReadAttributePayload(targetSet: Name, attribute: Tag, outVariable: Name,
                                                       sumAcrossTargets: bool)

  /**
   * What the executor needs of its context besides the two stores: the
   * world context, its game instance, the attribute subsystem and a
   * provider object.
   */
  datatype ReadContext = ReadContext(hasWorld: bool, hasGameInstance: bool, hasAttributeSubsystem: bool,
                                     hasProvider: bool)

  predicate Ready(c: ReadContext) {
    c.hasWorld && c.hasGameInstance && c.hasAttributeSubsystem && c.hasProvider
  }

  /** The values the provider finds for the live targets, in set order. */
  function FoundValues(targets: seq<TargetRef>, key: Tag, get: (ActorId, Tag) -> (bool, real)): (r: seq<real>)
    ensures |r| <= |targets|
  {
    if |targets| == 0 then []
    else
      var rest := FoundValues(targets[..|targets| - 1], key, get);
      var last := targets[|targets| - 1];
      if last.actor.Some? && get(last.actor.value, key).0 then rest + [get(last.actor.value, key).1] else rest
  }

  /** Left-to-right sum. */
  function Sum(xs: seq<real>): real {
    if |xs| == 0 then 0.0 else Sum(xs[..|xs| - 1]) + xs[|xs| - 1]
  }

  /**
   * The value Execute stores: 0 when nothing is found; otherwise the sum of
   * the found values, or the first of them when not summing.
   */
  function ReadResult(targets: seq<TargetRef>, key: Tag, sum: bool, get: (ActorId, Tag) -> (bool, real)): real {
    var f := FoundValues(targets, key, get);
    if |f| == 0 then 0.0 else if sum then Sum(f) else f[0]
  }

  /** The found values of a prefix of the set are a prefix of the found values of the set. */
  lemma {:induction false} FoundValuesPrefix(targets: seq<TargetRef>, n: nat, key: Tag, get: (ActorId, Tag) -> (bool, real))
    requires n <= |targets|
    ensures IsPrefixSeq(FoundValues(targets[..n], key, get), FoundValues(targets, key, get))
    decreases |targets| - n
  {
    if n < |targets| {
      FoundValuesPrefix(targets, n + 1, key, get);
      assert targets[..n + 1][..n] == targets[..n];
    } else {
      assert targets[..n] == targets;
    }
  }

  predicate IsPrefixSeq(a: seq<real>, b: seq<real>) {
    |a| <= |b| && b[..|a|] == a
  }

  /**
   * First-valid semantics: when something is found and the payload does
   * not sum, the stored value is the value of the earliest live target the
   * provider answers for.
   */
  lemma {:induction false} FirstFoundIsEarliest(targets: seq<TargetRef>, key: Tag, get: (ActorId, Tag) -> (bool, real), k: nat)
    requires k < |targets| && targets[k].actor.Some? && get(targets[k].actor.value, key).0
    requires forall j :: 0 <= j < k ==> targets[j].actor.None? || !get(targets[j].actor.value, key).0
    ensures ReadResult(targets, key, false, get) == get(targets[k].actor.value, key).1
  {
    NoneFoundBefore(targets, k, key, get);
    assert targets[..k + 1][..k] == targets[..k];
    FoundValuesPrefix(targets, k + 1, key, get);
  }

  /** No found value among the first k targets gives an empty found prefix. */
  lemma {:induction false} NoneFoundBefore(targets: seq<TargetRef>, k: nat, key: Tag, get: (ActorId, Tag) -> (bool, real))
    requires k <= |targets|
    requires forall j :: 0 <= j < k ==> targets[j].actor.None? || !get(targets[j].actor.value, key).0
    ensures FoundValues(targets[..k], key, get) == []
  {
    if k > 0 {
      assert targets[..k][..k - 1] == targets[..k - 1];
      NoneFoundBefore(targets, k - 1, key, get);
    }
  }

  /** Nothing is found exactly when no live target has the attribute; the result is then Float 0. */
  lemma {:induction false} NothingFoundReadsZero(targets: seq<TargetRef>, key: Tag, sum: bool, get: (ActorId, Tag) -> (bool, real))
    requires forall j :: 0 <= j < |targets| ==> targets[j].actor.None? || !get(targets[j].actor.value, key).0
    ensures FoundValues(targets, key, get) == []
    ensures ReadResult(targets, key, sum, get) == 0.0
  {
    NoneFoundBefore(targets, |targets|, key, get);
    assert targets[..|targets|] == targets;
  }

  /** The loop state of Execute after the first i targets. */
  predicate Accumulated(targets: seq<TargetRef>, i: nat, key: Tag, sum: bool, get: (ActorId, Tag) -> (bool, real),
                        any: bool, acc: real)
    requires i <= |targets|
  {
    var f := FoundValues(targets[..i], key, get);
    (any <==> |f| > 0) && (any ==> acc == if sum then Sum(f) else f[0])
  }

  /**
   * Execute. A missing payload, target store, variable store, world, game
   * instance, subsystem or provider, or an unknown target set, writes
   * nothing. Otherwise the stored Float is ReadResult.
   */
  method Execute(hasPayload: bool, p: ReadAttributePayload, targetStore: SpellTargetStore?,
                 vars: VariableStore.SpellVariableStore?, ctx: ReadContext, get: (ActorId, Tag) -> (bool, real))
    requires vars != null ==> vars.Valid()
    modifies if vars != null then {vars} else {}
    ensures vars != null ==> vars.Valid()
    ensures !hasPayload || targetStore == null || vars == null || !ctx.hasWorld ==>
              vars != null ==> vars.values == old(vars.values)
    ensures hasPayload && targetStore != null && vars != null && (targetStore.Find(p.targetSet).None? || !Ready(ctx)) ==>
              vars.values == old(vars.values)
    ensures hasPayload && targetStore != null && vars != null && targetStore.Find(p.targetSet).Some? && Ready(ctx) ==>
              var x := ReadResult(targetStore.Find(p.targetSet).value.targets, p.attribute, p.sumAcrossTargets, get);
              vars.values == (if p.outVariable == NoName then old(vars.values)
                              else old(vars.values)[p.outVariable := VariableStore.FloatValue(x)])
  {
    if !hasPayload || targetStore == null || vars == null || !ctx.hasWorld {
      return;
    }
    var found, tset := targetStore.Get(p.targetSet, TargetSet([]));
    if !found {
      return;
    }
    if !ctx.hasGameInstance || !ctx.hasAttributeSubsystem || !ctx.hasProvider {
      return;
    }
    var targets := tset.targets;
    var acc := 0.0;
    var any := false;
    var i := 0;
    while i < |targets|
      invariant 0 <= i <= |targets|
      invariant Accumulated(targets, i, p.attribute, p.sumAcrossTargets, get, any, acc)
      invariant !p.sumAcrossTargets ==> !any
    {
      assert targets[..i + 1][..i] == targets[..i];
      var r := targets[i];
      if r.actor.None? {
        i := i + 1;
        continue;
      }
      var v := get(r.actor.value, p.attribute);
      if v.0 {
        if !any {
          acc := v.1;
          any := true;
        } else {
          acc := if p.sumAcrossTargets then acc + v.1 else acc;
        }
        if !p.sumAcrossTargets {
          FoundValuesPrefix(targets, i + 1, p.attribute, get);
          i := i + 1;
          break;
        }
      }
      i := i + 1;
    }
    assert any && !p.sumAcrossTargets ==> acc == ReadResult(targets, p.attribute, false, get);
    assert i == |targets| ==> targets[..i] == targets;
    var out := VariableStore.FloatValue(if any then acc else 0.0);
    vars.SetValue(p.outVariable, out);
  }
}
