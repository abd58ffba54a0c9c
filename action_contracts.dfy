// FActionTagContractsV3 (Private/Actions/ActionTagContractsV3.cpp): the
// built-in action tags with their executors and payload structs.
module ActionContracts {
  import opened Common
  import opened ActionRegistry

  /** FActionBindingV3 for the built-in table, whose classes are never null. */
  datatype ActionBinding = ActionBinding(actionTag: Tag, executorClass: ClassName, payloadStruct: ClassName)

  /** BuildDefaultBindings. */
  function DefaultBindings(): (r: seq<ActionBinding>)
    ensures |r| == 13
    ensures forall k :: 0 <= k < |r| ==> ValidateBinding(r[k].actionTag, Some(r[k].executorClass), Some(r[k].payloadStruct)).None?
    ensures forall i, j :: 0 <= i < j < |r| ==> r[i].actionTag != r[j].actionTag
  {
    [ ActionBinding(Tag("Spell.Action.EmitEvent"), "UExec_EmitEventV3", "FPayload_EmitEventV3"),
      ActionBinding(Tag("Spell.Action.SetVariable"), "UExec_SetVariableV3", "FPayload_SetVariableV3"),
      ActionBinding(Tag("Spell.Action.ModifyVariable"), "UExec_ModifyVariableV3", "FPayload_ModifyVariableV3"),
      ActionBinding(Tag("Spell.Action.SetTargetSet"), "UExec_SetTargetSetV3", "FPayload_SetTargetSetV3"),
      ActionBinding(Tag("Spell.Action.ClearTargetSet"), "UExec_ClearTargetSetV3", "FPayload_ClearTargetSetV3"),
      ActionBinding(Tag("Spell.Action.Targeting.Acquire"), "UExec_TargetAcquireV3", "FPayload_TargetAcquireV3"),
      ActionBinding(Tag("Spell.Action.Targeting.Filter"), "UExec_TargetFilterV3", "FPayload_TargetFilterV3"),
      ActionBinding(Tag("Spell.Action.Targeting.Select"), "UExec_TargetSelectV3", "FPayload_TargetSelectV3"),
      ActionBinding(Tag("Spell.Action.Effect.ModifyAttribute"), "UExec_ModifyAttributeV3", "FPayload_EffectModifyAttributeV3"),
      ActionBinding(Tag("Spell.Action.Effect.ReadAttribute"), "UExec_ReadAttributeV3", "FPayload_ReadAttributeV3"),
      ActionBinding(Tag("Spell.Action.Effect.ApplyForce"), "UExec_ApplyForceV3", "FPayload_EffectApplyForceV3"),
      ActionBinding(Tag("Spell.Action.Status.Apply"), "UExec_ApplyStatusV3", "FPayload_ApplyStatusV3"),
      ActionBinding(Tag("Spell.Action.Status.Remove"), "UExec_RemoveStatusV3", "FPayload_RemoveStatusV3") ]
  }

  /** The payload of the first binding with an equal tag. */
  function FirstPayload(binds: seq<ActionBinding>, tag: Tag): (r: Option<ClassName>)
    ensures r.None? <==> forall k :: 0 <= k < |binds| ==> binds[k].actionTag != tag
    ensures r.Some? ==> exists k :: 0 <= k < |binds| && binds[k].actionTag == tag && r.value == binds[k].payloadStruct &&
                                    forall j :: 0 <= j < k ==> binds[j].actionTag != tag
  {
    if |binds| == 0 then None
    else if binds[0].actionTag == tag then Some(binds[0].payloadStruct)
    else
      var r := FirstPayload(binds[1..], tag);
      assert forall k :: 1 <= k < |binds| ==> binds[k] == binds[1..][k - 1];
      if r.Some? then
        var k :| 0 <= k < |binds[1..]| && binds[1..][k].actionTag == tag && r.value == binds[1..][k].payloadStruct &&
                 forall j :: 0 <= j < k ==> binds[1..][j].actionTag != tag;
        assert binds[k + 1] == binds[1..][k];
        assert forall j :: 0 <= j < k + 1 ==> binds[j].actionTag != tag;
        r
      else r
  }

  /** ExpectedPayloadStruct: the built-in payload for a tag, or null for a tag outside the table. */
  function ExpectedPayloadStruct(tag: Tag): (r: Option<ClassName>)
    ensures r.None? <==> forall k :: 0 <= k < 13 ==> DefaultBindings()[k].actionTag != tag
    ensures forall k :: 0 <= k < 13 && DefaultBindings()[k].actionTag == tag ==> r == Some(DefaultBindings()[k].payloadStruct)
  {
    FirstPayload(DefaultBindings(), tag)
  }

  /** The registry entries a list of bindings produces when registered with override, later ones winning. */
  function RegisteredMap(binds: seq<ActionBinding>): (m: map<Tag, RegisteredBinding>)
    ensures m.Keys == set k | 0 <= k < |binds| :: binds[k].actionTag
    ensures forall t :: t in m ==> m[t].actionTag == t
  {
    if |binds| == 0 then map[]
    else
      var n := |binds| - 1;
      var b := binds[n];
      var front := RegisteredMap(binds[..n]);
      assert forall k :: 0 <= k < n ==> binds[..n][k] == binds[k];
      front[b.actionTag := RegisteredBinding(b.actionTag, b.executorClass, b.payloadStruct)]
  }

  /**
   * RegisterDefaults: validates each built-in binding and registers it with
   * override allowed, counting the successes; all thirteen succeed.
   */
  method RegisterDefaults(registry: SpellActionRegistry) returns (registered: nat)
    requires registry.Valid()
    modifies registry
    ensures registry.Valid()
    ensures registered == 13
    ensures registry.bindings == old(registry.bindings) + RegisteredMap(DefaultBindings())
  {
    var defaults := DefaultBindings();
    registered := 0;
    var i := 0;
    while i < |defaults|
      invariant 0 <= i <= |defaults|
      invariant registry.Valid()
      invariant registered == i
      invariant registry.bindings == old(registry.bindings) + RegisteredMap(defaults[..i])
    {
      var b := defaults[i];
      RegisteredMapStep(old(registry.bindings), defaults, i);
      if ValidateBinding(b.actionTag, Some(b.executorClass), Some(b.payloadStruct)).None? {
        var ok, _ := registry.RegisterBinding(b.actionTag, Some(b.executorClass), Some(b.payloadStruct), true);
        if ok {
          registered := registered + 1;
        }
      }
      i := i + 1;
    }
    assert defaults[..i] == defaults;
  }

  lemma RegisteredMapStep(m: map<Tag, RegisteredBinding>, binds: seq<ActionBinding>, i: nat)
    requires i < |binds|
    ensures var b := binds[i];
            (m + RegisteredMap(binds[..i]))[b.actionTag := RegisteredBinding(b.actionTag, b.executorClass, b.payloadStruct)]
            == m + RegisteredMap(binds[..i + 1])
  {
    assert binds[..i + 1][..i] == binds[..i];
  }

  /** Registering the defaults a second time leaves the same bindings. */
  lemma DefaultsIdempotent(m: map<Tag, RegisteredBinding>)
    ensures (m + RegisteredMap(DefaultBindings())) + RegisteredMap(DefaultBindings()) == m + RegisteredMap(DefaultBindings())
  {
  }

  /** After RegisterDefaults every built-in tag finds its built-in executor and payload. */
  lemma DefaultsFound(m: map<Tag, RegisteredBinding>, k: nat)
    requires k < 13
    ensures var b := DefaultBindings()[k];
            (m + RegisteredMap(DefaultBindings()))[b.actionTag] == RegisteredBinding(b.actionTag, b.executorClass, b.payloadStruct)
  {
    var d := DefaultBindings();
    DefaultsLast(d, k);
  }

  /** With distinct tags, the registered entry for a tag is its own binding. */
  lemma {:induction false} DefaultsLast(binds: seq<ActionBinding>, k: nat)
    requires k < |binds|
    requires forall i, j :: 0 <= i < j < |binds| ==> binds[i].actionTag != binds[j].actionTag
    ensures RegisteredMap(binds)[binds[k].actionTag] ==
            RegisteredBinding(binds[k].actionTag, binds[k].executorClass, binds[k].payloadStruct)
    decreases |binds|
  {
    var n := |binds| - 1;
    if k < n {
      var front := binds[..n];
      assert front[k] == binds[k];
      assert forall i, j :: 0 <= i < j < |front| ==> front[i].actionTag != front[j].actionTag by {
        assert forall i :: 0 <= i < |front| ==> front[i] == binds[i];
      }
      DefaultsLast(front, k);
    }
  }
}
