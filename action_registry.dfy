// USpellActionRegistryV3 (Private/Actions/SpellActionRegistryV3.cpp): which
// executor class and payload struct serve each action tag.
module ActionRegistry {
  import opened Common

  /** Executor classes and payload structs are named by their type names; a null pointer is None. */
  type ClassName = string

  /** FRegisteredActionBindingV3; a stored binding always has both parts. */
  datatype RegisteredBinding = RegisteredBinding(actionTag: Tag, executorClass: ClassName, payloadStruct: ClassName)

  /**
   * FActionTagContractsV3::ValidateBinding, whose checks RegisterBinding
   * repeats: the first failing check, in the order tag, executor, payload,
   * as its error message; None when the binding is acceptable.
   */
  function ValidateBinding(tag: Tag, exec: Option<ClassName>, payload: Option<ClassName>): (r: Option<string>)
    ensures r.None? <==> tag.IsValid() && exec.Some? && payload.Some?
    ensures !tag.IsValid() ==> r == Some("ActionTag is invalid.")
    ensures tag.IsValid() && exec.None? ==> r == Some("ExecutorClass is null.")
    ensures tag.IsValid() && exec.Some? && payload.None? ==> r == Some("PayloadStruct is null.")
  {
    if !tag.IsValid() then Some("ActionTag is invalid.")
    else if exec.None? then Some("ExecutorClass is null.")
    else if payload.None? then Some("PayloadStruct is null.")
    else None
  }

  class SpellActionRegistry {
    var bindings: map<Tag, RegisteredBinding>

    /** Every binding is filed under its own, valid tag. */
    predicate Valid()
      reads this
    {
      forall t :: t in bindings ==> t.IsValid() && bindings[t].actionTag == t
    }

    constructor()
      ensures Valid() && bindings == map[]
    {
      bindings := map[];
    }

    /** FindBinding. */
    function FindBinding(tag: Tag): Option<RegisteredBinding>
      reads this
    {
      if tag in bindings then Some(bindings[tag]) else None
    }

    /**
     * RegisterBinding: rejects an invalid tag, a null executor or a null
     * payload, and an existing tag unless overriding is allowed; otherwise
     * the binding is stored, replacing any old one.
     */
    method RegisterBinding(tag: Tag, exec: Option<ClassName>, payload: Option<ClassName>, allowOverride: bool)
      returns (ok: bool, error: string)
      requires Valid()
      modifies this
      ensures Valid()
      ensures ValidateBinding(tag, exec, payload).Some? ==>
                !ok && error == ValidateBinding(tag, exec, payload).value && bindings == old(bindings)
      ensures ValidateBinding(tag, exec, payload).None? && tag in old(bindings) && !allowOverride ==>
                !ok && error == "Binding already exists for ActionTag: " + tag.name && bindings == old(bindings)
      ensures ok <==> ValidateBinding(tag, exec, payload).None? && (tag !in old(bindings) || allowOverride)
      ensures ok ==> bindings == old(bindings)[tag := RegisteredBinding(tag, exec.value, payload.value)]
      ensures ok ==> FindBinding(tag) == Some(RegisteredBinding(tag, exec.value, payload.value))
    {
      var e := ValidateBinding(tag, exec, payload);
      if e.Some? {
        return false, e.value;
      }
      if tag in bindings && !allowOverride {
        return false, "Binding already exists for ActionTag: " + tag.name;
      }
      bindings := bindings[tag := RegisteredBinding(tag, exec.value, payload.value)];
      return true, "";
    }

    /**
     * GetAllBindings: one entry per registered tag, in the map's
     * (unspecified) iteration order.
     */
    method GetAllBindings() returns (out: seq<RegisteredBinding>)
      requires Valid()
      ensures |out| == |bindings|
      ensures forall k :: 0 <= k < |out| ==> out[k].actionTag in bindings && bindings[out[k].actionTag] == out[k]
      ensures forall i, j :: 0 <= i < j < |out| ==> out[i].actionTag != out[j].actionTag
      ensures forall t :: t in bindings ==> bindings[t] in out
    {
      out := ListBindings(bindings);
    }
  }

  /**
   * The state of GetAllBindings' loop: `out` lists, once each, the bindings
   * of the tags already visited, that is of every tag not in `remaining`.
   */
  ghost predicate Listed(m: map<Tag, RegisteredBinding>, out: seq<RegisteredBinding>, remaining: set<Tag>) {
    remaining <= m.Keys &&
    |out| + |remaining| == |m| &&
    (forall k :: 0 <= k < |out| ==> out[k].actionTag in m && m[out[k].actionTag] == out[k]) &&
    (forall k :: 0 <= k < |out| ==> out[k].actionTag !in remaining) &&
    (forall i, j :: 0 <= i < j < |out| ==> out[i].actionTag != out[j].actionTag) &&
    (forall t :: t in m && t !in remaining ==> m[t] in out)
  }

  lemma ListedStep(m: map<Tag, RegisteredBinding>, out: seq<RegisteredBinding>, remaining: set<Tag>, t: Tag)
    requires forall u :: u in m ==> m[u].actionTag == u
    requires Listed(m, out, remaining) && t in remaining
    ensures Listed(m, out + [m[t]], remaining - {t})
  {
    var r := out + [m[t]];
    assert forall k :: 0 <= k < |out| ==> r[k] == out[k];
  }

  /** The enumeration loop of GetAllBindings over a snapshot of the map. */
  method ListBindings(m: map<Tag, RegisteredBinding>) returns (out: seq<RegisteredBinding>)
    requires forall t :: t in m ==> m[t].actionTag == t
    ensures |out| == |m|
    ensures forall k :: 0 <= k < |out| ==> out[k].actionTag in m && m[out[k].actionTag] == out[k]
    ensures forall i, j :: 0 <= i < j < |out| ==> out[i].actionTag != out[j].actionTag
    ensures forall t :: t in m ==> m[t] in out
  {
    out := [];
    var remaining := m.Keys;
    while remaining != {}
      invariant Listed(m, out, remaining)
      decreases remaining
    {
      var t :| t in remaining;
      ListedStep(m, out, remaining, t);
      out := out + [m[t]];
      remaining := remaining - {t};
    }
  }
}
