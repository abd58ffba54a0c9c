// The attribute storage of an actor: the replicated entry list declared in
// Public/Attributes/SpellAttributeComponentV3.h, the tag-to-value map the
// component's .cpp reads and writes, and the default attribute provider
// (Private/Attributes/DefaultAttributeProviderV3.cpp) that applies an
// operation through that component.
module Attributes {
  import opened Common

  /** FReplicatedAttributeEntryV3. */
  datatype AttributeEntry = AttributeEntry(key: Tag, value: real)

  /** No two entries carry the same key. */
  predicate UniqueKeys(items: seq<AttributeEntry>) {
    forall i, j :: 0 <= i < j < |items| ==> items[i].key != items[j].key
  }

  /** The index of the first entry carrying `key`. */
  function IndexOf(items: seq<AttributeEntry>, key: Tag): (r: Option<nat>)
    ensures r.Some? ==> r.value < |items| && items[r.value].key == key &&
                        forall j :: 0 <= j < r.value ==> items[j].key != key
    ensures r.None? ==> forall j :: 0 <= j < |items| ==> items[j].key != key
  {
    if |items| == 0 then None
    else if items[0].key == key then Some(0)
    else match IndexOf(items[1..], key)
      case None => None
      case Some(i) => Some(i + 1)
  }

  /** The first entry carrying `key` is the one IndexOf finds. */
  lemma {:induction false} IndexOfFirst(items: seq<AttributeEntry>, key: Tag, i: nat)
    requires i < |items| && items[i].key == key
    requires forall j :: 0 <= j < i ==> items[j].key != key
    ensures IndexOf(items, key) == Some(i)
  {
    if i > 0 {
      IndexOfFirst(items[1..], key, i - 1);
    }
  }

  /** What FindValue reports: the value of the valid key's entry, if there is one. */
  function Lookup(items: seq<AttributeEntry>, key: Tag): (r: Option<real>)
    ensures r.Some? <==> key.IsValid() && exists j :: 0 <= j < |items| && items[j].key == key
    ensures r.Some? ==> exists j :: 0 <= j < |items| && items[j] == AttributeEntry(key, r.value)
  {
    if !key.IsValid() then None
    else match IndexOf(items, key)
      case None => None
      case Some(i) => Some(items[i].value)
  }

  /** The entry list after SetValue(key, v): edited in place when the key is present, else extended. */
  function Stored(items: seq<AttributeEntry>, key: Tag, v: real): (r: seq<AttributeEntry>)
  {
    if !key.IsValid() then items
    else match IndexOf(items, key)
      case Some(i) => items[i := AttributeEntry(key, v)]
      case None => items + [AttributeEntry(key, v)]
  }

  /**
   * SetValue keeps the keys unique, does not change the length when the
   * valid key is present and adds exactly one entry when it is absent.
   */
  lemma StoredShape(items: seq<AttributeEntry>, key: Tag, v: real)
    requires UniqueKeys(items)
    ensures UniqueKeys(Stored(items, key, v))
    ensures !key.IsValid() ==> Stored(items, key, v) == items
    ensures key.IsValid() && Lookup(items, key).Some? ==> |Stored(items, key, v)| == |items|
    ensures key.IsValid() && Lookup(items, key).None? ==> |Stored(items, key, v)| == |items| + 1
  {
    if key.IsValid() && IndexOf(items, key).None? {
      var r := Stored(items, key, v);
      forall i, j | 0 <= i < j < |r|
        ensures r[i].key != r[j].key
      {
        if j == |items| {
          assert r[i] == items[i];
        }
      }
    }
  }

  /** FindValue after SetValue(k, v) with a valid key yields v; every other key reads as before. */
  lemma LookupAfterStored(items: seq<AttributeEntry>, key: Tag, v: real, other: Tag)
    requires UniqueKeys(items)
    ensures key.IsValid() ==> Lookup(Stored(items, key, v), key) == Some(v)
    ensures other != key ==> Lookup(Stored(items, key, v), other) == Lookup(items, other)
  {
    var r := Stored(items, key, v);
    StoredShape(items, key, v);
    if key.IsValid() {
      match IndexOf(items, key)
      case Some(i) =>
        IndexOfFirst(r, key, i);
      case None =>
        IndexOfFirst(r, key, |items|);
    }
    if other != key && other.IsValid() {
      match IndexOf(items, other)
      case None =>
        assert forall j :: 0 <= j < |r| ==> r[j].key != other;
      case Some(i) =>
        IndexOfFirst(r, other, i);
    }
  }

  /** FReplicatedAttributeContainerV3: the entry list and its two lookup helpers. */
  class AttributeContainer {
    var items: seq<AttributeEntry>

    ghost predicate Valid()
      reads this
    {
      UniqueKeys(items)
    }

    constructor()
      ensures items == [] && Valid()
    {
      items := [];
    }

    /** FindValue: true with the entry's value for a present valid key, else false with 0. */
    method FindValue(key: Tag) returns (found: bool, value: real)
      ensures found <==> Lookup(items, key).Some?
      ensures found ==> value == Lookup(items, key).value
      ensures !found ==> value == 0.0
    {
      if !key.IsValid() {
        return false, 0.0;
      }
      var i := 0;
      while i < |items|
        invariant 0 <= i <= |items|
        invariant forall j :: 0 <= j < i ==> items[j].key != key
      {
        if items[i].key == key {
          assert IndexOf(items, key) == Some(i);
          return true, items[i].value;
        }
        i := i + 1;
      }
      return false, 0.0;
    }

    /** SetValue: an invalid key is ignored; the key's entry takes `v`, or a new entry is appended. */
    method SetValue(key: Tag, v: real)
      requires Valid()
      modifies this
      ensures Valid()
      ensures items == Stored(old(items), key, v)
    {
      StoredShape(items, key, v);
      if !key.IsValid() {
        return;
      }
      var i := 0;
      while i < |items|
        invariant 0 <= i <= |items|
        invariant items == old(items)
        invariant forall j :: 0 <= j < i ==> items[j].key != key
      {
        if items[i].key == key {
          assert IndexOf(items, key) == Some(i);
          items := items[i := AttributeEntry(key, v)];
          return;
        }
        i := i + 1;
      }
      items := items + [AttributeEntry(key, v)];
    }
  }

  /**
   * USpellAttributeComponentV3 as its .cpp has it: a map from valid tag
   * to value.
   */
  class AttributeComponent {
    var attributes: map<Tag, real>

    ghost predicate Valid()
      reads this
    {
      forall t :: t in attributes ==> t.IsValid()
    }

    constructor()
      ensures attributes == map[] && Valid()
    {
      attributes := map[];
    }

    /** GetAttribute: (true, value) for a present valid tag, (false, 0) otherwise. */
    function GetAttribute(t: Tag): (r: (bool, real))
      reads this
      ensures r.0 <==> t.IsValid() && t in attributes
      ensures r.0 ==> r.1 == attributes[t]
      ensures !r.0 ==> r.1 == 0.0
    {
      if !t.IsValid() then (false, 0.0)
      else if t in attributes then (true, attributes[t])
      else (false, 0.0)
    }

    /** SetAttribute: an invalid tag is ignored; otherwise the tag now maps to `v`. */
    method SetAttribute(t: Tag, v: real)
      requires Valid()
      modifies this
      ensures Valid()
      ensures attributes == if t.IsValid() then old(attributes)[t := v] else old(attributes)
    {
      if !t.IsValid() {
        return;
      }
      attributes := attributes[t := v];
    }

    /**
     * AddDelta: the stored value (0 when missing) plus `delta`, written back
     * under a valid tag; an invalid tag still yields `delta` and stores nothing.
     */
    method AddDelta(t: Tag, delta: real) returns (newValue: real)
      requires Valid()
      modifies this
      ensures Valid()
      ensures newValue == old(GetAttribute(t)).1 + delta
      ensures attributes == if t.IsValid() then old(attributes)[t := newValue] else old(attributes)
    {
      var cur := GetAttribute(t);
      newValue := cur.1 + delta;
      SetAttribute(t, newValue);
    }
  }

  /** SetAttribute followed by GetAttribute for a valid tag returns the value set. */
  lemma GetAfterSet(before: map<Tag, real>, t: Tag, v: real, c: AttributeComponent)
    requires t.IsValid() && c.attributes == before[t := v]
    ensures c.GetAttribute(t) == (true, v)
  {
  }

  /** EAttributeOpV3. */
  datatype AttributeOp = Add | Sub | Mul | Div | Override | Min | Max

  /** The switch of ApplyOp: the new value from the current one and the operand. */
  function ApplyAttributeOp(op: AttributeOp, cur: real, operand: real): (r: real)
    ensures op == Add ==> r - operand == cur
    ensures op == Sub ==> r + operand == cur
    ensures op == Mul ==> r == cur * operand
    ensures op == Div && IsNearlyZero(operand) ==> r == cur
    ensures op == Div && !IsNearlyZero(operand) ==> r * operand == cur
    ensures op == Override ==> r == operand
    ensures op == Min ==> r <= cur && r <= operand && (r == cur || r == operand)
    ensures op == Max ==> r >= cur && r >= operand && (r == cur || r == operand)
  {
    match op
    case Add => cur + operand
    case Sub => cur - operand
    case Mul => cur * operand
    case Div => if IsNearlyZero(operand) then cur else cur / operand
    case Override => operand
    case Min => Common.Min(cur, operand)
    case Max => Common.Max(cur, operand)
  }

  /**
   * The provider's GetAttribute: the component's answer, or (false, 0)
   * when the target has no attribute component (`comp == null`).
   */
  function ProviderGet(comp: AttributeComponent?, t: Tag): (r: (bool, real))
    reads comp
    ensures comp == null ==> r == (false, 0.0)
    ensures comp != null ==> r == comp.GetAttribute(t)
  {
    if comp == null then (false, 0.0) else comp.GetAttribute(t)
  }

  /** A missing attribute reads as 0 both with and without a component. */
  lemma MissingReadsZero(comp: AttributeComponent?, t: Tag)
    requires comp == null || !t.IsValid() || t !in comp.attributes
    ensures ProviderGet(comp, t) == (false, 0.0)
  {
  }

  /** The provider's SetAttribute: true exactly when the target has a component, which stores the value. */
  method ProviderSet(comp: AttributeComponent?, t: Tag, v: real) returns (ok: bool)
    requires comp != null ==> comp.Valid()
    modifies if comp != null then {comp} else {}
    ensures ok <==> comp != null
    ensures comp != null ==> comp.Valid()
    ensures comp != null ==>
              comp.attributes == if t.IsValid() then old(comp.attributes)[t := v] else old(comp.attributes)
  {
    if comp == null {
      return false;
    }
    comp.SetAttribute(t, v);
    return true;
  }

  /**
   * ApplyOp: the current value (0 when missing, with or without a
   * component) combined with the operand, stored through the provider's
   * SetAttribute, whose answer is returned.
   */
  method ApplyOp(comp: AttributeComponent?, t: Tag, op: AttributeOp, operand: real)
    returns (ok: bool, newValue: real)
    requires comp != null ==> comp.Valid()
    modifies if comp != null then {comp} else {}
    ensures newValue == ApplyAttributeOp(op, old(ProviderGet(comp, t)).1, operand)
    ensures ok <==> comp != null
    ensures comp != null ==> comp.Valid()
    ensures comp != null ==>
              comp.attributes == if t.IsValid() then old(comp.attributes)[t := newValue] else old(comp.attributes)
  {
    var cur := ProviderGet(comp, t);
    var value := cur.1;
    if !cur.0 {
      value := 0.0;
    }
    newValue := ApplyAttributeOp(op, value, operand);
    ok := ProviderSet(comp, t, newValue);
  }
}
