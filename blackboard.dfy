/**
 * The delivery blackboard: a key-declared, typed store whose writes are
 * gated by the key's declared type, its owner and a per-phase bitmask.
 * Vector, rotator and transform slots follow exactly the same rules as the
 * four slots modelled here.
 */
module Blackboard {
  import opened Common

  datatype ValueType = FloatType | IntType | BoolType | VectorType | RotatorType | TransformType | NameType

  datatype Owner = GroupOwner | PrimitiveOwner | SystemOwner

  /** The phases of one delivery evaluation, in declaration order. */
  datatype Phase = Time | Rig | DerivedMotion | PrimitiveMotion | Query | Stop | Commit

  function PhaseIndex(p: Phase): (i: nat)
    ensures i < 7
  {
    match p
    case Time => 0
    case Rig => 1
    case DerivedMotion => 2
    case PrimitiveMotion => 3
    case Query => 4
    case Stop => 5
    case Commit => 6
  }

  /** Declaration of one key; the mask defaults to 0xFF (writable in every phase). */
  datatype KeySpec = KeySpec(key: Name, vtype: ValueType, owner: Owner, writePhaseMask: bv8)

  datatype Rules = Rules(enforcePhase: bool, enforceOwner: bool, rejectUnknownKeys: bool)

  const DefaultRules: Rules := Rules(true, true, true)

  /** The stored slots; all of them exist for every key, only the declared one is used. */
  datatype Value = Value(floatValue: real, intValue: int, boolValue: bool, nameValue: Name)

  const DefaultValue: Value := Value(0.0, 0, false, NoName)

  datatype KeyRuntime = KeyRuntime(spec: KeySpec, value: Value)

  /** A value carried by one typed write or read. */
  datatype Payload = FloatPayload(f: real) | IntPayload(i: int) | BoolPayload(b: bool) | NamePayload(n: Name)

  function TypeOf(p: Payload): ValueType {
    match p
    case FloatPayload(_) => FloatType
    case IntPayload(_) => IntType
    case BoolPayload(_) => BoolType
    case NamePayload(_) => NameType
  }

  /** The bit of a phase in a write mask: 1 shifted left by the phase's index. */
  function PhaseBit(p: Phase): (b: bv8)
    ensures b != 0 && b & (b - 1) == 0
    ensures b == 1 << PhaseIndex(p)
  {
    match p
    case Time => 0x01
    case Rig => 0x02
    case DerivedMotion => 0x04
    case PrimitiveMotion => 0x08
    case Query => 0x10
    case Stop => 0x20
    case Commit => 0x40
  }

  lemma PhaseBitsDisjoint(p: Phase, q: Phase)
    requires p != q
    ensures PhaseBit(p) & PhaseBit(q) == 0
  {
  }

  /**
   * CanWrite: the board must be initialized, the type must match, and the
   * owner and phase rules hold when they are enforced.
   */
  function CanWrite(initialized: bool, rules: Rules, phase: Phase, kr: KeyRuntime, expected: ValueType, writer: Owner): (r: bool)
    ensures r <==> initialized && kr.spec.vtype == expected
                   && (rules.enforceOwner ==> kr.spec.owner == writer)
                   && (rules.enforcePhase ==> kr.spec.writePhaseMask & PhaseBit(phase) != 0)
  {
    if !initialized then false
    else if kr.spec.vtype != expected then false
    else if rules.enforceOwner && kr.spec.owner != writer then false
    else if rules.enforcePhase && kr.spec.writePhaseMask & PhaseBit(phase) == 0 then false
    else true
  }

  /** The value with the slot of `p`'s type replaced. */
  function StoreSlot(v: Value, p: Payload): (r: Value)
    ensures ReadSlot(r, TypeOf(p)) == Some(p)
    ensures TypeOf(p) != FloatType ==> r.floatValue == v.floatValue
    ensures TypeOf(p) != IntType ==> r.intValue == v.intValue
    ensures TypeOf(p) != BoolType ==> r.boolValue == v.boolValue
    ensures TypeOf(p) != NameType ==> r.nameValue == v.nameValue
  {
    match p
    case FloatPayload(f) => v.(floatValue := f)
    case IntPayload(i) => v.(intValue := i)
    case BoolPayload(b) => v.(boolValue := b)
    case NamePayload(n) => v.(nameValue := n)
  }

  function ReadSlot(v: Value, t: ValueType): Option<Payload> {
    match t
    case FloatType => Some(FloatPayload(v.floatValue))
    case IntType => Some(IntPayload(v.intValue))
    case BoolType => Some(BoolPayload(v.boolValue))
    case NameType => Some(NamePayload(v.nameValue))
    case _ => None
  }

  /** Read*: absent for an undeclared key or a key declared with another type. */
  function ReadKey(keys: map<Name, KeyRuntime>, key: Name, t: ValueType): (r: Option<Payload>)
    ensures r.Some? <==> key in keys && keys[key].spec.vtype == t && t in {FloatType, IntType, BoolType, NameType}
    ensures r.Some? ==> TypeOf(r.value) == t
  {
    if key !in keys || keys[key].spec.vtype != t then None else ReadSlot(keys[key].value, t)
  }

  /** The key map after an accepted write of `p` to the declared key `key`. */
  function StoreKey(keys: map<Name, KeyRuntime>, key: Name, p: Payload): (r: map<Name, KeyRuntime>)
    requires key in keys
    ensures r.Keys == keys.Keys
    ensures r[key].spec == keys[key].spec
    ensures keys[key].spec.vtype == TypeOf(p) ==> ReadKey(r, key, TypeOf(p)) == Some(p)
    ensures forall k :: k in keys && k != key ==> r[k] == keys[k]
  {
    keys[key := keys[key].(value := StoreSlot(keys[key].value, p))]
  }

  /** The keys declared by an init spec: NAME_None is skipped and a later duplicate replaces an earlier one. */
  function Declared(specs: seq<KeySpec>): map<Name, KeyRuntime>
  {
    if |specs| == 0 then map[]
    else
      var m := Declared(specs[..|specs| - 1]);
      var k := specs[|specs| - 1];
      if k.key == NoName then m else m[k.key := KeyRuntime(k, DefaultValue)]
  }

  /** After InitFromSpec exactly the non-None keys of the spec are declared, each holding the default value under its last spec. */
  lemma DeclaredKeys(specs: seq<KeySpec>, key: Name)
    ensures key in Declared(specs) <==> key != NoName && exists i :: 0 <= i < |specs| && specs[i].key == key
    ensures key in Declared(specs) ==> Declared(specs)[key].value == DefaultValue
    ensures key in Declared(specs) ==> Declared(specs)[key].spec.key == key
    ensures key in Declared(specs) ==> exists i :: 0 <= i < |specs| && Declared(specs)[key].spec == specs[i]
                                               && forall j :: i < j < |specs| ==> specs[j].key != key
  {
    DeclaredMembership(specs, key);
    if key in Declared(specs) {
      DeclaredEntry(specs, key);
    }
  }

  lemma {:induction false} DeclaredMembership(specs: seq<KeySpec>, key: Name)
    ensures key in Declared(specs) <==> key != NoName && exists i :: 0 <= i < |specs| && specs[i].key == key
  {
    if |specs| > 0 {
      var init := specs[..|specs| - 1];
      var last := specs[|specs| - 1];
      DeclaredMembership(init, key);
      if key != NoName && (exists i :: 0 <= i < |specs| && specs[i].key == key) && last.key != key {
        var i :| 0 <= i < |specs| && specs[i].key == key;
        assert init[i].key == key;
      }
      if key in Declared(init) {
        var i :| 0 <= i < |init| && init[i].key == key;
        assert specs[i].key == key;
      }
    }
  }

  lemma {:induction false} DeclaredEntry(specs: seq<KeySpec>, key: Name)
    requires key in Declared(specs)
    ensures Declared(specs)[key].value == DefaultValue && Declared(specs)[key].spec.key == key
    ensures exists i :: 0 <= i < |specs| && Declared(specs)[key].spec == specs[i]
                        && forall j :: i < j < |specs| ==> specs[j].key != key
  {
    var init := specs[..|specs| - 1];
    var last := specs[|specs| - 1];
    DeclaredMembership(specs, key);
    if last.key == key {
      assert Declared(specs)[key] == KeyRuntime(last, DefaultValue);
    } else {
      DeclaredEntry(init, key);
      var i :| 0 <= i < |init| && Declared(init)[key].spec == init[i]
               && forall j :: i < j < |init| ==> init[j].key != key;
      assert Declared(specs)[key].spec == specs[i];
      assert forall j :: i < j < |specs| ==> specs[j].key != key by {
        assert forall j :: i < j < |init| ==> specs[j] == init[j];
      }
    }
  }

  class DeliveryBlackboard {
    var keys: map<Name, KeyRuntime>
    var rules: Rules
    var currentPhase: Phase
    var initialized: bool

    /** Every runtime key is filed under its own, non-None name. */
    ghost predicate Valid()
      reads this
    {
      forall k :: k in keys ==> k != NoName && keys[k].spec.key == k
    }

    constructor ()
      ensures Valid()
      ensures keys == map[] && rules == DefaultRules && currentPhase == Time && !initialized
    {
      keys := map[];
      rules := DefaultRules;
      currentPhase := Time;
      initialized := false;
    }

    method InitFromSpec(specs: seq<KeySpec>, inRules: Rules)
      modifies this
      ensures Valid()
      ensures keys == Declared(specs)
      ensures rules == inRules && currentPhase == Time && initialized
    {
      rules := inRules;
      keys := map[];
      var i := 0;
      while i < |specs|
        invariant 0 <= i <= |specs|
        invariant keys == Declared(specs[..i]) && rules == inRules
        invariant forall k :: k in keys ==> k != NoName && keys[k].spec.key == k
      {
        assert specs[..i + 1][..i] == specs[..i];
        if specs[i].key != NoName {
          keys := keys[specs[i].key := KeyRuntime(specs[i], DefaultValue)];
        }
        i := i + 1;
      }
      assert specs[..|specs|] == specs;
      currentPhase := Time;
      initialized := true;
    }

    method BeginPhase(phase: Phase)
      modifies this
      ensures currentPhase == phase
      ensures keys == old(keys) && rules == old(rules) && initialized == old(initialized)
    {
      currentPhase := phase;
    }

    function HasKey(key: Name): bool
      reads this
    {
      key in keys
    }

    /**
     * Write*: an undeclared key stores nothing and succeeds unless unknown
     * keys are rejected; a declared key is written iff CanWrite allows it.
     */
    method Write(key: Name, p: Payload, writer: Owner) returns (ok: bool)
      requires Valid()
      modifies this
      ensures Valid()
      ensures rules == old(rules) && currentPhase == old(currentPhase) && initialized == old(initialized)
      ensures key !in old(keys) ==> ok == !rules.rejectUnknownKeys && keys == old(keys)
      ensures key in old(keys) ==> ok == CanWrite(initialized, rules, currentPhase, old(keys)[key], TypeOf(p), writer)
      ensures key in old(keys) ==> keys == if ok then StoreKey(old(keys), key, p) else old(keys)
    {
      if key !in keys {
        ok := !rules.rejectUnknownKeys;
        return;
      }
      if !CanWrite(initialized, rules, currentPhase, keys[key], TypeOf(p), writer) {
        ok := false;
        return;
      }
      keys := StoreKey(keys, key, p);
      ok := true;
    }

    function Read(key: Name, t: ValueType): Option<Payload>
      reads this
    {
      ReadKey(keys, key, t)
    }
  }
}
