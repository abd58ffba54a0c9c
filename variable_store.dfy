// USpellVariableStoreV3 (Private/Stores/SpellVariableStoreV3.cpp) and the
// tagged value it stores (FSpellValueV3, Public/Actions/SpellPayloadsCoreV3.h).
module VariableStore {
  import opened Common

  /** ESpellValueTypeV3. */
  datatype SpellValueType = BoolType | IntType | FloatType | NameType | TagType | ObjectType

  /** FSpellValueV3: a type tag and one slot per type; only the tagged slot is meant. */
  datatype SpellValue = SpellValue(
    vtype: SpellValueType,
    boolValue: bool,
    intValue: int,
    floatValue: real,
    nameValue: Name,
    tagValue: Tag,
    objectValue: Option<nat>)

  /** `FSpellValueV3{}`: a Float holding 0. */
  const DefaultSpellValue := SpellValue(FloatType, false, 0, 0.0, NoName, InvalidTag, None)

  function FloatValue(x: real): (v: SpellValue)
    ensures v.vtype == FloatType && v.floatValue == x
  {
    DefaultSpellValue.(floatValue := x)
  }

  /** ESpellNumericOpV3. */
  datatype NumericOp = Add | Sub | Mul | Div | Min | Max | Set

  /** The arithmetic of ModifyFloat: `v <op> operand`. */
  function ApplyNumericOp(op: NumericOp, v: real, operand: real): (r: real)
    ensures op == Add ==> r - operand == v
    ensures op == Sub ==> r + operand == v
    ensures op == Mul ==> r == v * operand
    ensures op == Div && IsNearlyZero(operand) ==> r == v
    ensures op == Div && !IsNearlyZero(operand) ==> r * operand == v
    ensures op == Min ==> r <= v && r <= operand && (r == v || r == operand)
    ensures op == Max ==> r >= v && r >= operand && (r == v || r == operand)
    ensures op == Set ==> r == operand
  {
    match op
    case Add => v + operand
    case Sub => v - operand
    case Mul => v * operand
    case Div => if IsNearlyZero(operand) then v else v / operand
    case Min => Common.Min(v, operand)
    case Max => Common.Max(v, operand)
    case Set => operand
  }

  /** A lookup in a store's map: the value under a declared, non-None key. */
  function ValueOf(values: map<Name, SpellValue>, key: Name): (r: Option<SpellValue>)
    ensures r.Some? <==> key != NoName && key in values
    ensures r.Some? ==> r.value == values[key]
  {
    if key == NoName || key !in values then None else Some(values[key])
  }

  /** USpellVariableStoreV3: a map from variable name to value. */
  class SpellVariableStore {
    var values: map<Name, SpellValue>

    /** NAME_None never becomes a key. */
    ghost predicate Valid()
      reads this
    {
      NoName !in values
    }

    constructor()
      ensures values == map[] && Valid()
    {
      values := map[];
    }

    /** GetValue: the value under a declared, non-None key. */
    function GetValue(key: Name): (r: Option<SpellValue>)
      reads this
      ensures r.Some? <==> key != NoName && key in values
      ensures r.Some? ==> r.value == values[key]
    {
      ValueOf(values, key)
    }

    /** SetValue: a None key is ignored; otherwise the key now holds `v`. */
    method SetValue(key: Name, v: SpellValue)
      requires Valid()
      modifies this
      ensures Valid()
      ensures key == NoName ==> values == old(values)
      ensures key != NoName ==> values == old(values)[key := v]
      ensures key != NoName ==> GetValue(key) == Some(v)
      ensures forall k :: k != key ==> GetValue(k) == old(GetValue(k))
    {
      if key == NoName {
        return;
      }
      values := values[key := v];
    }

    /**
     * ModifyFloat: a missing key counts as Float 0 and is created; a
     * non-Float value refuses the operation and nothing changes; otherwise
     * the float slot takes `old <op> operand` and the other slots are kept.
     */
    method ModifyFloat(key: Name, op: NumericOp, operand: real) returns (ok: bool)
      requires Valid()
      modifies this
      ensures Valid()
      ensures ok <==> key != NoName && (key in old(values) ==> old(values)[key].vtype == FloatType)
      ensures !ok ==> values == old(values)
      ensures ok ==>
        var cur := if key in old(values) then old(values)[key] else DefaultSpellValue;
        values == old(values)[key := cur.(floatValue := ApplyNumericOp(op, cur.floatValue, operand))]
      ensures ok ==> GetValue(key).Some? && GetValue(key).value.vtype == FloatType
    {
      if key == NoName {
        return false;
      }
      var cur := DefaultSpellValue;
      var found := GetValue(key);
      if found.Some? {
        cur := found.value;
      } else {
        cur := cur.(vtype := FloatType, floatValue := 0.0);
      }
      if cur.vtype != FloatType {
        return false;
      }
      var v := ApplyNumericOp(op, cur.floatValue, operand);
      cur := cur.(floatValue := v);
      SetValue(key, cur);
      return true;
    }
  }

  /**
   * The hello-spell scenario of Private/Helpers/SpellHelloSpellTestActorV3.cpp:
   * SetVariable X = 1.0, then ModifyVariable X Add 1, leaves X = 2.0.
   */
  method HelloSpellScenario() returns (x: Option<SpellValue>)
    ensures x.Some? && x.value.vtype == FloatType && x.value.floatValue == 2.0
  {
    var store := new SpellVariableStore();
    store.SetValue("X", FloatValue(1.0));
    var ok := store.ModifyFloat("X", Add, 1.0);
    x := store.GetValue("X");
  }
}
