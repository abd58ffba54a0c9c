// USpellTargetStoreV3 (Private/Stores/SpellTargetStoreV3.cpp): named target
// sets shared by the actions of one spell runtime.
module TargetStore {
  import opened Common
  import opened TargetingTypes

  class SpellTargetStore {
    var sets: map<Name, TargetSet>

    constructor()
      ensures sets == map[]
    {
      sets := map[];
    }

    /** Find: the set stored under `key`, if any (no None-key guard). */
    function Find(key: Name): (r: Option<TargetSet>)
      reads this
      ensures r.Some? <==> key in sets
      ensures r.Some? ==> r.value == sets[key]
    {
      if key in sets then Some(sets[key]) else None
    }

    /** Get: copies the set under `key` into `out`; on a miss `out` is returned unchanged. */
    method Get(key: Name, out: TargetSet) returns (found: bool, result: TargetSet)
      ensures found <==> Find(key).Some?
      ensures found ==> result == Find(key).value
      ensures !found ==> result == out
    {
      if key in sets {
        return true, sets[key];
      }
      return false, out;
    }

    /** Set: `key` now holds `s`, overwriting; every other key is unchanged. */
    method Set(key: Name, s: TargetSet)
      modifies this
      ensures sets == old(sets)[key := s]
      ensures Find(key) == Some(s)
      ensures forall k :: k != key ==> Find(k) == old(Find(k))
    {
      sets := sets[key := s];
    }

    /** Clear: `key` is gone; every other key is unchanged. */
    method Clear(key: Name)
      modifies this
      ensures sets == old(sets) - {key}
      ensures Find(key).None?
      ensures forall k :: k != key ==> Find(k) == old(Find(k))
    {
      sets := sets - {key};
    }
  }
}
