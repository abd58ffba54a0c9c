// Public/Delivery/DeliveryTypesV3.h: the delivery handle and the core enums.
module DeliveryTypes {
  import opened Common

  /** FDeliveryHandleV3. The instance index is an int32 in the source. */
  datatype DeliveryHandle = DeliveryHandle(runtimeGuid: Guid, deliveryId: Name, instanceIndex: int) {
    /** Valid iff the runtime guid is valid and the delivery id is not None. */
    predicate IsValid() {
      runtimeGuid.IsValid() && deliveryId != NoName
    }
  }

  /** The default-constructed handle. */
  const DefaultHandle: DeliveryHandle := DeliveryHandle(InvalidGuid, NoName, 0)

  datatype DeliveryKind = InstantQuery | Field | Mover | Beam
  datatype PoseUpdatePolicy = OnStart | EveryTick | Interval
  datatype StopReason = Manual | DurationElapsed | OnFirstHit | OnEvent | OwnerDestroyed | SpellEnded | Expired | Failed

  /** A default handle is never valid. */
  lemma DefaultHandleInvalid()
    ensures !DefaultHandle.IsValid()
  {
  }

  /** The engine's hash for an int32: its bit pattern. */
  function IntHash(i: int): bv32 {
    ((i % 0x1_0000_0000) as bv32)
  }

  /**
   * GetTypeHash(FDeliveryHandleV3): the guid hash, combined with the id's
   * hash, combined with the instance's hash, in that order. The engine's
   * hashes and HashCombineFast are parameters.
   */
  function HandleHash(h: DeliveryHandle, guidHash: Guid -> bv32, nameHash: Name -> bv32,
                      combine: (bv32, bv32) -> bv32): bv32
  {
    combine(combine(guidHash(h.runtimeGuid), nameHash(h.deliveryId)), IntHash(h.instanceIndex))
  }
}
