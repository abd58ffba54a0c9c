// Private/Delivery/Drivers/DeliveryDriver_InstantQueryV3.cpp: one collision
// query when the primitive starts, its hits sorted, capped and written to
// the target store, then an immediate stop.
module InstantQuery {
  import opened Common
  import opened TargetingTypes
  import opened DeliveryTypes
  import opened DeliveryHits
  import opened ShapeHelpers
  import opened TargetStore

  /** EDeliveryQueryModeV3. */
  datatype QueryMode = Overlap | Sweep | LineTrace

  /** The world query EvaluateOnce issues. */
  datatype QueryCall = LineTraceMulti | LineTraceSingle | OverlapMulti | SweepMulti

  /** The primitive's spec fields the driver reads. */
  datatype InstantQuerySpec = InstantQuerySpec(shape: ShapeKind, mode: QueryMode, multiHit: bool, maxHits: int,
                                               outTargetSet: Name)

  /**
   * Mode selection: a Ray shape or the LineTrace mode traces a line (multi
   * or single as configured); any other shape overlaps in Overlap mode and
   * sweeps otherwise.
   */
  function SelectQuery(shape: ShapeKind, mode: QueryMode, multiHit: bool): (r: QueryCall)
    ensures (r == LineTraceMulti || r == LineTraceSingle) <==> shape == Ray || mode == LineTrace
    ensures r == LineTraceSingle <==> (shape == Ray || mode == LineTrace) && !multiHit
    ensures r == OverlapMulti <==> shape != Ray && mode == Overlap
    ensures r == SweepMulti <==> shape != Ray && mode.Sweep?
  {
    if shape == Ray || mode == LineTrace then (if multiHit then LineTraceMulti else LineTraceSingle)
    else if mode == Overlap then OverlapMulti
    else SweepMulti
  }

  /** max(1, MaxHits): at least one hit is always kept. */
  function HitCap(maxHits: int): (r: nat)
    ensures r >= 1 && r >= maxHits && (r == 1 || r == maxHits)
  {
    IntMax(1, maxHits)
  }

  /** The hit list after the query: sorted (when the query reported a hit) and truncated to HitCap. */
  function KeptHits(any: bool, hits: seq<Hit>, maxHits: int, nameOf: ActorId -> Name): seq<Hit> {
    var sorted := if any then SortHits(ByName(nameOf), hits) else hits;
    if |sorted| > HitCap(maxHits) then sorted[..HitCap(maxHits)] else sorted
  }

  /**
   * The kept hits are the first HitCap(maxHits) hits in sorted order: as
   * many as there are up to the cap, sorted when the query reported a hit,
   * drawn from the query's hits, and none of the dropped hits comes before
   * a kept one.
   */
  lemma KeptHitsAreNearest(any: bool, hits: seq<Hit>, maxHits: int, nameOf: ActorId -> Name)
    ensures var r := KeptHits(any, hits, maxHits, nameOf);
            |r| == IntMin(|hits|, HitCap(maxHits)) &&
            multiset(r) <= multiset(hits) &&
            (any ==> HitsSorted(ByName(nameOf), r)) &&
            (any ==> forall i, j :: 0 <= i < |r| <= j < |hits| ==>
                       !HitBefore(ByName(nameOf), SortHits(ByName(nameOf), hits)[j], r[i]))
  {
    var sorted := if any then SortHits(ByName(nameOf), hits) else hits;
    var r := KeptHits(any, hits, maxHits, nameOf);
    assert sorted == r + sorted[|r|..];
    assert multiset(sorted) == multiset(r) + multiset(sorted[|r|..]);
  }

  /** The target set written back: each live actor of the kept hits once, in kept order. */
  function WrittenSet(any: bool, hits: seq<Hit>, maxHits: int, nameOf: ActorId -> Name): TargetSet {
    UniqueHitActors(KeptHits(any, hits, maxHits, nameOf))
  }

  /**
   * The written set holds no actor twice, holds every live actor of the
   * kept hits and nothing that was not one.
   */
  lemma WrittenSetIsKeptActors(any: bool, hits: seq<Hit>, maxHits: int, nameOf: ActorId -> Name, x: ActorId)
    ensures UniqueActors(WrittenSet(any, hits, maxHits, nameOf).targets)
    ensures Contains(WrittenSet(any, hits, maxHits, nameOf).targets, TargetRef(Some(x))) <==>
            exists k :: 0 <= k < |KeptHits(any, hits, maxHits, nameOf)| &&
                        KeptHits(any, hits, maxHits, nameOf)[k].actor == Some(x)
  {
    var kept := KeptHits(any, hits, maxHits, nameOf);
    var w := WrittenSet(any, hits, maxHits, nameOf).targets;
    if Contains(w, TargetRef(Some(x))) {
      var k :| 0 <= k < |w| && w[k].actor == Some(x);
      UniqueHitActorsOnlyHits(kept, w[k]);
    }
    if exists k :: 0 <= k < |kept| && kept[k].actor == Some(x) {
      var k :| 0 <= k < |kept| && kept[k].actor == Some(x);
      assert RefOf(kept[k]) == TargetRef(Some(x));
    }
  }

  /** UDeliveryDriver_InstantQueryV3. */
  class InstantQueryDriver {
    var active: bool
    var groupHandle: DeliveryHandle
    var primitiveId: Name
    /** The reasons Stop has logged, oldest first. */
    ghost var stopLog: seq<StopReason>

    constructor()
      ensures !active && stopLog == []
    {
      active := false;
      groupHandle := DeliveryHandle(Guid(0, 0, 0, 0), NoName, 0);
      primitiveId := NoName;
      stopLog := [];
    }

    /**
     * EvaluateOnce. Without a world or a group (`group` is None, else the
     * group's OutTargetSetDefault) it reports false and writes nothing.
     * Otherwise it issues SelectQuery's call (`engine` answers the multi
     * queries, `single` the single line trace, which always leaves one hit
     * in the list), keeps KeptHits and, when the out set name resolves to a
     * name and a store is present, stores WrittenSet under it.
     */
    method EvaluateOnce(hasWorld: bool, group: Option<Name>, spec: InstantQuerySpec, store: SpellTargetStore?,
                        engine: QueryCall -> (bool, seq<Hit>), single: (bool, Hit), nameOf: ActorId -> Name)
      returns (any: bool)
      modifies if store != null then {store} else {}
      ensures var call := SelectQuery(spec.shape, spec.mode, spec.multiHit);
              var answer := if call == LineTraceSingle then (single.0, [single.1]) else engine(call);
              var out := ResolveOutTargetSetName(spec.outTargetSet, group);
              (!hasWorld || group.None? ==> !any && (store != null ==> store.sets == old(store.sets))) &&
              (hasWorld && group.Some? ==> any == answer.0) &&
              (hasWorld && group.Some? && store != null ==>
                 store.sets == if out == NoName then old(store.sets)
                               else old(store.sets)[out := WrittenSet(answer.0, answer.1, spec.maxHits, nameOf)])
    {
      if !hasWorld || group.None? {
        return false;
      }
      var call := SelectQuery(spec.shape, spec.mode, spec.multiHit);
      var hits: seq<Hit>;
      if call == LineTraceSingle {
        any, hits := single.0, [single.1];
      } else {
        var answer := engine(call);
        any, hits := answer.0, answer.1;
      }
      ghost var queried := hits;
      if any {
        hits := SortHits(ByName(nameOf), hits);
      }
      var cap := HitCap(spec.maxHits);
      if |hits| > cap {
        hits := hits[..cap];
      }
      assert hits == KeptHits(any, queried, spec.maxHits, nameOf);
      var outName := ResolveOutTargetSetName(spec.outTargetSet, group);
      if outName != NoName && store != null {
        var out := TargetSet([]);
        var i := 0;
        while i < |hits|
          invariant 0 <= i <= |hits|
          invariant out == AddAllUnique(TargetSet([]), RefsOfHits(hits)[..i])
          invariant store.sets == old(store.sets)
        {
          RefsOfHitsPrefix(hits, i);
          AddAllUniqueSnoc(TargetSet([]), RefsOfHits(hits)[..i], RefOf(hits[i]));
          if hits[i].actor.Some? {
            out := out.AddUnique(RefOf(hits[i]));
          }
          i := i + 1;
        }
        assert RefsOfHits(hits)[..i] == RefsOfHits(hits);
        store.Set(outName, out);
      }
    }

    /**
     * Start: records the primitive and becomes active, evaluates once and
     * stops at once, with OnFirstHit when the query reported a hit and
     * Expired otherwise.
     */
    method Start(hasWorld: bool, group: Option<Name>, handle: DeliveryHandle, primitive: Name, spec: InstantQuerySpec,
                 store: SpellTargetStore?, engine: QueryCall -> (bool, seq<Hit>), single: (bool, Hit),
                 nameOf: ActorId -> Name)
      returns (any: bool)
      modifies this, if store != null then {store} else {}
      ensures !active
      ensures groupHandle == handle && primitiveId == primitive
      ensures stopLog == old(stopLog) + [if any then OnFirstHit else Expired]
      ensures var call := SelectQuery(spec.shape, spec.mode, spec.multiHit);
              var answer := if call == LineTraceSingle then (single.0, [single.1]) else engine(call);
              var out := ResolveOutTargetSetName(spec.outTargetSet, group);
              (!hasWorld || group.None? ==> !any && (store != null ==> store.sets == old(store.sets))) &&
              (hasWorld && group.Some? ==> any == answer.0) &&
              (hasWorld && group.Some? && store != null ==>
                 store.sets == if out == NoName then old(store.sets)
                               else old(store.sets)[out := WrittenSet(answer.0, answer.1, spec.maxHits, nameOf)])
    {
      groupHandle := handle;
      primitiveId := primitive;
      active := true;
      any := EvaluateOnce(hasWorld, group, spec, store, engine, single, nameOf);
      Stop(if any then OnFirstHit else Expired);
    }

    /** Stop: a no-op when inactive; otherwise deactivates and logs the reason. */
    method Stop(reason: StopReason)
      modifies this
      ensures !active
      ensures groupHandle == old(groupHandle) && primitiveId == old(primitiveId)
      ensures stopLog == if old(active) then old(stopLog) + [reason] else old(stopLog)
    {
      if !active {
        return;
      }
      active := false;
      stopLog := stopLog + [reason];
    }
  }
}
