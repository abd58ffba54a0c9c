# IMOPSpellSystem runtime core in Dafny

IMOPSpellSystem is an Unreal Engine plugin that runs data-driven spells. A
spell runtime owns a variable store and a target store, executes lists of
actions through registered executors, and reacts to gameplay events routed
through an event bus. Spells find their targets through a targeting
pipeline (acquire, filter, select) and through delivery primitives
(instant queries, beams, fields, movers) managed by a delivery subsystem.
Effects are resolved against targets with resistance-based mitigation, and
lasting effects are kept as stacked statuses on a status component.

This project models the deterministic bookkeeping of that runtime:

- the delivery blackboard, a typed key store whose writes are gated by type, owner and phase;
- status stacking (refresh, add-stacks, replace, ignore), clamping and expiry;
- the variable store, the target store, target sets, the two attribute containers and the attribute provider;
- the targeting pipeline: invalid-drop, Keep/Drop filters, unique, and All/Nearest/Farthest/Random selection;
- relation resolution between two actors from their tags;
- event routing: the trigger matcher, the event bus, the action registry, the runtime's skip gates, Start/Stop lifecycle and dispatch order, and the bounded trace buffers;
- the delivery registry (instance counters, the 32-bit seed hash, stop by handle, id or primitive) and the post-query logic of each driver: sorting, caps, pierce and unique-hit counting, Enter/Exit/Stay differences, interval gating and idempotent Stop;
- effect resolution: authority, null-target and immunity gates, mitigation, value coercion, per-target batching and attribute reads.

Engine objects become opaque values: actors are natural-number ids,
`FName` is a string with the empty string for `NAME_None`, gameplay tags are
dotted names, floats are mathematical reals. Collision queries, distances,
component lookups and the random stream are parameters of the operations
that use them. Objects whose fields the C++ updates in place are Dafny
classes with `modifies` clauses; pure helpers are functions; each
operation's contract is tied to a specification function, and the
properties are proved as lemmas about those functions.

Where a header and its `.cpp` disagree, the model follows the `.cpp`.

One Dafny module corresponds to one source file (the file comment at the
top of each module names it); `common.dfy` holds the shared vocabulary
(options, tags, names, helpers on sequences).

## Model

| member | source | states |
|---|---|---|
| Blackboard.PhaseBit | Plugins/IMOPSpellSystem/Source/IMOPSpellSystemRuntime/Private/Delivery/Blackboard/DeliveryBlackboardV3.cpp:33-37 | a phase's mask bit has exactly one bit set and equals 1 shifted left by the phase's index |
| Blackboard.PhaseBitsDisjoint | Plugins/IMOPSpellSystem/Source/IMOPSpellSystemRuntime/Private/Delivery/Blackboard/DeliveryBlackboardV3.cpp:33-37 | the bits of two different phases never overlap, so a mask can enable phases independently |
| Blackboard.CanWrite | Plugins/IMOPSpellSystem/Source/IMOPSpellSystemRuntime/Private/Delivery/Blackboard/DeliveryBlackboardV3.cpp:77-104 | a write is allowed iff the board is initialized, the declared type matches, the owner matches when owners are enforced, and the mask holds the current phase's bit when phases are enforced |
| Blackboard.StoreSlot | Plugins/IMOPSpellSystem/Source/IMOPSpellSystemRuntime/Private/Delivery/Blackboard/DeliveryBlackboardV3.cpp:129 | storing a value changes only the slot of its own type, and reading that slot back gives the value |
| Blackboard.ReadKey | Plugins/IMOPSpellSystem/Source/IMOPSpellSystemRuntime/Private/Delivery/Blackboard/DeliveryBlackboardV3.cpp:224-272 | a read succeeds iff the key is declared with the read type, and then returns a value of that type |
| Blackboard.StoreKey | Plugins/IMOPSpellSystem/Source/IMOPSpellSystemRuntime/Private/Delivery/Blackboard/DeliveryBlackboardV3.cpp:123-130 | an accepted write keeps the key set and the key's declaration, leaves every other key unchanged, and reading the key back returns the written value |
| Blackboard.DeclaredKeys | Plugins/IMOPSpellSystem/Source/IMOPSpellSystemRuntime/Private/Delivery/Blackboard/DeliveryBlackboardV3.cpp:42-55 | after initialization a key is declared iff it is not None and some spec names it; it holds the default value under the last spec naming it |
| Blackboard.DeliveryBlackboard.InitFromSpec | Plugins/IMOPSpellSystem/Source/IMOPSpellSystemRuntime/Private/Delivery/Blackboard/DeliveryBlackboardV3.cpp:39-58 | the key map becomes exactly the declared keys of the spec, the rules are installed, the phase is Time and the board is initialized |
| Blackboard.DeliveryBlackboard.BeginPhase | Plugins/IMOPSpellSystem/Source/IMOPSpellSystemRuntime/Private/Delivery/Blackboard/DeliveryBlackboardV3.cpp:67-70 | only the current phase changes |
| Blackboard.DeliveryBlackboard.Write | Plugins/IMOPSpellSystem/Source/IMOPSpellSystemRuntime/Private/Delivery/Blackboard/DeliveryBlackboardV3.cpp:106-131 | an undeclared key stores nothing and succeeds iff unknown keys are not rejected; a declared key is written iff CanWrite holds, and a rejected write leaves every key unchanged |
| Status.ClampStacks | Plugins/IMOPSpellSystem/Source/IMOPSpellSystemRuntime/Private/Status/SpellStatusComponentV3.cpp:44 | stacks are clamped into [1, max(1, MaxStacks)], unchanged when already in range |
| Status.FindTag | Plugins/IMOPSpellSystem/Source/IMOPSpellSystemRuntime/Private/Status/SpellStatusComponentV3.cpp:33-35 | the search finds the first entry carrying exactly the tag, and finds none iff no entry carries it |
| Status.Merge | Plugins/IMOPSpellSystem/Source/IMOPSpellSystemRuntime/Private/Status/SpellStatusComponentV3.cpp:37-57 | IgnoreIfPresent yields nothing; RefreshDuration takes the new time and context and keeps stacks; Replace takes the new value with its stacks clamped into [1, max(1, MaxStacks)] (1 below the range, the cap above it, the value itself inside); AddStacks clamps the summed stacks the same way and keeps the longer time |
| Status.TickAll | Plugins/IMOPSpellSystem/Source/IMOPSpellSystemRuntime/Private/Status/SpellStatusComponentV3.cpp:94-104 | a tick decrements every timed entry once and leaves permanent entries untouched |
| Status.TickPartitions | Plugins/IMOPSpellSystem/Source/IMOPSpellSystemRuntime/Private/Status/SpellStatusComponentV3.cpp:94-112 | every ticked entry goes to exactly one side, expired or surviving |
| Status.TickSides | Plugins/IMOPSpellSystem/Source/IMOPSpellSystemRuntime/Private/Status/SpellStatusComponentV3.cpp:99-111 | expired entries have run out; with a positive delta every permanent entry survives |
| Status.TickKeepsTags | Plugins/IMOPSpellSystem/Source/IMOPSpellSystemRuntime/Private/Status/SpellStatusComponentV3.cpp:94-112 | neither side of a tick carries a tag the array did not hold |
| Status.ExpiredTagsGone | Plugins/IMOPSpellSystem/Source/IMOPSpellSystemRuntime/Private/Status/SpellStatusComponentV3.cpp:106-111 | with unique tags, no expired tag remains among the survivors |
| Status.TickOutcome | Plugins/IMOPSpellSystem/Source/IMOPSpellSystemRuntime/Private/Status/SpellStatusComponentV3.cpp:94-112 | after the reverse tick loop, permanent entries remain, expired tags are gone, and survivors plus expired entries account for the whole array |
| Status.StatusComponent.HasStatus | Plugins/IMOPSpellSystem/Source/IMOPSpellSystemRuntime/Private/Status/SpellStatusComponentV3.cpp:9-17 | true iff the tag is valid and some entry carries it |
| Status.StatusComponent.GetStacks | Plugins/IMOPSpellSystem/Source/IMOPSpellSystemRuntime/Private/Status/SpellStatusComponentV3.cpp:19-27 | the stacks of the entry carrying the tag, and 0 when the tag is invalid or absent |
| Status.StatusComponent.UpsertStatus | Plugins/IMOPSpellSystem/Source/IMOPSpellSystemRuntime/Private/Status/SpellStatusComponentV3.cpp:29-64 | the statuses become exactly Upserted of the old ones; an invalid tag changes nothing and reports false; an absent tag is appended with clamped stacks; a present tag is merged in place under the policy, reporting false exactly for IgnoreIfPresent; tags stay unique |
| Status.UpsertedShape | Plugins/IMOPSpellSystem/Source/IMOPSpellSystemRuntime/Private/Status/SpellStatusComponentV3.cpp:29-64 | upserting keeps tags unique, adds the new tag to the tag set when valid, grows the list by one only for an absent valid tag, and leaves every entry with another tag where it was |
| Status.StatusComponent.RemoveStatus | Plugins/IMOPSpellSystem/Source/IMOPSpellSystemRuntime/Private/Status/SpellStatusComponentV3.cpp:66-80 | reports true iff the tag was present; that entry is returned and removed by swap, the array shrinks by one and the tag is absent afterwards |
| Status.StatusComponent.TickStatuses | Plugins/IMOPSpellSystem/Source/IMOPSpellSystemRuntime/Private/Status/SpellStatusComponentV3.cpp:88-113 | a non-positive delta changes nothing; otherwise the expired entries are exactly those whose decremented time ran out, returned last first, and the remaining array is a permutation of the survivors |
| StatusSubsystem.NewStatus | Plugins/IMOPSpellSystem/Source/IMOPSpellSystemRuntime/Private/Status/SpellStatusSubsystemV3.cpp:37-44 | the duration is the override when it is not negative, else the default; the stacks are the override when positive, else 1; tag and context come from the definition and caller |
| StatusSubsystem.ApplyStatus | Plugins/IMOPSpellSystem/Source/IMOPSpellSystemRuntime/Private/Status/SpellStatusSubsystemV3.cpp:13-52 | fails, reporting the default status and changing nothing, without authority, target, valid tag or component; otherwise the component's statuses become exactly the Upserted list for the new status and succeeds unless the tag was present under IgnoreIfPresent, reporting the new status only on success |
| StatusSubsystem.RemoveStatus | Plugins/IMOPSpellSystem/Source/IMOPSpellSystemRuntime/Private/Status/SpellStatusSubsystemV3.cpp:54-68 | succeeds iff authority, target and component are present and the tag was active; afterwards the tag is absent |
| StatusSubsystem.HandleExpiry | Plugins/IMOPSpellSystem/Source/IMOPSpellSystemRuntime/Private/Status/SpellStatusSubsystemV3.cpp:70-81 | with a target and a component, the expired status's tag is no longer active |
| StatusSubsystem.HandleAllExpired | Plugins/IMOPSpellSystem/Source/IMOPSpellSystemRuntime/Private/Status/SpellStatusSubsystemV3.cpp:104-107 | handing already-removed expired statuses to HandleExpiry leaves the component unchanged |
| StatusSubsystem.Tick | Plugins/IMOPSpellSystem/Source/IMOPSpellSystemRuntime/Private/Status/SpellStatusSubsystemV3.cpp:83-109 | nothing changes without a world or on a client; on a server every component is ticked and no tag it reports expired remains active |
| VariableStore.ApplyNumericOp | Plugins/IMOPSpellSystem/Source/IMOPSpellSystemRuntime/Private/Stores/SpellVariableStoreV3.cpp:39-48 | Add, Sub and Mul are applied arithmetically, Div by a nearly-zero operand keeps the value and otherwise divides, Min and Max pick the smaller and larger, Set yields the operand |
| VariableStore.ValueOf | Plugins/IMOPSpellSystem/Source/IMOPSpellSystemRuntime/Private/Stores/SpellVariableStoreV3.cpp:9-18 | a lookup succeeds iff the key is not None and present, and returns the stored value |
| VariableStore.SpellVariableStore.GetValue | Plugins/IMOPSpellSystem/Source/IMOPSpellSystemRuntime/Private/Stores/SpellVariableStoreV3.cpp:9-18 | succeeds iff the key is not None and present, returning its value |
| VariableStore.SpellVariableStore.SetValue | Plugins/IMOPSpellSystem/Source/IMOPSpellSystemRuntime/Private/Stores/SpellVariableStoreV3.cpp:3-7 | a None key is ignored; otherwise the key holds the value afterwards and every other key is unchanged |
| VariableStore.SpellVariableStore.ModifyFloat | Plugins/IMOPSpellSystem/Source/IMOPSpellSystemRuntime/Private/Stores/SpellVariableStoreV3.cpp:20-54 | succeeds iff the key is not None and is absent or Float; a missing key starts from Float 0 and is created; on failure the store is unchanged; on success only the key's float slot takes the result of the operation |
| VariableStore.HelloSpellScenario | Plugins/IMOPSpellSystem/Source/IMOPSpellSystemRuntime/Private/Helpers/SpellHelloSpellTestActorV3.cpp:72-104 | setting X to 1.0 and then adding 1 leaves X a Float holding 2.0 |
| TargetStore.SpellTargetStore.Find | Plugins/IMOPSpellSystem/Source/IMOPSpellSystemRuntime/Private/Stores/SpellTargetStoreV3.cpp:3-6 | finds a set iff the key is stored, returning that set |
| TargetStore.SpellTargetStore.Get | Plugins/IMOPSpellSystem/Source/IMOPSpellSystemRuntime/Private/Stores/SpellTargetStoreV3.cpp:8-16 | reports true with the stored set iff the key is stored; on a miss the output is returned unchanged |
| TargetStore.SpellTargetStore.Set | Plugins/IMOPSpellSystem/Source/IMOPSpellSystemRuntime/Private/Stores/SpellTargetStoreV3.cpp:18-21 | the key holds the new set, overwriting any old one; every other key is unchanged |
| TargetStore.SpellTargetStore.Clear | Plugins/IMOPSpellSystem/Source/IMOPSpellSystemRuntime/Private/Stores/SpellTargetStoreV3.cpp:23-26 | the key is no longer found; every other key is unchanged |
| TargetingTypes.TargetRef.StableId | Plugins/IMOPSpellSystem/Source/IMOPSpellSystemRuntime/Public/Targeting/TargetingTypesV3.h:40 | the actor's unique id for a valid reference and 0 for an invalid one |
| TargetingTypes.TargetSet.Reset | Plugins/IMOPSpellSystem/Source/IMOPSpellSystemRuntime/Public/Targeting/TargetingTypesV3.h:51 | the set is empty afterwards |
| TargetingTypes.TargetSet.RemoveInvalid | Plugins/IMOPSpellSystem/Source/IMOPSpellSystemRuntime/Public/Targeting/TargetingTypesV3.h:52 | exactly the valid references remain, as an order-preserving subsequence, each with all its copies |
| TargetingTypes.TargetSet.AddUnique | Plugins/IMOPSpellSystem/Source/IMOPSpellSystemRuntime/Public/Targeting/TargetingTypesV3.h:54-62 | an invalid reference or an actor already present changes nothing; a new live actor is appended after the unchanged prefix; no duplicate actor is ever introduced |
| TargetingTypes.FindActor | Plugins/IMOPSpellSystem/Source/IMOPSpellSystemRuntime/Public/Targeting/TargetingTypesV3.h:57-60 | the scan finds an entry iff some entry refers to the same actor |
| TargetingTypes.AddUniqueIdempotent | Plugins/IMOPSpellSystem/Source/IMOPSpellSystemRuntime/Public/Targeting/TargetingTypesV3.h:54-62 | adding the same reference twice equals adding it once |
| TargetingTypes.RemoveInvalidIdempotent | Plugins/IMOPSpellSystem/Source/IMOPSpellSystemRuntime/Public/Targeting/TargetingTypesV3.h:52 | removing invalid references twice equals removing them once |
| TargetingTypes.AddAllUnique | Plugins/IMOPSpellSystem/Source/IMOPSpellSystemRuntime/Public/Targeting/TargetingTypesV3.h:54-62 | adding references one by one keeps actors unique, keeps the existing prefix, and contains every valid added reference |
| TargetingFilters.PassesOne | Plugins/IMOPSpellSystem/Source/IMOPSpellSystemRuntime/Private/Targeting/TargetingFiltersV3.cpp:6-45 | an invalid candidate never matches; a Relation filter set to Any matches every valid candidate, otherwise the hook's relation must equal it; in DistanceRange a bound of 0 or less disables that side; unhandled kinds match every valid candidate |
| TargetingFilters.ApplyFilters | Plugins/IMOPSpellSystem/Source/IMOPSpellSystemRuntime/Private/Targeting/TargetingFiltersV3.cpp:47-74 | the result is exactly the Survivors: the candidates, in order and with their multiplicities, that are valid and that every filter keeps (Keep keeps matches, Drop keeps non-matches), even with no filters |
| TargetingFilters.OneMorePass | Plugins/IMOPSpellSystem/Source/IMOPSpellSystemRuntime/Private/Targeting/TargetingFiltersV3.cpp:64-73 | one more filter pass over the survivors of the first n filters leaves the survivors of the first n+1 |
| TargetingFilters.AllPasses | Plugins/IMOPSpellSystem/Source/IMOPSpellSystemRuntime/Private/Targeting/TargetingFiltersV3.cpp:64-73 | the survivors of all the filters, one pass at a time, are the Survivors |
| TargetingFilters.NoPassYet | Plugins/IMOPSpellSystem/Source/IMOPSpellSystemRuntime/Private/Targeting/TargetingFiltersV3.cpp:61-62 | before any filter pass only the invalid candidates are gone |
| TargetingFilters.NoFilterPasses | Plugins/IMOPSpellSystem/Source/IMOPSpellSystemRuntime/Private/Targeting/TargetingFiltersV3.cpp:54-59 | with no filters the Survivors are the valid candidates |
| TargetingFilters.SurvivorsShape | Plugins/IMOPSpellSystem/Source/IMOPSpellSystemRuntime/Private/Targeting/TargetingFiltersV3.cpp:47-74 | the Survivors are an order-preserving subsequence holding every copy of each surviving candidate and nothing else |
| TargetingSelection.UniqueFirstSpec | Plugins/IMOPSpellSystem/Source/IMOPSpellSystemRuntime/Private/Targeting/TargetingSelectionV3.cpp:6-16 | deduplication keeps an order-preserving subsequence with each live actor once, at its first occurrence, and drops invalid references |
| TargetingSelection.MakeUniqueActors | Plugins/IMOPSpellSystem/Source/IMOPSpellSystemRuntime/Private/Targeting/TargetingSelectionV3.cpp:6-16 | the seen-set loop computes the first-occurrence deduplication: valid references only, unique actors, every valid actor of the input kept |
| TargetingSelection.Shuffle | Plugins/IMOPSpellSystem/Source/IMOPSpellSystemRuntime/Private/Targeting/TargetingSelectionV3.cpp:57-62 | the Fisher–Yates loop with j drawn in [0, i] returns a permutation of the work list |
| TargetingSelection.WantCount | Plugins/IMOPSpellSystem/Source/IMOPSpellSystemRuntime/Private/Targeting/TargetingSelectionV3.cpp:35 | the count is the work-list size when Count is 0 or less, else min(Count, size) |
| TargetingSelection.Select | Plugins/IMOPSpellSystem/Source/IMOPSpellSystemRuntime/Private/Targeting/TargetingSelectionV3.cpp:18-72 | IsSelection: only valid candidates from the candidates are returned, each actor at most once with bUnique, never more copies than the work list holds; All returns the whole work list; Nearest and Farthest return the WantCount-prefix of the ascending and descending sort; Nearest, Farthest and Random return exactly WantCount references |
| TargetingSelection.UniqueFirstValid | Plugins/IMOPSpellSystem/Source/IMOPSpellSystemRuntime/Private/Targeting/TargetingSelectionV3.cpp:27-33 | dropping invalid references before deduplication changes nothing |
| TargetingSpatial.DescendingIsReversed | Plugins/IMOPSpellSystem/Source/IMOPSpellSystemRuntime/Private/Targeting/TargetingSpatialHelpersV3.cpp:61-68 | the descending comparator is the ascending one with its arguments swapped, so both keys are reversed |
| TargetingSpatial.BeforeAsymmetric | Plugins/IMOPSpellSystem/Source/IMOPSpellSystemRuntime/Private/Targeting/TargetingSpatialHelpersV3.cpp:53-69 | the comparator never puts two references each before the other |
| TargetingSpatial.NotBeforeTransitive | Plugins/IMOPSpellSystem/Source/IMOPSpellSystemRuntime/Private/Targeting/TargetingSpatialHelpersV3.cpp:53-69 | not-before is transitive, since the comparator is lexicographic on (distance, unique id) |
| TargetingSpatial.Insert | Plugins/IMOPSpellSystem/Source/IMOPSpellSystemRuntime/Private/Targeting/TargetingSpatialHelpersV3.cpp:53-69 | inserting into a sorted list keeps it sorted and adds exactly the element |
| TargetingSpatial.SortByDistanceTo | Plugins/IMOPSpellSystem/Source/IMOPSpellSystemRuntime/Private/Targeting/TargetingSpatialHelpersV3.cpp:51-70 | the result is ordered by distance with ties broken by unique id (ascending, or both reversed) and is a permutation of the input |
| TargetingSpatial.NullsLast | Plugins/IMOPSpellSystem/Source/IMOPSpellSystemRuntime/Private/Targeting/TargetingSpatialHelpersV3.cpp:58-59 | null references, keyed at BIG_NUMBER, come after every live actor in an ascending sort |
| TargetingSpatial.ResolveOriginLocation | Plugins/IMOPSpellSystem/Source/IMOPSpellSystemRuntime/Private/Targeting/TargetingSpatialHelpersV3.cpp:13-49 | WorldLocation yields the stored location; Caster, CasterView and Actor yield that actor's location or zero when it is missing; TargetSetCenter yields the centre of the stored set when the store has it and zero otherwise |
| TargetingSubsystem.CollectExplicit | Plugins/IMOPSpellSystem/Source/IMOPSpellSystemRuntime/Private/Targeting/TargetingSubsystemV3.cpp:76-83 | the explicit candidates are exactly the non-null actors of the request, in order |
| TargetingTypes.RefsOfInOrder | Plugins/IMOPSpellSystem/Source/IMOPSpellSystemRuntime/Private/Targeting/TargetingSubsystemV3.cpp:76-83 | the k-th explicit candidate points at the k-th non-null actor, and there are as many as non-null actors |
| TargetingSubsystem.FilterAndSelect | Plugins/IMOPSpellSystem/Source/IMOPSpellSystemRuntime/Private/Targeting/TargetingSubsystemV3.cpp:112-119 | the selection is an IsSelection of the Survivors of the filters: what Select promises, over the filtered candidates |
| TargetingSubsystem.AcquireTargets | Plugins/IMOPSpellSystem/Source/IMOPSpellSystemRuntime/Private/Targeting/TargetingSubsystemV3.cpp:41-122 | fails with the source's error text without a world, backend, hooks, or (for a target set) a store, and with the backend's error when the radius query fails; otherwise succeeds with the candidates of the requested kind and a selection that is an IsSelection of their Survivors around the resolved origin |
| InstantQuery.SelectQuery | Plugins/IMOPSpellSystem/Source/IMOPSpellSystemRuntime/Private/Delivery/Drivers/DeliveryDriver_InstantQueryV3.cpp:87-114 | a Ray shape or LineTrace mode traces a line (single unless multi-hit); other shapes overlap in Overlap mode and sweep otherwise |
| InstantQuery.HitCap | Plugins/IMOPSpellSystem/Source/IMOPSpellSystemRuntime/Private/Delivery/Drivers/DeliveryDriver_InstantQueryV3.cpp:122 | the cap is max(1, MaxHits) |
| InstantQuery.KeptHitsAreNearest | Plugins/IMOPSpellSystem/Source/IMOPSpellSystemRuntime/Private/Delivery/Drivers/DeliveryDriver_InstantQueryV3.cpp:116-126 | at most the cap of hits are kept, drawn from the query, sorted when any hit was reported, and no dropped hit sorts before a kept one |
| InstantQuery.WrittenSetIsKeptActors | Plugins/IMOPSpellSystem/Source/IMOPSpellSystemRuntime/Private/Delivery/Drivers/DeliveryDriver_InstantQueryV3.cpp:157-166 | the written set holds each live actor of the kept hits exactly once and nothing else |
| InstantQuery.InstantQueryDriver.EvaluateOnce | Plugins/IMOPSpellSystem/Source/IMOPSpellSystemRuntime/Private/Delivery/Drivers/DeliveryDriver_InstantQueryV3.cpp:57-178 | without a world or group it reports no hit and writes nothing; otherwise it reports the query's result and stores the written set under the resolved out name when there is one and a store |
| InstantQuery.InstantQueryDriver.Start | Plugins/IMOPSpellSystem/Source/IMOPSpellSystemRuntime/Private/Delivery/Drivers/DeliveryDriver_InstantQueryV3.cpp:43-55 | records the handle and primitive, evaluates once and stops with OnFirstHit on a hit, Expired otherwise |
| InstantQuery.InstantQueryDriver.Stop | Plugins/IMOPSpellSystem/Source/IMOPSpellSystemRuntime/Private/Delivery/Drivers/DeliveryDriver_InstantQueryV3.cpp:180-194 | stopping an inactive driver changes nothing; otherwise it deactivates and logs the reason once |
| Relations.MatchesPairSymmetric | Plugins/IMOPSpellSystem/Source/IMOPSpellSystemRuntime/Private/Relations/SpellRelationSubsystemV3.cpp:38-48 | a rule pair matches regardless of which side is the caster or how the pair is written, and never when either tag is invalid |
| Relations.FirstPair | Plugins/IMOPSpellSystem/Source/IMOPSpellSystemRuntime/Private/Relations/SpellRelationSubsystemV3.cpp:102-115 | the pair reported is the first in array order that matches, and none is reported exactly when no pair matches |
| Relations.ForcedOutcome | Plugins/IMOPSpellSystem/Source/IMOPSpellSystemRuntime/Private/Relations/SpellRelationSubsystemV3.cpp:66-75 | a forced setting imposes Ally, Enemy or Neutral, and NoForce imposes nothing |
| Relations.ResolveRelation | Plugins/IMOPSpellSystem/Source/IMOPSpellSystemRuntime/Private/Relations/SpellRelationSubsystemV3.cpp:50-120 | Any exactly when an actor is null, Self exactly for the same actor, and Enemy only through a forced enemy or a hostile rule pair |
| Relations.UntargetableIsNeutral | Plugins/IMOPSpellSystem/Source/IMOPSpellSystemRuntime/Private/Relations/SpellRelationSubsystemV3.cpp:59-63 | an untargetable target is Neutral whatever else holds |
| Relations.ForcedOverrides | Plugins/IMOPSpellSystem/Source/IMOPSpellSystemRuntime/Private/Relations/SpellRelationSubsystemV3.cpp:65-75 | a forced relation decides the result and the rules asset cannot change it |
| Relations.SharedAffiliationIsAlly | Plugins/IMOPSpellSystem/Source/IMOPSpellSystemRuntime/Private/Relations/SpellRelationSubsystemV3.cpp:83-97 | a shared affiliation tag makes the target an Ally once the earlier steps did not decide |
| Relations.HostileBeforeFriendly | Plugins/IMOPSpellSystem/Source/IMOPSpellSystemRuntime/Private/Relations/SpellRelationSubsystemV3.cpp:99-116 | a tag set that matches both a hostile and a friendly pair resolves to Enemy |
| Relations.TagsUnderMembers | Plugins/IMOPSpellSystem/Source/IMOPSpellSystemRuntime/Private/Relations/SpellRelationSubsystemV3.cpp:122-134 | the gathered tags are exactly the source tags at or under a valid root |
| Relations.GatherTagsUnderRoot | Plugins/IMOPSpellSystem/Source/IMOPSpellSystemRuntime/Private/Relations/SpellRelationSubsystemV3.cpp:122-134 | the output is reset and then holds the valid source tags under the root, in order |
| Relations.FirstCommon | Plugins/IMOPSpellSystem/Source/IMOPSpellSystemRuntime/Private/Relations/SpellRelationSubsystemV3.cpp:136-150 | the overlap reported is the first tag of A, in order, that also occurs in B, and none exactly when no tag is shared |
| Relations.FindExactOverlap | Plugins/IMOPSpellSystem/Source/IMOPSpellSystemRuntime/Private/Relations/SpellRelationSubsystemV3.cpp:136-150 | the nested scan finds an overlap exactly when FirstCommon does, and reports that tag |
| Relations.FirstScope | Plugins/IMOPSpellSystem/Source/IMOPSpellSystemRuntime/Private/Relations/SpellRelationSubsystemV3.cpp:247-278 | the deciding scope is the first in array order that decides, and none exactly when no scope decides |
| Relations.ScopedAnswer | Plugins/IMOPSpellSystem/Source/IMOPSpellSystemRuntime/Private/Relations/SpellRelationSubsystemV3.cpp:262-277 | a deciding scope reports a valid tag under its root |
| Relations.ScopedAnswerIgnoresDisabled | Plugins/IMOPSpellSystem/Source/IMOPSpellSystemRuntime/Private/Relations/SpellRelationSubsystemV3.cpp:249-252 | disabled scopes and scopes with an invalid root never influence the scoped answer |
| Relations.ResolveRelationDetailed | Plugins/IMOPSpellSystem/Source/IMOPSpellSystemRuntime/Private/Relations/SpellRelationSubsystemV3.cpp:183-309 | Any and Self as in ResolveRelation with no reason tag; every other outcome carries one of the seven reason tags; the fallback is Neutral with no matched tags; a shared affiliation is Ally with one valid matched tag on both sides |
| Relations.DetailedIgnoresDisabledScopes | Plugins/IMOPSpellSystem/Source/IMOPSpellSystemRuntime/Private/Relations/SpellRelationSubsystemV3.cpp:241-279 | the detailed resolution depends only on the enabled scopes |
| Relations.AnyUnderRootReportsRoot | Plugins/IMOPSpellSystem/Source/IMOPSpellSystemRuntime/Private/Relations/SpellRelationSubsystemV3.cpp:262-268 | an AnyUnderRoot scope that decides reports Ally with its root as both matched tags |
| Relations.ExactScopeShares | Plugins/IMOPSpellSystem/Source/IMOPSpellSystemRuntime/Private/Relations/SpellRelationSubsystemV3.cpp:270-277 | an ExactTag scope decides only on a tag both sides carry |
| Relations.DetailedAgreesWithoutSharedTags | Plugins/IMOPSpellSystem/Source/IMOPSpellSystemRuntime/Private/Relations/SpellRelationSubsystemV3.cpp:83-97 | with only ExactTag scopes and no shared affiliation tag, the detailed and plain resolutions agree |
| Relations.DefaultScopes | Plugins/IMOPSpellSystem/Source/IMOPSpellSystemRuntime/Private/Relations/SpellRelationSubsystemV3.cpp:21-33 | three ExactTag scopes Party, Guild, Faction in that order, each enabled exactly when its root tag is registered |
| Relations.RelationSubsystem.Initialize | Plugins/IMOPSpellSystem/Source/IMOPSpellSystemRuntime/Private/Relations/SpellRelationSubsystemV3.cpp:12-35 | defaults are installed only when no scopes were configured; configured scopes and the rules asset are kept |
| Common.NatToString | Plugins/IMOPSpellSystem/Source/IMOPSpellSystemRuntime/Public/Events/SpellTriggerMatcherV3.h:111 | the %d rendering of a natural number is a non-empty string of decimal digits without a leading zero |
| Common.NatToStringRoundTrip | Plugins/IMOPSpellSystem/Source/IMOPSpellSystemRuntime/Public/Events/SpellTriggerMatcherV3.h:111 | reading the rendered digits back gives the number |
| Common.IntToString | Plugins/IMOPSpellSystem/Source/IMOPSpellSystemRuntime/Public/Events/SpellTriggerMatcherV3.h:121 | the %d rendering of an integer starts with a digit exactly when the integer is non-negative |
| TriggerMatcher.Matches | Plugins/IMOPSpellSystem/Source/IMOPSpellSystemRuntime/Public/Events/SpellTriggerMatcherV3.h:57-73 | an invalid tag never matches; in exact mode only a valid exact tag equal to the input matches; otherwise the tag query decides |
| TriggerMatcher.MatchesEvent | Plugins/IMOPSpellSystem/Source/IMOPSpellSystemRuntime/Public/Events/SpellTriggerMatcherV3.h:78-154 | a match requires the tag match; without the primitive filter the tag match decides; enabled emitter-index and spawn-slot prefixes are required; with the filter on, the event is accepted exactly when the tag matches, the enabled prefixes are present and the primitive criterion differs from the inversion flag; with no primitive criterion only an inverted filter accepts |
| TriggerMatcher.PrimitiveIdTakesPrecedence | Plugins/IMOPSpellSystem/Source/IMOPSpellSystemRuntime/Public/Events/SpellTriggerMatcherV3.h:133-142 | a set primitive id makes the prefix setting irrelevant |
| TriggerMatcher.NoCriteriaRejects | Plugins/IMOPSpellSystem/Source/IMOPSpellSystemRuntime/Public/Events/SpellTriggerMatcherV3.h:128-153 | with no id and no prefix the primitive filter accepts exactly when inverted and the tag matches |
| TriggerMatcher.ExactPrimitiveIsPrefix | Plugins/IMOPSpellSystem/Source/IMOPSpellSystemRuntime/Public/Events/SpellTriggerMatcherV3.h:133-137 | the primitive-id test is a prefix test: a matcher for P1 accepts an event tagged Delivery.Primitive.P10 |
| EventBus.MatchesFilter | Plugins/IMOPSpellSystem/Source/IMOPSpellSystemRuntime/Private/Events/SpellEventBusSubsystemV3.cpp:26-35 | an invalid filter receives everything; otherwise the event tag must be valid and an ancestor-or-self or descendant-or-self of the filter |
| EventBus.Recipients | Plugins/IMOPSpellSystem/Source/IMOPSpellSystemRuntime/Private/Events/SpellEventBusSubsystemV3.cpp:125-142 | every listener reached is live, implements the listener interface and has a subscription whose filter matches |
| EventBus.RecipientsComplete | Plugins/IMOPSpellSystem/Source/IMOPSpellSystemRuntime/Private/Events/SpellEventBusSubsystemV3.cpp:125-142 | every live listener with a matching subscription is reached |
| EventBus.SpellEventBus.constructor | Plugins/IMOPSpellSystem/Source/IMOPSpellSystemRuntime/Private/Events/SpellEventBusSubsystemV3.cpp:7-15 | a new bus has no subscribers and next id 1 |
| EventBus.SpellEventBus.Subscribe | Plugins/IMOPSpellSystem/Source/IMOPSpellSystemRuntime/Private/Events/SpellEventBusSubsystemV3.cpp:56-89 | a null or non-listener object gets the invalid handle and changes nothing; otherwise it is appended under the next id, which exceeds every earlier id |
| EventBus.SpellEventBus.Unsubscribe | Plugins/IMOPSpellSystem/Source/IMOPSpellSystemRuntime/Private/Events/SpellEventBusSubsystemV3.cpp:98-115 | an invalid handle changes nothing; otherwise exactly the subscribers with that id are removed, order kept |
| EventBus.SpellEventBus.Emit | Plugins/IMOPSpellSystem/Source/IMOPSpellSystemRuntime/Private/Events/SpellEventBusSubsystemV3.cpp:117-143 | dead listeners are removed first, then the event reaches the matching live listeners in subscription order |
| EventBus.Deliver | Plugins/IMOPSpellSystem/Source/IMOPSpellSystemRuntime/Private/Events/SpellEventBusSubsystemV3.cpp:125-142 | the delivery loop reaches exactly Recipients, in order |
| EventBus.SubscribeTwice | Plugins/IMOPSpellSystem/Source/IMOPSpellSystemRuntime/Private/Events/SpellEventBusSubsystemV3.cpp:74 | two successful subscriptions get valid, strictly increasing ids |
| ActionRegistry.ValidateBinding | Plugins/IMOPSpellSystem/Source/IMOPSpellSystemRuntime/Private/Actions/ActionTagContractsV3.cpp:88-112 | a binding is acceptable exactly when the tag is valid and both classes are present; otherwise the first failing check's message, in the order tag, executor, payload |
| ActionRegistry.SpellActionRegistry.RegisterBinding | Plugins/IMOPSpellSystem/Source/IMOPSpellSystemRuntime/Private/Actions/SpellActionRegistryV3.cpp:4-44 | rejects with the source's message an invalid tag, a null executor or payload, and an existing tag without override, changing nothing; otherwise stores the binding under its tag, after which FindBinding returns it |
| ActionRegistry.SpellActionRegistry.GetAllBindings | Plugins/IMOPSpellSystem/Source/IMOPSpellSystemRuntime/Private/Actions/SpellActionRegistryV3.cpp:51-59 | lists every registered binding exactly once and nothing else |
| ActionRegistry.ListBindings | Plugins/IMOPSpellSystem/Source/IMOPSpellSystemRuntime/Private/Actions/SpellActionRegistryV3.cpp:53-58 | the enumeration loop yields each map entry exactly once |
| ActionContracts.DefaultBindings | Plugins/IMOPSpellSystem/Source/IMOPSpellSystemRuntime/Private/Actions/ActionTagContractsV3.cpp:33-58 | the built-in table has thirteen bindings, each valid, with distinct tags |
| ActionContracts.FirstPayload | Plugins/IMOPSpellSystem/Source/IMOPSpellSystemRuntime/Private/Actions/ActionTagContractsV3.cpp:117-124 | the payload of a binding with the tag that no earlier binding has, or none exactly when no binding has it |
| ActionContracts.ExpectedPayloadStruct | Plugins/IMOPSpellSystem/Source/IMOPSpellSystemRuntime/Private/Actions/ActionTagContractsV3.cpp:114-125 | a built-in tag yields its built-in payload; any other tag yields null |
| ActionContracts.RegisteredMap | Plugins/IMOPSpellSystem/Source/IMOPSpellSystemRuntime/Private/Actions/ActionTagContractsV3.cpp:66-85 | registering a list with override files exactly its tags, each under itself |
| ActionContracts.RegisterDefaults | Plugins/IMOPSpellSystem/Source/IMOPSpellSystemRuntime/Private/Actions/ActionTagContractsV3.cpp:60-86 | all thirteen defaults register, overriding earlier bindings for the same tags and keeping the others |
| ActionContracts.DefaultsIdempotent | Plugins/IMOPSpellSystem/Source/IMOPSpellSystemRuntime/Private/Actions/ActionTagContractsV3.cpp:60-86 | registering the defaults twice leaves the same bindings as once |
| ActionContracts.DefaultsFound | Plugins/IMOPSpellSystem/Source/IMOPSpellSystemRuntime/Private/Actions/ActionTagContractsV3.cpp:60-86 | after registration each built-in tag finds its own executor and payload |
| ActionContracts.DefaultsLast | Plugins/IMOPSpellSystem/Source/IMOPSpellSystemRuntime/Private/Actions/ActionTagContractsV3.cpp:66-85 | with distinct tags, each tag's registered entry is its own binding |
| Runtime.RunIndices | Plugins/IMOPSpellSystem/Source/IMOPSpellSystemRuntime/Private/VM/SpellVMV3.cpp:20-83 | only actions that pass every gate run, in index order |
| Runtime.RunIndicesComplete | Plugins/IMOPSpellSystem/Source/IMOPSpellSystemRuntime/Private/VM/SpellVMV3.cpp:20-83 | every action that passes the gates runs; a skipped action never stops later ones |
| Runtime.MismatchNeedsBothStructs | Plugins/IMOPSpellSystem/Source/IMOPSpellSystemRuntime/Private/VM/SpellVMV3.cpp:59-70 | past the earlier gates, an action is skipped for its payload only when the actual struct is known and differs from the binding's |
| Runtime.MatchingIndices | Plugins/IMOPSpellSystem/Source/IMOPSpellSystemRuntime/Private/Runtime/SpellRuntimeV3.cpp:97-118 | only reactions whose trigger matches the event tag are dispatched, in array order |
| Runtime.MatchingIndicesComplete | Plugins/IMOPSpellSystem/Source/IMOPSpellSystemRuntime/Private/Runtime/SpellRuntimeV3.cpp:97-118 | every reaction whose trigger matches is dispatched |
| Runtime.SpellRuntime.constructor | Plugins/IMOPSpellSystem/Source/IMOPSpellSystemRuntime/Private/Runtime/SpellRuntimeV3.cpp:14-24 | a new runtime is stopped, with no subscriptions, spec, registry, bus or cached executor |
| Runtime.SpellRuntime.Init | Plugins/IMOPSpellSystem/Source/IMOPSpellSystemRuntime/Private/Runtime/SpellRuntimeV3.cpp:14-24 | installs the world context, caster, spec, registry and bus |
| Runtime.SpellRuntime.StartFromAsset | Plugins/IMOPSpellSystem/Source/IMOPSpellSystemRuntime/Private/Runtime/SpellRuntimeV3.cpp:156-194 | each context piece falls back to the runtime's own; a missing one leaves the runtime untouched; otherwise a non-zero context seed replaces the seed, the authority flag is adopted, and the runtime is initialised and started |
| Runtime.SpellRuntime.Prepare | Plugins/IMOPSpellSystem/Source/IMOPSpellSystemRuntime/Private/Runtime/SpellRuntimeV3.cpp:182-191 | the seed is the context's when non-zero and the old one otherwise; the authority flag and the spec are installed |
| Runtime.SpellRuntime.InstallAndStart | Plugins/IMOPSpellSystem/Source/IMOPSpellSystemRuntime/Private/Runtime/SpellRuntimeV3.cpp:182-193 | after preparing, the runtime runs and holds one new subscription per handler and phase unless it was already running |
| Runtime.SpellRuntime.GetOrCreateExecutor | Plugins/IMOPSpellSystem/Source/IMOPSpellSystemRuntime/Private/Runtime/SpellRuntimeV3.cpp:120-132 | null for a null class; the cached executor when there is one; otherwise a new executor, cached; existing cache entries are kept |
| Runtime.SpellRuntime.Start | Plugins/IMOPSpellSystem/Source/IMOPSpellSystemRuntime/Private/Runtime/SpellRuntimeV3.cpp:26-62 | a no-op when running; stays stopped without a spec, bus or registry; otherwise runs, appends one fresh handle per handler then phase, leaves the bus holding its old subscribers plus SubscribersFor those reactions minus dead listeners, and returns exactly the Recipients of Spell.Event.Spell.Start |
| Runtime.SpellRuntime.Stop | Plugins/IMOPSpellSystem/Source/IMOPSpellSystemRuntime/Private/Runtime/SpellRuntimeV3.cpp:64-95 | a no-op when stopped, bus untouched; otherwise stops, empties the subscriptions, leaves the bus holding exactly its old subscribers whose ids are not among the valid handles and whose listeners are alive, in order, and returns exactly the Recipients of Spell.Event.Spell.End |
| Runtime.SpellRuntime.OnSpellEvent | Plugins/IMOPSpellSystem/Source/IMOPSpellSystemRuntime/Private/Runtime/SpellRuntimeV3.cpp:97-118 | nothing when stopped or without a spec; otherwise the matching handlers, then the matching phases, each run their actions in array order |
| Runtime.RunDispatched | Plugins/IMOPSpellSystem/Source/IMOPSpellSystemRuntime/Private/Runtime/SpellRuntimeV3.cpp:101-117 | each dispatched reaction's actions go through ExecuteActions, in dispatch order |
| Runtime.SubscribeAll | Plugins/IMOPSpellSystem/Source/IMOPSpellSystemRuntime/Private/Runtime/SpellRuntimeV3.cpp:38-48 | one handle per reaction, in order, numbered from the bus's next id; the bus gains exactly SubscribersFor the reactions after its old subscribers and its next id advances by their count |
| Runtime.SubscribersFor | Plugins/IMOPSpellSystem/Source/IMOPSpellSystemRuntime/Private/Runtime/SpellRuntimeV3.cpp:38-48 | one subscriber per reaction, in order, with consecutive ids from the first, the runtime as listener and the trigger's exact tag as filter |
| Runtime.UnsubscribeAll | Plugins/IMOPSpellSystem/Source/IMOPSpellSystemRuntime/Private/Runtime/SpellRuntimeV3.cpp:70-76 | the bus keeps exactly the subscribers whose id is no valid handle's id, in their order, and its next id; so none carries such an id |
| Runtime.UnsubscribeStep | Plugins/IMOPSpellSystem/Source/IMOPSpellSystemRuntime/Private/Runtime/SpellRuntimeV3.cpp:70-76 | one more Unsubscribe of a valid handle removes its id from what the earlier ones left; an invalid handle removes nothing |
| Runtime.UnsubscribeUndoesSubscribe | Plugins/IMOPSpellSystem/Source/IMOPSpellSystemRuntime/Private/Runtime/SpellRuntimeV3.cpp:38-76 | unsubscribing the handles the subscription loop returned leaves the bus holding exactly the subscribers it held before |
| Runtime.OlderSubscribersKept | Plugins/IMOPSpellSystem/Source/IMOPSpellSystemRuntime/Private/Runtime/SpellRuntimeV3.cpp:70-76 | subscribers older than the runtime's handles survive its unsubscription in place |
| Runtime.NewSubscribersDropped | Plugins/IMOPSpellSystem/Source/IMOPSpellSystemRuntime/Private/Runtime/SpellRuntimeV3.cpp:70-76 | every subscriber the runtime added is removed by unsubscribing its handles |
| Runtime.ExecuteActions | Plugins/IMOPSpellSystem/Source/IMOPSpellSystemRuntime/Private/VM/SpellVMV3.cpp:9-84 | without a registry nothing runs; otherwise exactly RunIndices run, each through the executor cached for its binding's class |
| Runtime.RunAction | Plugins/IMOPSpellSystem/Source/IMOPSpellSystemRuntime/Private/VM/SpellVMV3.cpp:22-81 | an action runs exactly when it passes the gates, and then its binding's executor class is cached |
| RuntimeScenarios.ExecutorIsReused | Plugins/IMOPSpellSystem/Source/IMOPSpellSystemRuntime/Private/Runtime/SpellRuntimeV3.cpp:120-132 | two requests for the same class return the same executor |
| Trace.BucketGuid | Plugins/IMOPSpellSystem/Source/IMOPSpellSystemRuntime/Private/Debug/SpellTraceSubsystemV3.cpp:5-11 | an event with a valid guid is filed under it; one without is filed under the synthetic guid (1,0,0,0) |
| Trace.KeepLast | Plugins/IMOPSpellSystem/Source/IMOPSpellSystemRuntime/Private/Debug/SpellTraceSubsystemV3.cpp:16-20 | trimming keeps the newest entries, at most the bound, in order |
| Trace.KeepLastEndsWith | Plugins/IMOPSpellSystem/Source/IMOPSpellSystemRuntime/Private/Debug/SpellTraceSubsystemV3.cpp:15-20 | with a bound of at least one, the newest entry survives the trim |
| Trace.KeepLastUnderBound | Plugins/IMOPSpellSystem/Source/IMOPSpellSystemRuntime/Private/Debug/SpellTraceSubsystemV3.cpp:16 | within the bound nothing is dropped |
| Trace.MaxRows | Plugins/IMOPSpellSystem/Source/IMOPSpellSystemRuntime/Private/Debug/SpellTraceSubsystemV3.cpp:32 | the row bound is MaxEventsPerRuntime times max(1, MaxRecentRuntimes), never below MaxEventsPerRuntime |
| Trace.TrimFront | Plugins/IMOPSpellSystem/Source/IMOPSpellSystemRuntime/Private/Debug/SpellTraceSubsystemV3.cpp:16-20 | removing the overflow at the front yields KeepLast |
| Trace.SpellTrace.constructor | Plugins/IMOPSpellSystem/Source/IMOPSpellSystemRuntime/Public/Debug/SpellTraceSubsystemV3.h:45-48 | empty stores with bounds 128 events per runtime and 16 recent runtimes |
| Trace.SpellTrace.Record | Plugins/IMOPSpellSystem/Source/IMOPSpellSystemRuntime/Private/Debug/SpellTraceSubsystemV3.cpp:3-39 | only the event's bucket changes, gaining the filed event trimmed to its bound; the rows gain the event's row trimmed to MaxRows |
| Trace.SpellTrace.FileEvent | Plugins/IMOPSpellSystem/Source/IMOPSpellSystemRuntime/Private/Debug/SpellTraceSubsystemV3.cpp:13-21 | the bucket half of Record |
| Trace.SpellTrace.AppendRow | Plugins/IMOPSpellSystem/Source/IMOPSpellSystemRuntime/Private/Debug/SpellTraceSubsystemV3.cpp:23-38 | the row half of Record |
| Trace.SpellTrace.GetRecentRows | Plugins/IMOPSpellSystem/Source/IMOPSpellSystemRuntime/Private/Debug/SpellTraceSubsystemV3.cpp:41-44 | a copy of the recent rows, all under valid guids |
| Trace.SpellTrace.GetEventsForRuntime | Plugins/IMOPSpellSystem/Source/IMOPSpellSystemRuntime/Private/Debug/SpellTraceSubsystemV3.cpp:46-54 | the runtime's bucket, or nothing for an unknown or invalid guid |
| Trace.SpellTrace.ClearRuntime | Plugins/IMOPSpellSystem/Source/IMOPSpellSystemRuntime/Private/Debug/SpellTraceSubsystemV3.cpp:56-60 | the runtime's bucket and exactly its rows are removed; the other rows keep their order |
| Trace.SpellTrace.ClearAll | Plugins/IMOPSpellSystem/Source/IMOPSpellSystemRuntime/Private/Debug/SpellTraceSubsystemV3.cpp:62-66 | both stores are emptied |
| Trace.RecordThenRead | Plugins/IMOPSpellSystem/Source/IMOPSpellSystemRuntime/Private/Debug/SpellTraceSubsystemV3.cpp:13-21 | after recording, the event's bucket ends with the filed event and holds at most MaxEventsPerRuntime events |
| DeliveryTypes.DefaultHandleInvalid | Plugins/IMOPSpellSystem/Source/IMOPSpellSystemRuntime/Public/Delivery/DeliveryTypesV3.h:25-28 | a default handle, with an invalid guid and a None id, is never valid |
| DeliverySubsystem.HashCombineVectors | Plugins/IMOPSpellSystem/Source/IMOPSpellSystemRuntime/Private/Delivery/DeliverySubsystemV3.cpp:19-22 | reference values of the 32-bit mixer A xor (B + 0x9e3779b9 + (A << 6) + (A >> 2)) with wrap-around |
| DeliverySubsystem.GroupSeedIsHandleHash | Plugins/IMOPSpellSystem/Source/IMOPSpellSystemRuntime/Private/Delivery/DeliverySubsystemV3.cpp:334-340 | the group seed folds guid, id and instance in the same order as the handle's type hash, with the fast mixer |
| DeliverySubsystem.ShouldEvaluateRig | Plugins/IMOPSpellSystem/Source/IMOPSpellSystemRuntime/Private/Delivery/DeliverySubsystemV3.cpp:351-388 | always under EveryTick; under OnStart only while the emitter cache is empty; under Interval when the interval is not positive, there is no last time, or at least the interval has passed |
| DeliverySubsystem.FirstEvaluationAlwaysRuns | Plugins/IMOPSpellSystem/Source/IMOPSpellSystemRuntime/Private/Delivery/DeliverySubsystemV3.cpp:185-188 | a group never evaluated before is evaluated under every policy |
| DeliverySubsystem.NamedIds | Plugins/IMOPSpellSystem/Source/IMOPSpellSystemRuntime/Private/Delivery/DeliverySubsystemV3.cpp:203-211 | the primitives that get a driver are exactly those with an id other than None |
| DeliverySubsystem.DeliveryEvent | Plugins/IMOPSpellSystem/Source/IMOPSpellSystemRuntime/Private/Delivery/DeliverySubsystemV3.cpp:43-58 | EmitDeliveryEvent raises one event of the runtime, with the given tag and magnitude, exactly when the tag is valid, and nothing otherwise |
| DeliverySubsystem.PrimitiveStartedNeverRaised | Plugins/IMOPSpellSystem/Source/IMOPSpellSystemRuntime/Private/Delivery/DeliverySubsystemV3.cpp:247-252 | the spawn loop's per-primitive Primitive.Started requests emit nothing, because that tag is never requested from the tag table and so stays invalid |
| DeliverySubsystem.SpawnedDrivers | Plugins/IMOPSpellSystem/Source/IMOPSpellSystemRuntime/Private/Delivery/DeliverySubsystemV3.cpp:201-247 | one driver per named primitive, keyed by its id, from the last primitive with that id, with its kind, the group seed mixed with the id's hash, and the activity its Start left |
| DeliverySubsystem.OwnStoppedEventPassesFilter | Plugins/IMOPSpellSystem/Source/IMOPSpellSystemRuntime/Private/Delivery/DeliverySubsystemV3.cpp:144-148 | as written, the end-event test accepts Spell.Event.Delivery.Stopped, the event the subsystem itself emits |
| DeliverySubsystem.CorrectedFilterIgnoresOwnEvent | Plugins/IMOPSpellSystem/Source/IMOPSpellSystemRuntime/Private/Delivery/DeliverySubsystemV3.cpp:144-148 | the corrected test rejects the subsystem's own Stopped event |
| DeliverySubsystem.CorrectedFilterKeepsSpellEnd | Plugins/IMOPSpellSystem/Source/IMOPSpellSystemRuntime/Private/Delivery/DeliverySubsystemV3.cpp:144-148 | the corrected test still accepts Spell.Event.Spell.End |
| DeliverySubsystem.EndedImpliesEnd | Plugins/IMOPSpellSystem/Source/IMOPSpellSystemRuntime/Private/Delivery/DeliverySubsystemV3.cpp:145 | the Ended test is subsumed by the End test |
| DeliverySubsystem.DeliverySubsystem.constructor | Plugins/IMOPSpellSystem/Source/IMOPSpellSystemRuntime/Private/Delivery/DeliverySubsystemV3.cpp:59-71 | no groups, counters or rig times |
| DeliverySubsystem.DeliverySubsystem.AllocateInstanceIndex | Plugins/IMOPSpellSystem/Source/IMOPSpellSystemRuntime/Private/Delivery/DeliverySubsystemV3.cpp:326-332 | returns the pair's counter (0 when new) and increments it; every other pair keeps its counter |
| DeliverySubsystem.DeliverySubsystem.StartDelivery | Plugins/IMOPSpellSystem/Source/IMOPSpellSystemRuntime/Private/Delivery/DeliverySubsystemV3.cpp:151-259 | fails without change, with the default handle, without a world, with a None id or no primitives; otherwise allocates the next index, stores a fresh group under the new handle with its seed, rig evaluation and time, and spawns SpawnedDrivers; it emits only Spell.Event.Delivery.Started carrying the instance index (the per-primitive Primitive.Started requests are dropped for their invalid tag); a failure emits nothing |
| DeliverySubsystem.DeliverySubsystem.SpawnAll | Plugins/IMOPSpellSystem/Source/IMOPSpellSystemRuntime/Private/Delivery/DeliverySubsystemV3.cpp:201-252 | the spawn loop builds exactly SpawnedDrivers, skipping None ids, and emits exactly what its Primitive.Started requests yield, which is nothing |
| DeliverySubsystem.DeliverySubsystem.EvaluateRigIfNeeded | Plugins/IMOPSpellSystem/Source/IMOPSpellSystemRuntime/Private/Delivery/DeliverySubsystemV3.cpp:342-411 | for a known group, with a world, whose policy calls for it, refreshes the rig cache and records the time; otherwise changes nothing |
| DeliverySubsystem.DeliverySubsystem.StopGroupInternal | Plugins/IMOPSpellSystem/Source/IMOPSpellSystemRuntime/Private/Delivery/DeliverySubsystemV3.cpp:492-531 | false for an unknown handle, emitting nothing; otherwise stops exactly the active drivers, removes the group and its rig time, so a second stop fails, and emits one Spell.Event.Delivery.Stopped of the context's runtime whose magnitude is the reason's code |
| DeliverySubsystem.ReasonCode | Plugins/IMOPSpellSystem/Source/IMOPSpellSystemRuntime/Public/Delivery/DeliveryTypesV3.h:68-78 | the eight stop reasons cast to int32 take the codes 0 to 7 |
| DeliverySubsystem.StoppedEvent | Plugins/IMOPSpellSystem/Source/IMOPSpellSystemRuntime/Private/Delivery/DeliverySubsystemV3.cpp:521-525 | the group-stopped event carries Spell.Event.Delivery.Stopped, the runtime guid, and a magnitude from which the reason is read back |
| DeliverySubsystem.StoppedEventsDistinct | Plugins/IMOPSpellSystem/Source/IMOPSpellSystemRuntime/Private/Delivery/DeliverySubsystemV3.cpp:521-525 | distinct reasons give distinct Stopped events |
| DeliverySubsystem.StoppedEvents | Plugins/IMOPSpellSystem/Source/IMOPSpellSystemRuntime/Private/Delivery/DeliverySubsystemV3.cpp:459-462 | n stopped groups of one runtime emit n copies of the same Stopped event |
| DeliverySubsystem.DeliverySubsystem.StopAllWhere | Plugins/IMOPSpellSystem/Source/IMOPSpellSystemRuntime/Private/Delivery/DeliverySubsystemV3.cpp:448-465 | the snapshot loop removes exactly the selected groups and their rig times, emits one Stopped event per removed group, and reports whether there was one |
| DeliverySubsystem.DeliverySubsystem.StopSnapshot | Plugins/IMOPSpellSystem/Source/IMOPSpellSystemRuntime/Private/Delivery/DeliverySubsystemV3.cpp:448-465 | each selected group is stopped once, emitting its Stopped event, and no other group is touched |
| DeliverySubsystem.DeliverySubsystem.StopOneMore | Plugins/IMOPSpellSystem/Source/IMOPSpellSystemRuntime/Private/Delivery/DeliverySubsystemV3.cpp:459-462 | one more selected group is stopped with its rig time and emits one Stopped event |
| DeliverySubsystem.DeliverySubsystem.StopById | Plugins/IMOPSpellSystem/Source/IMOPSpellSystemRuntime/Private/Delivery/DeliverySubsystemV3.cpp:266-282 | stops exactly the groups with the runtime guid and delivery id with their rig times, leaves the rest unchanged, emits one Stopped event with the reason per stopped group, and reports whether one was stopped |
| DeliverySubsystem.DeliverySubsystem.StopAllForRuntimeGuid | Plugins/IMOPSpellSystem/Source/IMOPSpellSystemRuntime/Private/Delivery/DeliverySubsystemV3.cpp:448-465 | stops every group of the runtime and no other, one Stopped event with the reason per group |
| DeliverySubsystem.DeliverySubsystem.StopPrimitiveInGroup | Plugins/IMOPSpellSystem/Source/IMOPSpellSystemRuntime/Private/Delivery/DeliverySubsystemV3.cpp:467-490 | removes the primitive's driver and context only when the group exists and that driver is active; otherwise changes nothing and returns false |
| DeliverySubsystem.DeliverySubsystem.StopByPrimitiveId | Plugins/IMOPSpellSystem/Source/IMOPSpellSystemRuntime/Private/Delivery/DeliverySubsystemV3.cpp:284-305 | in every group of the runtime guid and delivery id whose driver for the primitive is active, that primitive is removed; groups stay; true iff one was removed |
| DeliverySubsystem.DeliverySubsystem.StopPrimitiveSnapshot | Plugins/IMOPSpellSystem/Source/IMOPSpellSystemRuntime/Private/Delivery/DeliverySubsystemV3.cpp:289-304 | the snapshot loop removes the primitive in exactly the targeted groups |
| DeliverySubsystem.DeliverySubsystem.StopPrimitiveStep | Plugins/IMOPSpellSystem/Source/IMOPSpellSystemRuntime/Private/Delivery/DeliverySubsystemV3.cpp:300-303 | one group's primitive stop, done once |
| DeliverySubsystem.DeliverySubsystem.OnSpellEvent | Plugins/IMOPSpellSystem/Source/IMOPSpellSystemRuntime/Private/Delivery/DeliverySubsystemV3.cpp:136-149 | an event without a runtime guid is ignored; an end event (corrected test) stops every group of its runtime with reason SpellEnded, emitting their Stopped events; any other event changes nothing and emits nothing |
| DeliverySubsystem.DeliverySubsystem.OnSpellEventAsWritten | Plugins/IMOPSpellSystem/Source/IMOPSpellSystemRuntime/Private/Delivery/DeliverySubsystemV3.cpp:136-149 | the same with the end-event test exactly as written |
| DeliverySubsystem.StopCascadesAsWritten | Plugins/IMOPSpellSystem/Source/IMOPSpellSystemRuntime/Private/Delivery/DeliverySubsystemV3.cpp:519-524 | as written, stopping one group and hearing its own Stopped event stops every other group of the runtime |
| DeliverySubsystem.StopStaysLocal | Plugins/IMOPSpellSystem/Source/IMOPSpellSystemRuntime/Private/Delivery/DeliverySubsystemV3.cpp:519-524 | with the corrected test the same sequence stops only the requested group and leaves the other unchanged |
| StopDelivery.Route | Plugins/IMOPSpellSystem/Source/IMOPSpellSystemRuntime/Private/Delivery/Exec_StopDeliveryV3.cpp:49-95 | no target exactly when there is no valid handle, id or primitive; a valid handle wins; a primitive needs an id; the id alone comes last |
| StopDelivery.HandleOverridesOtherFields | Plugins/IMOPSpellSystem/Source/IMOPSpellSystemRuntime/Private/Delivery/Exec_StopDeliveryV3.cpp:65-71 | with a valid handle the id and primitive fields never change the route |
| StopDelivery.InvalidHandleIgnored | Plugins/IMOPSpellSystem/Source/IMOPSpellSystemRuntime/Private/Delivery/Exec_StopDeliveryV3.cpp:49 | an unused or invalid handle does not influence the route |
| StopDelivery.StopReasonToString | Plugins/IMOPSpellSystem/Source/IMOPSpellSystemRuntime/Private/Delivery/Exec_StopDeliveryV3.cpp:10-24 | each of the eight reasons has a non-empty name and Unknown is never returned |
| StopDelivery.StopReasonNamesDistinct | Plugins/IMOPSpellSystem/Source/IMOPSpellSystemRuntime/Private/Delivery/Exec_StopDeliveryV3.cpp:12-23 | distinct reasons have distinct names |
| StopDelivery.Execute | Plugins/IMOPSpellSystem/Source/IMOPSpellSystemRuntime/Private/Delivery/Exec_StopDeliveryV3.cpp:26-99 | a missing payload, world or subsystem, no target, or a primitive without an id stop nothing and emit nothing; a valid handle stops that group and emits its Stopped event with the payload's reason; a primitive is removed from exactly the groups of the context's runtime and id whose driver for it is active, other groups and rig times unchanged; an id stops exactly those groups with their rig times, one Stopped event each; the flag reports whether something was stopped |
| DeliveryHits.RefsOfHits | Plugins/IMOPSpellSystem/Source/IMOPSpellSystemRuntime/Private/Delivery/Drivers/DeliveryDriver_InstantQueryV3.cpp:158-166 | one reference per hit, in hit order, each pointing at the hit's actor |
| DeliveryHits.HitBeforeAsymmetric | Plugins/IMOPSpellSystem/Source/IMOPSpellSystemRuntime/Private/Delivery/Drivers/DeliveryDriver_InstantQueryV3.cpp:31-40 | the hit comparator never puts two hits before each other |
| DeliveryHits.NotBeforeTransitive | Plugins/IMOPSpellSystem/Source/IMOPSpellSystemRuntime/Private/Delivery/Drivers/DeliveryDriver_InstantQueryV3.cpp:31-40 | "not before" is transitive, so the comparator is a strict weak order over (distance, tie-break) |
| DeliveryHits.InsertHit | Plugins/IMOPSpellSystem/Source/IMOPSpellSystemRuntime/Private/Delivery/Drivers/DeliveryDriver_InstantQueryV3.cpp:31-40 | inserting into a sorted hit list keeps it sorted and adds exactly the one hit |
| DeliveryHits.SortHits | Plugins/IMOPSpellSystem/Source/IMOPSpellSystemRuntime/Private/Delivery/Drivers/DeliveryDriver_InstantQueryV3.cpp:29-41 | the deterministic sort yields the hits nearest first, ties by name or unique id, as a permutation of its input |
| DeliveryHits.SortedPermutationsAgree | Plugins/IMOPSpellSystem/Source/IMOPSpellSystemRuntime/Public/Delivery/Drivers/DeliveryDriver_BeamV3.cpp:16-28 | when no two distinct hits tie, every sorted permutation of the hits is the same list: the sort is deterministic |
| DeliveryHits.UniqueHitActors | Plugins/IMOPSpellSystem/Source/IMOPSpellSystemRuntime/Private/Delivery/Drivers/DeliveryDriver_InstantQueryV3.cpp:157-166 | the writeback holds no actor twice and holds the actor of every hit that has one |
| DeliveryHits.AddAllUniqueSnoc | Plugins/IMOPSpellSystem/Source/IMOPSpellSystemRuntime/Private/Delivery/Drivers/DeliveryDriver_InstantQueryV3.cpp:158-166 | the writeback of one more reference is one more AddUnique on the previous writeback |
| DeliveryHits.AddAllUniqueOnlyFrom | Plugins/IMOPSpellSystem/Source/IMOPSpellSystemRuntime/Private/Delivery/Drivers/DeliveryDriver_InstantQueryV3.cpp:158-166 | everything the writeback holds came from the initial set or is a live reference of the input |
| DeliveryHits.AddAllDistinct | Plugins/IMOPSpellSystem/Source/IMOPSpellSystemRuntime/Public/Delivery/Drivers/DeliveryDriver_BeamV3.cpp:219-227 | distinct live references are written back as they are, in order |
| DeliveryHits.UniqueHitActorsOnlyHits | Plugins/IMOPSpellSystem/Source/IMOPSpellSystemRuntime/Private/Delivery/Drivers/DeliveryDriver_InstantQueryV3.cpp:160-164 | the writeback holds only live actors of the hits |
| DeliveryHits.NearestUnique | Plugins/IMOPSpellSystem/Source/IMOPSpellSystemRuntime/Private/Delivery/Drivers/DeliveryDriver_MoverV3.cpp:113-121 | at most one actor is nearest with the unique-id tie-break, so the deterministic scans agree |
| DeliveryHits.ChooseNearest | Plugins/IMOPSpellSystem/Source/IMOPSpellSystemRuntime/Private/Delivery/Drivers/DeliveryDriver_MoverV3.cpp:89-124 | the homing / lock-on scan returns None exactly when no reference is live, otherwise the nearest live actor with ties to the smaller unique id |
| DeliveryHits.ChooseLowestId | Plugins/IMOPSpellSystem/Source/IMOPSpellSystemRuntime/Private/Delivery/Drivers/DeliveryDriver_BeamV3.cpp:52-70 | the lock-target scan returns None exactly when no reference is live, otherwise the live actor with the smallest unique id |
| DeliveryHits.LiveActors | Plugins/IMOPSpellSystem/Source/IMOPSpellSystemRuntime/Private/Delivery/Drivers/DeliveryDriver_BeamV3.cpp:56-60 | exactly the actors that some live reference points to |
| DeliveryHits.LowestLiveId | Plugins/IMOPSpellSystem/Source/IMOPSpellSystemRuntime/Private/Delivery/Drivers/DeliveryDriver_BeamV3.cpp:52-70 | None exactly when no reference is live, otherwise a live actor whose unique id is the smallest |
| DeliveryHits.LowestIdUnique | Plugins/IMOPSpellSystem/Source/IMOPSpellSystemRuntime/Private/Delivery/Drivers/DeliveryDriver_BeamV3.cpp:61-64 | at most one live actor has the smallest unique id |
| DeliveryHits.NearestLive | Plugins/IMOPSpellSystem/Source/IMOPSpellSystemRuntime/Public/Delivery/Drivers/DeliveryDriver_BeamV3.cpp:139-167 | None exactly when no reference is live, otherwise the nearest live actor, ties to the smaller unique id |
| DeliveryHits.Least | Plugins/IMOPSpellSystem/Source/IMOPSpellSystemRuntime/Private/Delivery/Drivers/DeliveryDriver_BeamV3.cpp:29-35 | the least unique id of a non-empty set belongs to it and is below all others |
| DeliveryHits.SortedActors | Plugins/IMOPSpellSystem/Source/IMOPSpellSystemRuntime/Public/Delivery/Drivers/DeliveryDriver_BeamV3.cpp:30-43 | the actors of the set, each once, in strictly ascending unique-id order |
| DeliveryHits.AscendingSameElements | Plugins/IMOPSpellSystem/Source/IMOPSpellSystemRuntime/Public/Delivery/Drivers/DeliveryDriver_BeamV3.cpp:38-42 | two strictly ascending lists with the same members are equal |
| DeliveryHits.SortedActorsUnique | Plugins/IMOPSpellSystem/Source/IMOPSpellSystemRuntime/Public/Delivery/Drivers/DeliveryDriver_BeamV3.cpp:30-43 | every strictly ascending listing of the set is SortedActors: the sort is deterministic |
| DeliveryHits.RefsTo | Plugins/IMOPSpellSystem/Source/IMOPSpellSystemRuntime/Public/Delivery/Drivers/DeliveryDriver_BeamV3.cpp:219-226 | one live reference per actor, in order |
| DeliveryHits.RefsToAscending | Plugins/IMOPSpellSystem/Source/IMOPSpellSystemRuntime/Public/Delivery/Drivers/DeliveryDriver_BeamV3.cpp:219-226 | references to an ascending actor list are live, distinct and ascending |
| DeliveryHits.WritebackOfSorted | Plugins/IMOPSpellSystem/Source/IMOPSpellSystemRuntime/Public/Delivery/Drivers/DeliveryDriver_BeamV3.cpp:213-232 | writing back a sorted actor list keeps exactly that list |
| DeliveryHits.ActorSet | Plugins/IMOPSpellSystem/Source/IMOPSpellSystemRuntime/Private/Delivery/Drivers/DeliveryDriver_FieldV3.cpp:144-150 | the set of actors of the hits that have an actor |
| DeliveryHits.ActorSetSnoc | Plugins/IMOPSpellSystem/Source/IMOPSpellSystemRuntime/Private/Delivery/Drivers/DeliveryDriver_FieldV3.cpp:144-150 | the actor set of one more hit adds that hit's actor, if any |
| DeliveryHits.CollectActors | Plugins/IMOPSpellSystem/Source/IMOPSpellSystemRuntime/Private/Delivery/Drivers/DeliveryDriver_FieldV3.cpp:124-150 | the set-building loop collects exactly the actors of the hits |
| DeliveryHits.AddActorsUnique | Plugins/IMOPSpellSystem/Source/IMOPSpellSystemRuntime/Public/Delivery/Drivers/DeliveryDriver_BeamV3.cpp:219-226 | the writeback loop over an actor list yields AddUnique of each in turn, with no duplicate and every listed actor present |
| DeliveryHits.DistinctActorsWrittenAsListed | Plugins/IMOPSpellSystem/Source/IMOPSpellSystemRuntime/Public/Delivery/Drivers/DeliveryDriver_BeamV3.cpp:219-226 | distinct actors are written back in the order listed |
| DeliveryHits.EvaluationDueMeaning | Plugins/IMOPSpellSystem/Source/IMOPSpellSystemRuntime/Private/Delivery/Drivers/DeliveryDriver_BeamV3.cpp:97-107 | an evaluation is due exactly when the interval is not positive or has fully elapsed |
| DeliveryHits.ResolveOutTargetSetName | Plugins/IMOPSpellSystem/Source/IMOPSpellSystemRuntime/Private/Delivery/Drivers/DeliveryDriver_InstantQueryV3.cpp:16-27 | the primitive's out set when named, else the group's default when it has one, else no name |
| ContextBeam.FirstAppearances | Plugins/IMOPSpellSystem/Source/IMOPSpellSystemRuntime/Public/Delivery/Drivers/DeliveryDriver_BeamV3.cpp:50-65 | each live actor of the hits exactly once, and nothing else |
| ContextBeam.FirstAppearanceOrder | Plugins/IMOPSpellSystem/Source/IMOPSpellSystemRuntime/Public/Delivery/Drivers/DeliveryDriver_BeamV3.cpp:50-65 | an actor listed before another first occurs in the hits before the other occurs at all |
| ContextBeam.NearerActorsListedFirst | Plugins/IMOPSpellSystem/Source/IMOPSpellSystemRuntime/Public/Delivery/Drivers/DeliveryDriver_BeamV3.cpp:45-66 | over sorted hits an earlier-listed actor has a hit that sorts no later than any hit of a later-listed actor |
| ContextBeam.Listed | Plugins/IMOPSpellSystem/Source/IMOPSpellSystemRuntime/Public/Delivery/Drivers/DeliveryDriver_BeamV3.cpp:56-60 | the linear search reports exactly whether the actor is already listed |
| ContextBeam.BuildSortedActorsFromHits | Plugins/IMOPSpellSystem/Source/IMOPSpellSystemRuntime/Public/Delivery/Drivers/DeliveryDriver_BeamV3.cpp:45-66 | the actors of the sorted hits, each once, in order of first appearance |
| ContextBeam.SetMinus | Plugins/IMOPSpellSystem/Source/IMOPSpellSystemRuntime/Public/Delivery/Drivers/DeliveryDriver_BeamV3.cpp:460-473 | the remove loops leave exactly the set difference |
| ContextBeam.ActorSetOfPermutation | Plugins/IMOPSpellSystem/Source/IMOPSpellSystemRuntime/Public/Delivery/Drivers/DeliveryDriver_BeamV3.cpp:452-458 | the inside set does not depend on the order of the hits |
| ContextBeam.LockOn | Plugins/IMOPSpellSystem/Source/IMOPSpellSystemRuntime/Public/Delivery/Drivers/DeliveryDriver_BeamV3.cpp:138-168 | with lock-on, a store, a set name and a stored set: None exactly when no reference is live, otherwise the nearest live actor, ties to the smaller StableId; otherwise None |
| ContextBeam.BatchEventsKinds | Plugins/IMOPSpellSystem/Source/IMOPSpellSystemRuntime/Public/Delivery/Drivers/DeliveryDriver_BeamV3.cpp:234-323 | with a subsystem and the heartbeat: Enter and Exit exactly when their lists are non-empty, Stay exactly when bEmitStay is set and the list is non-empty, each with its list, and Tick last |
| ContextBeam.EnterReported | Plugins/IMOPSpellSystem/Source/IMOPSpellSystemRuntime/Public/Delivery/Drivers/DeliveryDriver_BeamV3.cpp:460-466 | Enter is raised exactly when some hit actor was not inside, listing exactly those actors ascending; the inside set becomes the hit actors and Tick comes last |
| ContextBeam.ExitReported | Plugins/IMOPSpellSystem/Source/IMOPSpellSystemRuntime/Public/Delivery/Drivers/DeliveryDriver_BeamV3.cpp:468-474 | Exit is raised exactly when some inside actor was not hit, listing exactly those actors ascending |
| ContextBeam.StayReported | Plugins/IMOPSpellSystem/Source/IMOPSpellSystemRuntime/Public/Delivery/Drivers/DeliveryDriver_BeamV3.cpp:476-477 | Stay is raised exactly when bEmitStay is set and some hit has an actor, listing the new inside set ascending |
| ContextBeam.NoHitsKeepInside | Plugins/IMOPSpellSystem/Source/IMOPSpellSystemRuntime/Public/Delivery/Drivers/DeliveryDriver_BeamV3.cpp:440-443 | a query with no hit keeps the inside set, raises only the heartbeat and writes nothing |
| ContextBeam.EvaluationWriteback | Plugins/IMOPSpellSystem/Source/IMOPSpellSystemRuntime/Public/Delivery/Drivers/DeliveryDriver_BeamV3.cpp:303-304 | the writeback happens exactly with the Stay event when an out set is named, holding each inside actor once ascending; without a subsystem nothing is raised or written but the inside set is still replaced |
| ContextBeam.ContextBeamDriver.constructor | Plugins/IMOPSpellSystem/Source/IMOPSpellSystemRuntime/Public/Delivery/Drivers/DeliveryDriverBaseV3.h:37-38 | a fresh driver is inactive, with nothing inside and no events |
| ContextBeam.ContextBeamDriver.ResolveLock | Plugins/IMOPSpellSystem/Source/IMOPSpellSystemRuntime/Public/Delivery/Drivers/DeliveryDriver_BeamV3.cpp:136-168 | the lock-on scan returns LockOn of the stored lock set |
| ContextBeam.ContextBeamDriver.WritebackTargets | Plugins/IMOPSpellSystem/Source/IMOPSpellSystemRuntime/Public/Delivery/Drivers/DeliveryDriver_BeamV3.cpp:213-232 | nothing without a store or an out set name; otherwise the listed actors, each once, stored under the out set |
| ContextBeam.ContextBeamDriver.EmitEnterExitStayTick | Plugins/IMOPSpellSystem/Source/IMOPSpellSystemRuntime/Public/Delivery/Drivers/DeliveryDriver_BeamV3.cpp:234-323 | appends BatchEvents to the event log and writes the Stay list back alongside the Stay event |
| ContextBeam.ContextBeamDriver.EvaluateBeam | Plugins/IMOPSpellSystem/Source/IMOPSpellSystemRuntime/Public/Delivery/Drivers/DeliveryDriver_BeamV3.cpp:406-506 | the inside set, the event log and the store follow EvaluationOf the hits |
| ContextBeam.ContextBeamDriver.Tick | Plugins/IMOPSpellSystem/Source/IMOPSpellSystemRuntime/Public/Delivery/Drivers/DeliveryDriver_BeamV3.cpp:359-404 | inactive nothing changes; otherwise the clocks advance by max(0, dt), an elapsed MaxDuration stops with DurationElapsed, the interval gates evaluation and resets the accumulator, and an unresolved direction skips the query |
| ContextBeam.ContextBeamDriver.Start | Plugins/IMOPSpellSystem/Source/IMOPSpellSystemRuntime/Public/Delivery/Drivers/DeliveryDriver_BeamV3.cpp:325-357 | takes the spec with clocks at 0 and nothing inside; active exactly when there is a world, Started raised when there is a subsystem |
| ContextBeam.ContextBeamDriver.Stop | Plugins/IMOPSpellSystem/Source/IMOPSpellSystemRuntime/Public/Delivery/Drivers/DeliveryDriver_BeamV3.cpp:508-522 | a no-op when inactive; otherwise deactivates, raises Stopped with the reason when it can, and empties the inside set |
| GroupBeam.LockPick | Plugins/IMOPSpellSystem/Source/IMOPSpellSystemRuntime/Private/Delivery/Drivers/DeliveryDriver_BeamV3.cpp:37-71 | None for a None name, a missing store or a missing set; otherwise None exactly when no reference is live, else the live actor with the smallest StableId |
| GroupBeam.BeamEventsMeaning | Plugins/IMOPSpellSystem/Source/IMOPSpellSystemRuntime/Private/Delivery/Drivers/DeliveryDriver_BeamV3.cpp:252-265 | Enter exactly when some actor is new, Exit exactly when some actor left, Stay exactly when the beam holds an actor, and Hit only with the number of actors inside |
| GroupBeam.WritebackIsSortedInside | Plugins/IMOPSpellSystem/Source/IMOPSpellSystemRuntime/Private/Delivery/Drivers/DeliveryDriver_BeamV3.cpp:200-230 | the written set holds each inside actor once, in strictly ascending unique-id order |
| GroupBeam.SortedRefsCover | Plugins/IMOPSpellSystem/Source/IMOPSpellSystemRuntime/Private/Delivery/Drivers/DeliveryDriver_BeamV3.cpp:200-230 | every inside actor is written back |
| GroupBeam.SortedRefsOnlyInside | Plugins/IMOPSpellSystem/Source/IMOPSpellSystemRuntime/Private/Delivery/Drivers/DeliveryDriver_BeamV3.cpp:200-230 | only inside actors are written back, each as a live reference |
| GroupBeam.CountNotIn | Plugins/IMOPSpellSystem/Source/IMOPSpellSystemRuntime/Private/Delivery/Drivers/DeliveryDriver_BeamV3.cpp:234-250 | the counting loops count exactly the members of one set missing from the other |
| GroupBeam.EvaluationEvents | Plugins/IMOPSpellSystem/Source/IMOPSpellSystemRuntime/Private/Delivery/Drivers/DeliveryDriver_BeamV3.cpp:232-265 | the callbacks of one evaluation are BeamEvents of the old and new inside sets |
| GroupBeam.PickLockTargetDeterministic | Plugins/IMOPSpellSystem/Source/IMOPSpellSystemRuntime/Private/Delivery/Drivers/DeliveryDriver_BeamV3.cpp:37-71 | the scan over the store's set returns LockPick |
| GroupBeam.WriteInside | Plugins/IMOPSpellSystem/Source/IMOPSpellSystemRuntime/Private/Delivery/Drivers/DeliveryDriver_BeamV3.cpp:200-230 | the store gains the sorted inside actors under the resolved out set name, or is unchanged when the name resolves to none |
| GroupBeam.GroupBeamDriver.constructor | Plugins/IMOPSpellSystem/Source/IMOPSpellSystemRuntime/Public/Delivery/Drivers/DeliveryDriverBaseV3.h:37-38 | a fresh driver is inactive, with nothing inside and no callbacks |
| GroupBeam.GroupBeamDriver.EvaluateBeam | Plugins/IMOPSpellSystem/Source/IMOPSpellSystemRuntime/Private/Delivery/Drivers/DeliveryDriver_BeamV3.cpp:110-265 | without a world or a group nothing changes; otherwise the inside set, the callbacks and the store follow BeamOutcomeOf the query's hits aimed at the lock target |
| GroupBeam.GroupBeamDriver.Tick | Plugins/IMOPSpellSystem/Source/IMOPSpellSystemRuntime/Private/Delivery/Drivers/DeliveryDriver_BeamV3.cpp:89-108 | inactive or without a group nothing changes; otherwise the Tick callback is made, the accumulator grows by dt and, when an evaluation is due, is reset and the beam is evaluated |
| GroupBeam.GroupBeamDriver.Start | Plugins/IMOPSpellSystem/Source/IMOPSpellSystemRuntime/Private/Delivery/Drivers/DeliveryDriver_BeamV3.cpp:73-87 | takes the spec, becomes active with nothing inside and a zero accumulator, makes the Started callback and evaluates at once |
| GroupBeam.GroupBeamDriver.Stop | Plugins/IMOPSpellSystem/Source/IMOPSpellSystemRuntime/Private/Delivery/Drivers/DeliveryDriver_BeamV3.cpp:273-287 | a no-op when inactive; otherwise deactivates, empties the inside set and makes the Stopped callback with the reason |
| FieldDriver.FieldEnterMeaning | Plugins/IMOPSpellSystem/Source/IMOPSpellSystemRuntime/Private/Delivery/Drivers/DeliveryDriver_FieldV3.cpp:158-186 | Enter is raised exactly when enter/exit events are on and some actor is new, listing exactly the new actors |
| FieldDriver.FieldExitMeaning | Plugins/IMOPSpellSystem/Source/IMOPSpellSystemRuntime/Private/Delivery/Drivers/DeliveryDriver_FieldV3.cpp:188-216 | Exit is raised exactly when enter/exit events are on and some actor left, listing exactly those actors |
| FieldDriver.FieldStayMeaning | Plugins/IMOPSpellSystem/Source/IMOPSpellSystemRuntime/Private/Delivery/Drivers/DeliveryDriver_FieldV3.cpp:218-238 | Stay is raised exactly when stay events are on and the field holds an actor, listing all of them |
| FieldDriver.EventsFromPieces | Plugins/IMOPSpellSystem/Source/IMOPSpellSystemRuntime/Private/Delivery/Drivers/DeliveryDriver_FieldV3.cpp:156-238 | each kind of event of one evaluation comes from its own block |
| FieldDriver.EnterPiece | Plugins/IMOPSpellSystem/Source/IMOPSpellSystemRuntime/Private/Delivery/Drivers/DeliveryDriver_FieldV3.cpp:158-186 | the Enter block raises at most one event, listing the new actors |
| FieldDriver.ExitPiece | Plugins/IMOPSpellSystem/Source/IMOPSpellSystemRuntime/Private/Delivery/Drivers/DeliveryDriver_FieldV3.cpp:188-216 | the Exit block raises at most one event, listing the actors that left |
| FieldDriver.StayPiece | Plugins/IMOPSpellSystem/Source/IMOPSpellSystemRuntime/Private/Delivery/Drivers/DeliveryDriver_FieldV3.cpp:218-238 | the Stay block raises at most one event, listing the actors inside |
| FieldDriver.ListMissing | Plugins/IMOPSpellSystem/Source/IMOPSpellSystemRuntime/Private/Delivery/Drivers/DeliveryDriver_FieldV3.cpp:161-170 | the Enter and Exit loops keep exactly the listed actors missing from the other set, in order |
| FieldDriver.EnterHits | Plugins/IMOPSpellSystem/Source/IMOPSpellSystemRuntime/Private/Delivery/Drivers/DeliveryDriver_FieldV3.cpp:158-186 | the Enter loop over the new set raises EnterEvents |
| FieldDriver.ExitHits | Plugins/IMOPSpellSystem/Source/IMOPSpellSystemRuntime/Private/Delivery/Drivers/DeliveryDriver_FieldV3.cpp:188-216 | the Exit loop over the old set raises ExitEvents |
| FieldDriver.FieldDeliveryDriver.constructor | Plugins/IMOPSpellSystem/Source/IMOPSpellSystemRuntime/Public/Delivery/Drivers/DeliveryDriverBaseV3.h:37-38 | a fresh driver is inactive with an empty current set and no events |
| FieldDriver.FieldDeliveryDriver.Evaluate | Plugins/IMOPSpellSystem/Source/IMOPSpellSystemRuntime/Private/Delivery/Drivers/DeliveryDriver_FieldV3.cpp:112-241 | without a world nothing changes; otherwise FieldEvents are raised and the overlap's actors become the current set |
| FieldDriver.FieldDeliveryDriver.Tick | Plugins/IMOPSpellSystem/Source/IMOPSpellSystemRuntime/Private/Delivery/Drivers/DeliveryDriver_FieldV3.cpp:93-110 | inactive nothing changes; otherwise dt accumulates and, once max(0.01, TickInterval) has accumulated, the accumulator resets and the field is evaluated |
| FieldDriver.FieldDeliveryDriver.Start | Plugins/IMOPSpellSystem/Source/IMOPSpellSystemRuntime/Private/Delivery/Drivers/DeliveryDriver_FieldV3.cpp:65-91 | takes the config, becomes active with a zero accumulator and an empty current set, and raises Started without evaluating |
| FieldDriver.FieldDeliveryDriver.Stop | Plugins/IMOPSpellSystem/Source/IMOPSpellSystemRuntime/Private/Delivery/Drivers/DeliveryDriver_FieldV3.cpp:243-271 | a no-op when inactive; otherwise deactivates, empties the current set and raises Stopped with the reason |
| FieldDriver.FieldDueMeaning | Plugins/IMOPSpellSystem/Source/IMOPSpellSystemRuntime/Private/Delivery/Drivers/DeliveryDriver_FieldV3.cpp:102-106 | an evaluation is due exactly when at least 0.01 and at least the configured interval have accumulated |
| MoverDriver.HomingTarget | Plugins/IMOPSpellSystem/Source/IMOPSpellSystemRuntime/Private/Delivery/Drivers/DeliveryDriver_MoverV3.cpp:89-124 | None without a store, a set name or a stored set; otherwise None exactly when no reference is live, else the nearest live actor, ties to the smaller StableId |
| MoverDriver.ScanReportsFresh | Plugins/IMOPSpellSystem/Source/IMOPSpellSystemRuntime/Private/Delivery/Drivers/DeliveryDriver_MoverV3.cpp:472-502 | the hit loop reports no actor twice, none already hit, each the actor of a scanned hit, and the unique-hit set grows by exactly the reported actors |
| MoverDriver.ScanCounts | Plugins/IMOPSpellSystem/Source/IMOPSpellSystemRuntime/Private/Delivery/Drivers/DeliveryDriver_MoverV3.cpp:490-501 | without pierce at most one actor is reported and the count stays; with pierce the count grows by the number reported and, starting below a positive MaxPierceHits, never passes it |
| MoverDriver.ScanEmptyIffNoFresh | Plugins/IMOPSpellSystem/Source/IMOPSpellSystemRuntime/Private/Delivery/Drivers/DeliveryDriver_MoverV3.cpp:472-502 | the loop reports nothing exactly when no scanned hit has a live actor not hit before |
| MoverDriver.ScanFirstFresh | Plugins/IMOPSpellSystem/Source/IMOPSpellSystemRuntime/Private/Delivery/Drivers/DeliveryDriver_MoverV3.cpp:497-501 | without pierce the one actor reported is that of the first hit with a fresh actor |
| MoverDriver.ScanUncappedComplete | Plugins/IMOPSpellSystem/Source/IMOPSpellSystemRuntime/Private/Delivery/Drivers/DeliveryDriver_MoverV3.cpp:490-496 | with pierce and no positive MaxPierceHits every fresh actor of the hits is reported |
| MoverDriver.MoverDeliveryDriver.constructor | Plugins/IMOPSpellSystem/Source/IMOPSpellSystemRuntime/Public/Delivery/Drivers/DeliveryDriverBaseV3.h:37-38 | a fresh driver is inactive, with no events, and satisfies the driver invariant |
| MoverDriver.MoverDeliveryDriver.ChooseHomingTargetDeterministic | Plugins/IMOPSpellSystem/Source/IMOPSpellSystemRuntime/Private/Delivery/Drivers/DeliveryDriver_MoverV3.cpp:89-124 | the scan returns HomingTarget of the stored homing set |
| MoverDriver.MoverDeliveryDriver.Stop | Plugins/IMOPSpellSystem/Source/IMOPSpellSystemRuntime/Private/Delivery/Drivers/DeliveryDriver_MoverV3.cpp:580-618 | a no-op when inactive; otherwise deactivates and raises Stopped with the reason when it can, keeping the invariant |
| MoverDriver.MoverDeliveryDriver.Start | Plugins/IMOPSpellSystem/Source/IMOPSpellSystemRuntime/Private/Delivery/Drivers/DeliveryDriver_MoverV3.cpp:126-215 | takes the spec and resets distance, clocks, pierce count and unique-hit set; active exactly when there is a world, Started raised when there is a subsystem |
| MoverDriver.MoverDeliveryDriver.EvaluateSweep | Plugins/IMOPSpellSystem/Source/IMOPSpellSystemRuntime/Private/Delivery/Drivers/DeliveryDriver_MoverV3.cpp:409-578 | without a world, a blocking hit or any hit nothing changes; otherwise the sorted hits are scanned, a non-empty report is raised as a Hit batch and written back, and the mover stops when StopsAfterHit holds; the invariant is kept |
| MoverDriver.MoverDeliveryDriver.ReportHits | Plugins/IMOPSpellSystem/Source/IMOPSpellSystemRuntime/Private/Delivery/Drivers/DeliveryDriver_MoverV3.cpp:520-577 | nothing for an empty report; else the writeback and the Hit batch when there is a subsystem, then the stop on hit |
| MoverDriver.MoverDeliveryDriver.RecordHits | Plugins/IMOPSpellSystem/Source/IMOPSpellSystemRuntime/Private/Delivery/Drivers/DeliveryDriver_MoverV3.cpp:472-502 | the unique-hit set, the pierce count and the reported list follow Scan of the sorted hits; no actor is reported twice |
| MoverDriver.MoverDeliveryDriver.WriteHits | Plugins/IMOPSpellSystem/Source/IMOPSpellSystemRuntime/Private/Delivery/Drivers/DeliveryDriver_MoverV3.cpp:538-556 | the reported actors, each once in order, stored under the out set when a subsystem and an out set exist |
| MoverDriver.MoverDeliveryDriver.ScanHits | Plugins/IMOPSpellSystem/Source/IMOPSpellSystemRuntime/Private/Delivery/Drivers/DeliveryDriver_MoverV3.cpp:472-502 | the hit loop over sorted hits computes Scan from the first hit |
| MoverDriver.MoverDeliveryDriver.Tick | Plugins/IMOPSpellSystem/Source/IMOPSpellSystemRuntime/Private/Delivery/Drivers/DeliveryDriver_MoverV3.cpp:217-358 | inactive nothing changes; otherwise the clocks advance by max(0, dt), MaxDuration stops with DurationElapsed, the interval gates the step, a reached MaxDistance stops without a sweep, else the sweep is evaluated; the distance never decreases and the invariant is kept |
| ShapeHelpers.BuildCollisionShape | Plugins/IMOPSpellSystem/Source/IMOPSpellSystemRuntime/Public/Delivery/Helpers/DeliveryShapeHelpersV3.cpp:3-29 | a shape exactly for Sphere, Box and Capsule, every dimension the field clamped at 0; none for a Ray |
| ShapeHelpers.GetRayLength | Plugins/IMOPSpellSystem/Source/IMOPSpellSystemRuntime/Public/Delivery/Helpers/DeliveryShapeHelpersV3.cpp:31-38 | the shape's ray length for a Ray with a positive length, the default otherwise |
| ShapeHelpers.RayLengthPositive | Plugins/IMOPSpellSystem/Source/IMOPSpellSystemRuntime/Public/Delivery/Helpers/DeliveryShapeHelpersV3.cpp:31-38 | a positive default always gives a positive ray length |
| ShapeHelpers.GetApproxRadius | Plugins/IMOPSpellSystem/Source/IMOPSpellSystemRuntime/Public/Delivery/Helpers/DeliveryShapeHelpersV3.cpp:40-50 | never negative: the clamped radius for Sphere and Capsule, the largest absolute extent for Box, 0 for Ray |
| ShapeHelpers.ApproxRadiusCoversShape | Plugins/IMOPSpellSystem/Source/IMOPSpellSystemRuntime/Public/Delivery/Helpers/DeliveryShapeHelpersV3.cpp:40-50 | the approximate radius is the built radius of spheres and capsules and covers every built box extent |
| QueryHelpers.GetProfileNameOrDefault | Plugins/IMOPSpellSystem/Source/IMOPSpellSystemRuntime/Private/Delivery/Helpers/DeliveryQueryHelpersV3.cpp:51-56 | the policy's profile unless it is None, else the default |
| QueryHelpers.ProfileNeverNone | Plugins/IMOPSpellSystem/Source/IMOPSpellSystemRuntime/Private/Delivery/Helpers/DeliveryQueryHelpersV3.cpp:51-56 | a non-None default always yields a named profile |
| QueryHelpers.BuildQueryParams | Plugins/IMOPSpellSystem/Source/IMOPSpellSystemRuntime/Private/Delivery/Helpers/DeliveryQueryHelpersV3.cpp:12-29 | trace-complex is off and the caster is appended to the ignored actors exactly when the policy asks and there is a caster |
| QueryHelpers.RequestFor | Plugins/IMOPSpellSystem/Source/IMOPSpellSystemRuntime/Private/Delivery/Helpers/DeliveryQueryHelpersV3.cpp:72-94 | a channel request exactly in ByChannel mode, an object-type request exactly in ByObjectType mode, otherwise the profile or its default |
| QueryHelpers.PostFiltered | Plugins/IMOPSpellSystem/Source/IMOPSpellSystemRuntime/Private/Delivery/Helpers/DeliveryQueryHelpersV3.cpp:193-213 | unchanged unless ByObjectType mode has a non-empty list; always a subsequence of the results |
| QueryHelpers.PostFilterKeepsListed | Plugins/IMOPSpellSystem/Source/IMOPSpellSystemRuntime/Private/Delivery/Helpers/DeliveryQueryHelpersV3.cpp:198-212 | when active the post-filter keeps exactly the results with a component whose object type is listed |
| QueryHelpers.ScanObjectTypes | Plugins/IMOPSpellSystem/Source/IMOPSpellSystemRuntime/Private/Delivery/Helpers/DeliveryQueryHelpersV3.cpp:203-210 | the scan reports exactly whether the component's object type is listed |
| QueryHelpers.PostFilterByObjectTypes | Plugins/IMOPSpellSystem/Source/IMOPSpellSystemRuntime/Private/Delivery/Helpers/DeliveryQueryHelpersV3.cpp:193-213 | the in-place RemoveAll leaves PostFiltered of the results |
| QueryHelpers.QueryMulti | Plugins/IMOPSpellSystem/Source/IMOPSpellSystemRuntime/Private/Delivery/Helpers/DeliveryQueryHelpersV3.cpp:58-101 | false without a world, leaving the results as they were; otherwise the engine's answer to RequestFor, post-filtered only when it reported a hit |
| PoseHelpers.FollowStep | Plugins/IMOPSpellSystem/Source/IMOPSpellSystemRuntime/Private/Delivery/Helpers/DeliveryPoseHelpersV3.cpp:29-56 | a World anchor or a mode other than FreezeOnPlace clears the freeze state and keeps the pose; FreezeOnPlace records the first pose and later yields the recorded one |
| PoseHelpers.FreezeHoldsFirstPose | Plugins/IMOPSpellSystem/Source/IMOPSpellSystemRuntime/Private/Delivery/Helpers/DeliveryPoseHelpersV3.cpp:38-48 | after the first FreezeOnPlace step every later step yields the first pose and keeps the state |
| PoseHelpers.DeliveryPoseContext.constructor | Plugins/IMOPSpellSystem/Source/IMOPSpellSystemRuntime/Private/Delivery/Helpers/DeliveryPoseHelpersV3.cpp:58-62 | a new context starts in the state ResetFreeze leaves: not frozen, identity pose, with the given anchor kind and follow mode |
| PoseHelpers.DeliveryPoseContext.ResolveAnchorPoseWS | Plugins/IMOPSpellSystem/Source/IMOPSpellSystemRuntime/Private/Delivery/Helpers/DeliveryPoseHelpersV3.cpp:4-27 | succeeds exactly with a group and a World anchor, which resolves to the identity; otherwise the pose is untouched |
| PoseHelpers.DeliveryPoseContext.ApplyFollowMode | Plugins/IMOPSpellSystem/Source/IMOPSpellSystemRuntime/Private/Delivery/Helpers/DeliveryPoseHelpersV3.cpp:29-56 | the freeze state and the pose follow FollowStep |
| PoseHelpers.DeliveryPoseContext.ResetFreeze | Plugins/IMOPSpellSystem/Source/IMOPSpellSystemRuntime/Private/Delivery/Helpers/DeliveryPoseHelpersV3.cpp:58-62 | the context is unfrozen with the identity pose |
| Attributes.IndexOf | Plugins/IMOPSpellSystem/Source/IMOPSpellSystemRuntime/Public/Attributes/SpellAttributeComponentV3.h:49-57 | the index of an entry carrying the key, with no earlier entry carrying it; None exactly when no entry carries it |
| Attributes.IndexOfFirst | Plugins/IMOPSpellSystem/Source/IMOPSpellSystemRuntime/Public/Attributes/SpellAttributeComponentV3.h:36-39 | the scan stops at the first entry carrying the key |
| Attributes.Lookup | Plugins/IMOPSpellSystem/Source/IMOPSpellSystemRuntime/Public/Attributes/SpellAttributeComponentV3.h:33-42 | a value exactly for a valid key some entry carries, and it is that entry's value |
| Attributes.StoredShape | Plugins/IMOPSpellSystem/Source/IMOPSpellSystemRuntime/Public/Attributes/SpellAttributeComponentV3.h:45-63 | setting keeps keys unique, ignores an invalid key, edits in place for a present key and appends one entry for a new key |
| Attributes.LookupAfterStored | Plugins/IMOPSpellSystem/Source/IMOPSpellSystemRuntime/Public/Attributes/SpellAttributeComponentV3.h:45-63 | after SetValue with a valid key FindValue yields the value set, and every other key reads as before |
| Attributes.AttributeContainer.constructor | Plugins/IMOPSpellSystem/Source/IMOPSpellSystemRuntime/Public/Attributes/SpellAttributeComponentV3.h:30 | a new container has no entries |
| Attributes.AttributeContainer.FindValue | Plugins/IMOPSpellSystem/Source/IMOPSpellSystemRuntime/Public/Attributes/SpellAttributeComponentV3.h:33-42 | true with the entry's value for a present valid key, else false with 0 |
| Attributes.AttributeContainer.SetValue | Plugins/IMOPSpellSystem/Source/IMOPSpellSystemRuntime/Public/Attributes/SpellAttributeComponentV3.h:45-63 | the entry list becomes Stored of the old list, keeping keys unique |
| Attributes.AttributeComponent.constructor | Plugins/IMOPSpellSystem/Source/IMOPSpellSystemRuntime/Private/Attributes/SpellAttributeComponentV3.cpp:3-7 | a new component holds no attributes |
| Attributes.AttributeComponent.GetAttribute | Plugins/IMOPSpellSystem/Source/IMOPSpellSystemRuntime/Private/Attributes/SpellAttributeComponentV3.cpp:9-25 | (true, value) exactly for a valid tag present in the map, else (false, 0) |
| Attributes.AttributeComponent.SetAttribute | Plugins/IMOPSpellSystem/Source/IMOPSpellSystemRuntime/Private/Attributes/SpellAttributeComponentV3.cpp:27-31 | an invalid tag is ignored; otherwise the tag maps to the value and nothing else changes |
| Attributes.AttributeComponent.AddDelta | Plugins/IMOPSpellSystem/Source/IMOPSpellSystemRuntime/Private/Attributes/SpellAttributeComponentV3.cpp:33-39 | the new value is the current value (0 when missing) plus the delta, and it is stored under a valid tag |
| Attributes.GetAfterSet | Plugins/IMOPSpellSystem/Source/IMOPSpellSystemRuntime/Private/Attributes/SpellAttributeComponentV3.cpp:27-31 | GetAttribute after SetAttribute with a valid tag returns the value set |
| Attributes.ApplyAttributeOp | Plugins/IMOPSpellSystem/Source/IMOPSpellSystemRuntime/Private/Attributes/DefaultAttributeProviderV3.cpp:37-47 | Add and Sub shift by the operand, Mul multiplies, Div divides unless the operand is nearly zero (then keeps the value), Override yields the operand, Min and Max the smaller and larger of the two |
| Attributes.ProviderGet | Plugins/IMOPSpellSystem/Source/IMOPSpellSystemRuntime/Private/Attributes/DefaultAttributeProviderV3.cpp:9-17 | (false, 0) without a component, else the component's answer |
| Attributes.MissingReadsZero | Plugins/IMOPSpellSystem/Source/IMOPSpellSystemRuntime/Private/Attributes/DefaultAttributeProviderV3.cpp:9-17 | a missing component or attribute reads as (false, 0) |
| Attributes.ProviderSet | Plugins/IMOPSpellSystem/Source/IMOPSpellSystemRuntime/Private/Attributes/DefaultAttributeProviderV3.cpp:19-27 | true exactly when the target has a component, which then stores the value |
| Attributes.ApplyOp | Plugins/IMOPSpellSystem/Source/IMOPSpellSystemRuntime/Private/Attributes/DefaultAttributeProviderV3.cpp:29-51 | the new value is ApplyAttributeOp of the current value (0 when missing) and the operand; it is stored and the result is true exactly when there is a component |
| EffectResolver.ResistanceComponent.GetResistanceForTag | Plugins/IMOPSpellSystem/Source/IMOPSpellSystemRuntime/Private/Effects/EffectResistanceComponentV3.cpp:3-11 | always in [0, 1]: 0 for an invalid or missing tag, else the stored value clamped to [0, 1] |
| EffectResolver.ResistanceInRangeUnchanged | Plugins/IMOPSpellSystem/Source/IMOPSpellSystemRuntime/Private/Effects/EffectResistanceComponentV3.cpp:6-9 | a stored resistance already in [0, 1] is returned unchanged |
| EffectResolver.RequestTag | Plugins/IMOPSpellSystem/Source/IMOPSpellSystemRuntime/Private/Effects/EffectResolverV3.cpp:43 | a valid tag exactly for a non-empty registered name, and it carries that name |
| EffectResolver.ResistanceTagFor | Plugins/IMOPSpellSystem/Source/IMOPSpellSystemRuntime/Private/Effects/EffectResolverV3.cpp:37-44 | a valid mapped tag only for a tag starting with Effect.Damage. |
| EffectResolver.FirstMapped | Plugins/IMOPSpellSystem/Source/IMOPSpellSystemRuntime/Private/Effects/EffectResolverV3.cpp:35-49 | the position found is within the tags |
| EffectResolver.FirstMappedIsFirst | Plugins/IMOPSpellSystem/Source/IMOPSpellSystemRuntime/Private/Effects/EffectResolverV3.cpp:35-49 | the position found has a valid mapped tag and no earlier tag has one; None exactly when no tag has one |
| EffectResolver.FirstMappedAt | Plugins/IMOPSpellSystem/Source/IMOPSpellSystemRuntime/Private/Effects/EffectResolverV3.cpp:35-49 | the earliest tag with a valid mapped resistance tag is the one found |
| EffectResolver.FirstMappedNone | Plugins/IMOPSpellSystem/Source/IMOPSpellSystemRuntime/Private/Effects/EffectResolverV3.cpp:35-49 | without any mappable tag nothing is found |
| EffectResolver.ResistanceFallback | Plugins/IMOPSpellSystem/Source/IMOPSpellSystemRuntime/Private/Effects/EffectResolverV3.cpp:27-51 | always in [0, 1]; 0 without a target, a resistance component or a mappable tag |
| EffectResolver.ResistanceFromFirstDamageTag | Plugins/IMOPSpellSystem/Source/IMOPSpellSystemRuntime/Private/Effects/EffectResolverV3.cpp:35-47 | the resistance used is the component's value for the tag mapped from the first mappable Effect.Damage. tag |
| EffectResolver.ComputeResistanceFallback | Plugins/IMOPSpellSystem/Source/IMOPSpellSystemRuntime/Private/Effects/EffectResolverV3.cpp:27-51 | the scan returns ResistanceFallback |
| EffectResolver.CheckImmunityFallback | Plugins/IMOPSpellSystem/Source/IMOPSpellSystemRuntime/Private/Effects/EffectResolverV3.cpp:53-74 | immune exactly when the target has an immunity component, some effect tag starts with Effect.Control and the registered Immunity.Control tag is among its immunities; the reason text accompanies success |
| EffectResolver.TryGetNumeric | Plugins/IMOPSpellSystem/Source/IMOPSpellSystemRuntime/Private/Effects/EffectResolverV3.cpp:76-87 | succeeds exactly for Float, Int and Bool values, converting them (true to 1, false to 0); otherwise (false, 0) |
| EffectResolver.SubsystemGet | Plugins/IMOPSpellSystem/Source/IMOPSpellSystemRuntime/Private/Attributes/AttributeSubsystemV3.cpp:8-16 | (false, 0) without a provider or a target, else the provider's answer |
| EffectResolver.SubsystemApply | Plugins/IMOPSpellSystem/Source/IMOPSpellSystemRuntime/Private/Attributes/AttributeSubsystemV3.cpp:18-26 | (false, 0) and no state change without a provider or a target, else the provider's op |
| EffectResolver.EvaluateMagnitude | Plugins/IMOPSpellSystem/Source/IMOPSpellSystemRuntime/Private/Effects/EffectResolverV3.cpp:89-141 | 0 without a target; the constant; the variable's numeric value or 0 when the store, the variable or a number is missing; the target's attribute or 0 when the subsystem or the attribute is missing |
| EffectResolver.NonNumericVariableIsZero | Plugins/IMOPSpellSystem/Source/IMOPSpellSystemRuntime/Private/Effects/EffectResolverV3.cpp:110-119 | a missing or non-numeric variable gives magnitude 0 |
| EffectResolver.ApplyModifyAttribute | Plugins/IMOPSpellSystem/Source/IMOPSpellSystemRuntime/Private/Effects/EffectResolverV3.cpp:143-165 | Failed with "No AttributeSubsystem" without the subsystem; Failed when the op fails; otherwise Applied with the attribute and the final magnitude |
| EffectResolver.ApplyForceOutcome | Plugins/IMOPSpellSystem/Source/IMOPSpellSystemRuntime/Private/Effects/EffectResolverV3.cpp:167-210 | succeeds exactly for a target with a primitive root or character movement, with outcome Applied; otherwise Failed |
| EffectResolver.MitigationFactor | Plugins/IMOPSpellSystem/Source/IMOPSpellSystemRuntime/Private/Effects/EffectResolverV3.cpp:250 | always in [0, 1], and exactly 1 - resistance for a resistance in [0, 1] |
| EffectResolver.MitigatedFields | Plugins/IMOPSpellSystem/Source/IMOPSpellSystemRuntime/Private/Effects/EffectResolverV3.cpp:241-254 | the factor is clamp(1 - resistance, 0, 1), the final magnitude is raw times factor, and the raw magnitude is 0 for any kind but ModifyAttribute |
| EffectResolver.GatesFail | Plugins/IMOPSpellSystem/Source/IMOPSpellSystemRuntime/Private/Effects/EffectResolverV3.cpp:216-228 | without authority or without a target the result is Failed and false, and the provider state is unchanged |
| EffectResolver.ImmuneBeforeMagnitude | Plugins/IMOPSpellSystem/Source/IMOPSpellSystemRuntime/Private/Effects/EffectResolverV3.cpp:230-239 | an immune target gives Immune and false, with no magnitude and no provider call |
| EffectResolver.MitigationApplied | Plugins/IMOPSpellSystem/Source/IMOPSpellSystemRuntime/Private/Effects/EffectResolverV3.cpp:241-254 | past the gates the result carries the raw magnitude, the mitigation factor and the final magnitude, whatever the kind and the op's outcome |
| EffectResolver.UnknownKindFails | Plugins/IMOPSpellSystem/Source/IMOPSpellSystemRuntime/Private/Effects/EffectResolverV3.cpp:264-267 | an unknown kind fails with no provider call |
| EffectResolver.ModifySucceedsIff | Plugins/IMOPSpellSystem/Source/IMOPSpellSystemRuntime/Private/Effects/EffectResolverV3.cpp:256-259 | a ModifyAttribute effect succeeds exactly when the gates pass, the subsystem is there and the op succeeds with the final magnitude, recording Applied, the attribute and that magnitude |
| EffectResolver.ResolveAndApply | Plugins/IMOPSpellSystem/Source/IMOPSpellSystemRuntime/Private/Effects/EffectResolverV3.cpp:212-269 | the result, the success flag and the provider state are those of Resolved |
| EffectResolver.MitigateAndApply | Plugins/IMOPSpellSystem/Source/IMOPSpellSystemRuntime/Private/Effects/EffectResolverV3.cpp:241-268 | past the gates: the kind switch applied to the mitigated result |
| EffectResolver.ResolveAll | Plugins/IMOPSpellSystem/Source/IMOPSpellSystemRuntime/Private/Effects/EffectResolverSubsystemV3.cpp:20-27 | one success flag and one result per target |
| EffectResolver.ResolveAllLast | Plugins/IMOPSpellSystem/Source/IMOPSpellSystemRuntime/Private/Effects/EffectResolverSubsystemV3.cpp:20-27 | the last target is resolved against the provider state the earlier ones left |
| EffectResolver.NullTargetReported | Plugins/IMOPSpellSystem/Source/IMOPSpellSystemRuntime/Private/Effects/EffectResolverSubsystemV3.cpp:22-25 | a null target still contributes a Failed, unsuccessful result at its own position |
| EffectResolver.ResolveAndApplyToTargets | Plugins/IMOPSpellSystem/Source/IMOPSpellSystemRuntime/Private/Effects/EffectResolverSubsystemV3.cpp:9-30 | one result per target, in target order, each against the state the previous ones left; true exactly when some target succeeded; nothing for no targets |
| ReadAttribute.FoundValues | Plugins/IMOPSpellSystem/Source/IMOPSpellSystemRuntime/Private/Effects/Exec_ReadAttributeV3.cpp:31-55 | at most one value per target: those the provider finds for the live targets, in set order |
| ReadAttribute.FoundValuesPrefix | Plugins/IMOPSpellSystem/Source/IMOPSpellSystemRuntime/Private/Effects/Exec_ReadAttributeV3.cpp:31-55 | the values found over a prefix of the set are a prefix of those found over the set |
| ReadAttribute.FirstFoundIsEarliest | Plugins/IMOPSpellSystem/Source/IMOPSpellSystemRuntime/Private/Effects/Exec_ReadAttributeV3.cpp:39-53 | without summing the value stored is that of the earliest live target the provider finds the attribute on |
| ReadAttribute.NoneFoundBefore | Plugins/IMOPSpellSystem/Source/IMOPSpellSystemRuntime/Private/Effects/Exec_ReadAttributeV3.cpp:31-55 | targets on which nothing is found contribute no value |
| ReadAttribute.NothingFoundReadsZero | Plugins/IMOPSpellSystem/Source/IMOPSpellSystemRuntime/Private/Effects/Exec_ReadAttributeV3.cpp:57-59 | when nothing is found the stored value is 0, summing or not |
| ReadAttribute.Execute | Plugins/IMOPSpellSystem/Source/IMOPSpellSystemRuntime/Private/Effects/Exec_ReadAttributeV3.cpp:13-62 | nothing happens without a payload, either store or a world context, or when the set is missing or no provider is ready; otherwise the out variable becomes the Float ReadResult: the first found value, or the sum of all found values |

## Left out

- Engine collision queries (line traces, sweeps, overlaps, sphere overlaps, line-of-sight traces) are parameters that return the hits; only the sorting, filtering, diffing, capping and counting applied to their answers are modelled.
- Float vector and transform math is not modelled: mover motion integration (ballistic and homing), anchor pose composition, rig evaluation, motion payloads and target-set centroids. Poses, step distances and squared distances are inputs; floats are reals without IEEE rounding.
- Physics impulses and character launches of the force effect are not modelled; only the outcome the resolver reports for it is.
- Networking and replication are not modelled: RPC routing, replicated properties and fast-array dirty marking.
- The debug widgets, HUD, debug library, input router, logging and debug drawing are presentation and are left out.
- The gameplay-tag manager singleton is abstract: a requested tag is valid exactly when its name is registered, given as a set of names.
- `GetUniqueID` and `GetFName` are abstract: actors are distinct natural-number ids and names come from a function parameter.
- The random stream is a parameter `pick` constrained to return a value in [0, i] for step i.
- Private/Delivery/Drivers/Exec_StopDeliveryV3.cpp is not part of this model: it duplicates the stop executor with a different precedence (handle, then id, ignoring the primitive); Private/Delivery/Exec_StopDeliveryV3.cpp, declared in Public/Delivery/Exec_StopDeliveryV3.h, is the one modelled.
- The thin action executors that only forward to the modelled stores and subsystems are not modelled individually; what the runtime does with an executor (lookup, reuse, skip gates, call order) is.
- Editor-only payload initialisation and the build files are left out.
- The delivery subsystem's per-frame tick sequencing (which phases run in which order across all groups in one frame) is not modelled; each phase is modelled as its own operation.
- Where a header declares a different API from its `.cpp` (the Mover, Field and context Beam drivers' Start, the event bus's Subscribe and Unsubscribe, the attribute container's map, the freeze fields of the pose context, the shape's capsule radius and ray length), the model follows the `.cpp`.
- Exec_ReadAttributeV3.cpp calls `TryGet` on the target store, which the store does not declare; the model reads the set with `Get`.
- Status.Merge: stack addition is on unbounded integers; the int32 wrap-around of a very large `Stacks + AddStacks` before clamping is not modelled.
- Status.StatusComponent.UpsertStatus: the same unbounded stack arithmetic as `Status.Merge`.
- DeliverySubsystem.DeliverySubsystem.StartDelivery: the per-(runtime, id) instance counters are unbounded; int32 wrap-around is not modelled.
- DeliverySubsystem.DeliverySubsystem.StartDelivery: the events each driver raises itself (`EmitPrimitiveStarted` before its Start, and whatever its Start emits) are not listed here, since the driver models carry them; a driver the factory fails to create, which the source skips without an event, is not modelled; every named primitive gets a driver. A bus that cannot be resolved, which makes the source drop the Started event, is not modelled: the event is always listed.
- EventBus.SpellEventBus.Emit: the source calls each listener's `OnSpellEvent` synchronously while it walks the live subscriber array; the model returns the recipients computed over the array after the dead-listener sweep. A listener that subscribes, unsubscribes or emits from inside its callback (SpellRuntime.Stop unsubscribes; the delivery subsystem hears its own Stopped event) changes that array mid-walk in the source, and this re-entrancy is not modelled.
- ContextBeam.ContextBeamDriver.EvaluateBeam: the inside sets hold actor ids, not weak pointers; an actor destroyed between evaluations stays in the set in the model, where the source's weak pointer would go stale. GroupBeam.GroupBeamDriver.EvaluateBeam keeps its inside set the same way.
- DeliverySubsystem.HashCombineVectors: the seed hash is modelled bit for bit and pinned by three reference values; its collision freedom is not claimed or proved.
- TargetingTypes.TargetSet.RemoveInvalid: the in-place array compaction of the target set is modelled as a value function returning the new set.
- TargetingTypes.TargetSet.AddUnique: modelled as a value function returning the new set rather than an in-place append.
- TargetingSpatial.SortByDistanceTo: references the comparator ties on (equal distance key and equal unique id) keep the insertion sort's order, which the engine's unstable sort need not reproduce.
- TargetingSelection.Select: Random selection is specified as the first WantCount entries of a permutation of the work list; the exact shuffle is fixed by the `pick` parameter, not by a random stream.
- Trace.SpellTrace.Record: requires a non-negative `MaxEventsPerRuntime`; with a negative setting the source asks its trimming step to remove more entries than the bucket holds.
- FieldDriver.FieldDeliveryDriver.Evaluate: the set of overlapping actors is a `TSet` whose iteration order the engine does not specify; the model lists it in ascending actor id order.
- FieldDriver.FieldDeliveryDriver.Start: requires a world with a delivery subsystem because the source dereferences it without a check.
- FieldDriver.FieldDeliveryDriver.Evaluate: requires that a present world carries a delivery subsystem, because the source reaches the subsystem through the world without a null check before emitting.
- FieldDriver.FieldDeliveryDriver.Tick: the same requirement as Evaluate, which it calls.
- FieldDriver.FieldDeliveryDriver.Stop: requires a world with a delivery subsystem when the driver is active, because the source dereferences both without a check before emitting Stopped.
- Runtime.SubscribeAll: the source hands each handler's and phase's whole trigger matcher to a bus `Subscribe` whose `.cpp` takes a single gameplay tag; the model subscribes with the matcher's exact tag as the bus filter, and the full trigger test happens when the runtime dispatches the event.
- Runtime.SpellRuntime.Start: subscribes through `Runtime.SubscribeAll`, with the same reduction of each trigger to its exact tag.
- DeliverySubsystem.DeliverySubsystem.StopGroupInternal: the stop reason each stopped driver receives and the primitive-stopped event each driver emits are not listed here (the driver models carry them); the group's own Stopped event is. A bus that cannot be resolved, which makes the source drop the event, is not modelled: the event is always listed.
- DeliverySubsystem.DeliverySubsystem.StopByPrimitiveId: the stop reason only reaches the stopped drivers and their primitive-stopped events, which this operation does not list, so the model takes no reason.
- StopDelivery.Execute: a primitive stop lists no events, for the reason given for StopByPrimitiveId.
- Names and gameplay tags compare case-insensitively in the engine (`FName` equality, `FGameplayTag` matching and lookup); the model compares them as exact strings. Store keys differing only in case, the name order used for sorting and the registered-tag test are therefore case-sensitive in the model.
- MoverDriver.MoverDeliveryDriver.EvaluateSweep: the hit event's primitive id, hit tags and hit locations are not modelled.
- The `bClampToMinMax` flag of the attribute provider is never read by the source and has no effect in the model.
- The effects of the individual action executors on the world are not modelled.

## Findings

| source | as written | input that shows it | evidently intended | confidence | as-written member | corrected member |
|---|---|---|---|---|---|---|
| Plugins/IMOPSpellSystem/Source/IMOPSpellSystemRuntime/Private/Delivery/DeliverySubsystemV3.cpp:144-148 | the end-of-spell filter of the subsystem's event handler stops every group of the runtime for any tag whose name contains End, Ended or Stop, and so also for the subsystem's own Spell.Event.Delivery.Stopped event (emitted at lines 519-524, received through the subscription at line 68) | a runtime with two delivery groups; stopping one emits Delivery.Stopped, which passes the filter and stops the other | ignore the subsystem's own Spell.Event.Delivery events and react only to the spell's end events | not executed | DeliverySubsystem.StopCascadesAsWritten | DeliverySubsystem.StopStaysLocal |
