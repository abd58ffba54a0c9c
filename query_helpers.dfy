// Private/Delivery/Helpers/DeliveryQueryHelpersV3.cpp: the shared query
// plumbing of the delivery drivers. The engine's overlap, sweep and line
// trace calls are one oracle; what the helpers decide around them is
// modelled.
module QueryHelpers {
  import opened Common

  /** A collision channel or object type (ECollisionChannel). */
  type Channel = int

  /** EDeliveryQueryFilterModeV3. */
  datatype FilterMode = ByChannel | ByObjectType | ByProfile

  /** The delivery query policy fields the helpers read. */
  datatype QueryPolicy = QueryPolicy(filterMode: FilterMode, objectTypes: seq<Channel>, traceChannel: Channel,
                                     profileName: Name, ignoreCaster: bool)

  /** FCollisionQueryParams: the trace-complex flag and the ignored actors. */
  datatype QueryParams = QueryParams(traceComplex: bool, ignoredActors: seq<ActorId>)

  /** The engine call a query makes, by filter mode. */
  datatype EngineRequest = ChannelRequest(channel: Channel)
                         | ObjectTypeRequest(types: seq<Channel>)
                         | ProfileRequest(profile: Name)

  /** GetProfileNameOrDefault: the policy's profile unless it is None, else the default. */
  function GetProfileNameOrDefault(q: QueryPolicy, defaultProfile: Name): (r: Name)
    ensures q.profileName != NoName ==> r == q.profileName
    ensures q.profileName == NoName ==> r == defaultProfile
  {
    if q.profileName != NoName then q.profileName else defaultProfile
  }

  /** A non-None default always yields a usable profile. */
  lemma ProfileNeverNone(q: QueryPolicy, defaultProfile: Name)
    requires defaultProfile != NoName
    ensures GetProfileNameOrDefault(q, defaultProfile) != NoName
  {
  }

  /**
   * BuildQueryParams: trace-complex is always off, and the caster is added
   * to the ignored actors exactly when the policy asks for it and there is
   * a caster; nothing else changes.
   */
  function BuildQueryParams(caster: Option<ActorId>, q: QueryPolicy, params: QueryParams): (r: QueryParams)
    ensures !r.traceComplex
    ensures q.ignoreCaster && caster.Some? ==> r.ignoredActors == params.ignoredActors + [caster.value]
    ensures !(q.ignoreCaster && caster.Some?) ==> r.ignoredActors == params.ignoredActors
  {
    var ignored := if q.ignoreCaster && caster.Some? then params.ignoredActors + [caster.value]
                   else params.ignoredActors;
    QueryParams(false, ignored)
  }

  /** The request the three query helpers send: channel, object types, or the profile (the default case). */
  function RequestFor(q: QueryPolicy, defaultProfile: Name): (r: EngineRequest)
    ensures q.filterMode == ByChannel <==> r.ChannelRequest?
    ensures q.filterMode == ByObjectType <==> r.ObjectTypeRequest?
    ensures r.ChannelRequest? ==> r.channel == q.traceChannel
    ensures r.ObjectTypeRequest? ==> r.types == q.objectTypes
    ensures r.ProfileRequest? ==> r.profile == GetProfileNameOrDefault(q, defaultProfile)
  {
    match q.filterMode
    case ByChannel => ChannelRequest(q.traceChannel)
    case ByObjectType => ObjectTypeRequest(q.objectTypes)
    case ByProfile => ProfileRequest(GetProfileNameOrDefault(q, defaultProfile))
  }

  /** Whether the post-filter does anything: ByObjectType mode with a non-empty list. */
  predicate PostFilterActive(q: QueryPolicy) {
    q.filterMode == ByObjectType && |q.objectTypes| > 0
  }

  /** A result is kept when its component exists and its object type is listed. */
  predicate KeptBy<H>(q: QueryPolicy, objectTypeOf: H -> Option<Channel>, h: H) {
    objectTypeOf(h).Some? && objectTypeOf(h).value in q.objectTypes
  }

  /** What PostFilterByObjectTypes leaves of `hits` (both overloads, overlaps and hit results, share it). */
  function PostFiltered<H(==)>(q: QueryPolicy, objectTypeOf: H -> Option<Channel>, hits: seq<H>): (r: seq<H>)
    ensures !PostFilterActive(q) ==> r == hits
    ensures IsSubsequence(r, hits)
  {
    if !PostFilterActive(q) then SubsequenceReflexive(hits); hits
    else Filter(hits, h => KeptBy(q, objectTypeOf, h))
  }

  /** When active, the post-filter keeps exactly the results with a component whose object type is listed. */
  lemma PostFilterKeepsListed<H>(q: QueryPolicy, objectTypeOf: H -> Option<Channel>, hits: seq<H>, x: H)
    requires PostFilterActive(q)
    ensures x in PostFiltered(q, objectTypeOf, hits) <==> x in hits && KeptBy(q, objectTypeOf, x)
  {
  }

  /** The object-type scan of the RemoveAll predicate: is `t` one of `types`? */
  method ScanObjectTypes(types: seq<Channel>, t: Option<Channel>) returns (listed: bool)
    ensures listed <==> t.Some? && t.value in types
  {
    if t.None? {
      return false;
    }
    listed := false;
    var j := 0;
    while j < |types|
      invariant 0 <= j <= |types|
      invariant listed <==> t.value in types[..j]
    {
      assert types[..j + 1] == types[..j] + [types[j]];
      if types[j] == t.value {
        listed := true;
      }
      j := j + 1;
    }
    assert types[..j] == types;
  }

  /** PostFilterByObjectTypes: RemoveAll of the results the predicate drops, in place. */
  method PostFilterByObjectTypes<H(==)>(q: QueryPolicy, objectTypeOf: H -> Option<Channel>, hits: seq<H>)
    returns (out: seq<H>)
    ensures out == PostFiltered(q, objectTypeOf, hits)
  {
    if !PostFilterActive(q) {
      return hits;
    }
    var keep := h => KeptBy(q, objectTypeOf, h);
    out := [];
    var i := 0;
    while i < |hits|
      invariant 0 <= i <= |hits|
      invariant out == Filter(hits[..i], keep)
    {
      var listed := ScanObjectTypes(q.objectTypes, objectTypeOf(hits[i]));
      assert hits[..i + 1] == hits[..i] + [hits[i]];
      FilterSnoc(hits[..i], hits[i], keep);
      if listed {
        out := out + [hits[i]];
      }
      i := i + 1;
    }
    assert hits[..i] == hits;
  }

  /**
   * OverlapMulti, SweepMulti and LineTraceMulti: false without a world,
   * leaving the caller's array (`prior`) as it was; otherwise the engine answers the request for the filter mode, and its
   * results are post-filtered only when it reported a hit.
   */
  method QueryMulti<H(==)>(hasWorld: bool, q: QueryPolicy, defaultProfile: Name,
                       engine: EngineRequest -> (bool, seq<H>), objectTypeOf: H -> Option<Channel>, prior: seq<H>)
    returns (any: bool, hits: seq<H>)
    ensures !hasWorld ==> !any && hits == prior
    ensures hasWorld ==> any == engine(RequestFor(q, defaultProfile)).0
    ensures hasWorld && any ==> hits == PostFiltered(q, objectTypeOf, engine(RequestFor(q, defaultProfile)).1)
    ensures hasWorld && !any ==> hits == engine(RequestFor(q, defaultProfile)).1
  {
    if !hasWorld {
      return false, prior;
    }
    var request := RequestFor(q, defaultProfile);
    var answer := engine(request);
    any, hits := answer.0, answer.1;
    if any {
      hits := PostFilterByObjectTypes(q, objectTypeOf, hits);
    }
  }
}
