// USpellEventBusSubsystemV3 (Private/Events/SpellEventBusSubsystemV3.cpp):
// subscribers with monotonically allocated ids, filtered by a gameplay tag.
module EventBus {
  import opened Common
  import opened SpellEvents

  /** INDEX_NONE, the id of an invalid subscription handle. */
  const IndexNone: int := -1

  /** FSpellEventSubscriptionHandleV3. */
  datatype Handle = Handle(id: int) {
    predicate IsValid() { id != IndexNone }
  }

  /** A subscriber: its id, the listener object (by unique id) and its tag filter. */
  datatype Subscriber = Subscriber(id: int, listener: nat, tagFilter: Tag)

  /** MatchesFilter: an invalid filter receives everything; otherwise one tag must be an ancestor-or-self of the other. */
  function MatchesFilter(eventTag: Tag, filterTag: Tag): (r: bool)
    ensures !filterTag.IsValid() ==> r
    ensures filterTag.IsValid() && !eventTag.IsValid() ==> !r
    ensures filterTag.IsValid() && eventTag.IsValid() ==> (r <==> MatchesTag(eventTag, filterTag) || MatchesTag(filterTag, eventTag))
  {
    if !filterTag.IsValid() then true
    else eventTag.IsValid() && (MatchesTag(eventTag, filterTag) || MatchesTag(filterTag, eventTag))
  }

  /** Subscriber ids increase strictly along the array. */
  predicate IncreasingIds(s: seq<Subscriber>) {
    forall i, j :: 0 <= i < j < |s| ==> s[i].id < s[j].id
  }

  lemma {:induction false} SubsequenceIncreasing(r: seq<Subscriber>, s: seq<Subscriber>)
    requires IsSubsequence(r, s) && IncreasingIds(s)
    ensures IncreasingIds(r)
    decreases |s|
  {
    if |r| > 0 && |s| > 0 {
      if r[0] == s[0] {
        SubsequenceIncreasing(r[1..], s[1..]);
        SubsequenceMembers(r[1..], s[1..]);
        forall j | 0 < j < |r| ensures r[0].id < r[j].id {
          assert r[j] == r[1..][j - 1];
          assert r[j] in r[1..];
          assert r[j] in s[1..];
          var k :| 0 <= k < |s[1..]| && s[1..][k] == r[j];
          assert s[k + 1] == r[j];
        }
        forall i, j | 0 <= i < j < |r| ensures r[i].id < r[j].id {
          if i > 0 {
            assert r[i] == r[1..][i - 1] && r[j] == r[1..][j - 1];
          }
        }
      } else {
        SubsequenceIncreasing(r, s[1..]);
      }
    }
  }

  /** Does the weak listener pointer still resolve? */
  function Live(alive: nat -> bool): Subscriber -> bool {
    (s: Subscriber) => alive(s.listener)
  }

  /** Every subscriber except those holding `id`. */
  function OtherThan(id: int): Subscriber -> bool {
    (s: Subscriber) => s.id != id
  }

  /** The listeners an event reaches, in subscription order. */
  function Recipients(subs: seq<Subscriber>, eventTag: Tag, alive: nat -> bool, isListener: nat -> bool): (r: seq<nat>)
    ensures |r| <= |subs|
    ensures forall k :: 0 <= k < |r| ==>
              exists j :: 0 <= j < |subs| && subs[j].listener == r[k] && alive(r[k]) && isListener(r[k]) &&
                          MatchesFilter(eventTag, subs[j].tagFilter)
  {
    if |subs| == 0 then []
    else
      var n := |subs| - 1;
      var s := subs[n];
      var front := Recipients(subs[..n], eventTag, alive, isListener);
      assert forall j :: 0 <= j < n ==> subs[..n][j] == subs[j];
      if alive(s.listener) && MatchesFilter(eventTag, s.tagFilter) && isListener(s.listener)
      then front + [s.listener] else front
  }

  /** A matching live listener is reached. */
  lemma {:induction false} RecipientsComplete(subs: seq<Subscriber>, eventTag: Tag, alive: nat -> bool,
                                              isListener: nat -> bool, j: nat)
    requires j < |subs| && alive(subs[j].listener) && isListener(subs[j].listener)
    requires MatchesFilter(eventTag, subs[j].tagFilter)
    ensures subs[j].listener in Recipients(subs, eventTag, alive, isListener)
    decreases |subs|
  {
    var n := |subs| - 1;
    if j < n {
      assert subs[..n][j] == subs[j];
      RecipientsComplete(subs[..n], eventTag, alive, isListener, j);
    }
  }

  /** USpellEventBusSubsystemV3's state: the subscriber array and the next id. */
  class SpellEventBus {
    var subscribers: seq<Subscriber>
    var nextId: int

    /** Ids are positive, below nextId, and increase along the array, so they are unique. */
    predicate Valid()
      reads this
    {
      nextId >= 1 && IncreasingIds(subscribers) &&
      forall k :: 0 <= k < |subscribers| ==> 1 <= subscribers[k].id < nextId
    }

    /** Initialize: no subscribers, next id 1. */
    constructor()
      ensures Valid() && subscribers == [] && nextId == 1
    {
      subscribers := [];
      nextId := 1;
    }

    /**
     * Subscribe: a null listener, or one that does not implement the
     * listener interface, gets the invalid handle and changes nothing;
     * otherwise the subscriber is appended under the next id.
     */
    method Subscribe(listener: Option<nat>, isListener: nat -> bool, tagFilter: Tag) returns (h: Handle)
      requires Valid()
      modifies this
      ensures Valid()
      ensures listener.None? || !isListener(listener.value) ==>
                !h.IsValid() && subscribers == old(subscribers) && nextId == old(nextId)
      ensures listener.Some? && isListener(listener.value) ==>
                h.IsValid() && h.id == old(nextId) && nextId == old(nextId) + 1 &&
                subscribers == old(subscribers) + [Subscriber(h.id, listener.value, tagFilter)]
      ensures h.IsValid() ==> forall k :: 0 <= k < |old(subscribers)| ==> old(subscribers)[k].id < h.id
    {
      if listener.None? || !isListener(listener.value) {
        return Handle(IndexNone);
      }
      var s := Subscriber(nextId, listener.value, tagFilter);
      nextId := nextId + 1;
      subscribers := subscribers + [s];
      h := Handle(s.id);
    }

    /** Unsubscribe: an invalid handle is a no-op; otherwise every subscriber with that id is removed. */
    method Unsubscribe(h: Handle)
      requires Valid()
      modifies this
      ensures Valid() && nextId == old(nextId)
      ensures !h.IsValid() ==> subscribers == old(subscribers)
      ensures h.IsValid() ==> subscribers == Filter(old(subscribers), OtherThan(h.id))
      ensures forall k :: 0 <= k < |subscribers| ==> subscribers[k].id != h.id || !h.IsValid()
    {
      if !h.IsValid() {
        return;
      }
      var old0 := subscribers;
      subscribers := Filter(subscribers, OtherThan(h.id));
      SubsequenceIncreasing(subscribers, old0);
    }

    /**
     * Emit: dead listeners are first compacted away, then the event goes to
     * every remaining subscriber whose filter matches, in subscription
     * order. The listeners' callbacks are left out; `delivered` lists them.
     */
    method Emit(ev: SpellEvent, alive: nat -> bool, isListener: nat -> bool) returns (delivered: seq<nat>)
      requires Valid()
      modifies this
      ensures Valid() && nextId == old(nextId)
      ensures subscribers == Filter(old(subscribers), Live(alive))
      ensures delivered == Recipients(subscribers, ev.eventTag, alive, isListener)
    {
      var old0 := subscribers;
      subscribers := Filter(subscribers, Live(alive));
      SubsequenceIncreasing(subscribers, old0);
      delivered := Deliver(subscribers, ev.eventTag, alive, isListener);
    }
  }

  /** The delivery loop of Emit over a snapshot of the subscribers. */
  method Deliver(subs: seq<Subscriber>, eventTag: Tag, alive: nat -> bool, isListener: nat -> bool)
    returns (delivered: seq<nat>)
    ensures delivered == Recipients(subs, eventTag, alive, isListener)
  {
    delivered := [];
    var i := 0;
    while i < |subs|
      invariant 0 <= i <= |subs|
      invariant delivered == Recipients(subs[..i], eventTag, alive, isListener)
    {
      assert subs[..i + 1][..i] == subs[..i];
      var s := subs[i];
      if alive(s.listener) && MatchesFilter(eventTag, s.tagFilter) && isListener(s.listener) {
        delivered := delivered + [s.listener];
      }
      i := i + 1;
    }
    assert subs[..i] == subs;
  }

  /** Two successful subscriptions get strictly increasing ids. */
  method SubscribeTwice(bus: SpellEventBus, a: nat, b: nat, isListener: nat -> bool, f: Tag)
    returns (h1: Handle, h2: Handle)
    requires bus.Valid() && isListener(a) && isListener(b)
    modifies bus
    ensures bus.Valid()
    ensures h1.IsValid() && h2.IsValid() && h1.id < h2.id
  {
    h1 := bus.Subscribe(Some(a), isListener, f);
    h2 := bus.Subscribe(Some(b), isListener, f);
  }
}
