// USpellTraceSubsystemV3 (Private/Debug/SpellTraceSubsystemV3.cpp): bounded
// per-runtime event buckets and a bounded list of recent rows.
module Trace {
  import opened Common
  import opened SpellEvents

  /** The synthetic bucket for events that carry no runtime guid. */
  const UnscopedGuid: Guid := Guid(1, 0, 0, 0)

  /** FSpellTraceRowV3 reduced to the fields the model carries. */
  datatype TraceRow = TraceRow(runtimeGuid: Guid, eventTag: Tag, caster: Option<ActorId>)

  /** The guid an event is filed under: its own when valid, else the synthetic one. */
  function BucketGuid(g: Guid): (r: Guid)
    ensures r.IsValid()
    ensures g.IsValid() ==> r == g
    ensures !g.IsValid() ==> r == UnscopedGuid
  {
    if g.IsValid() then g else UnscopedGuid
  }

  /** What the array holds after RemoveAt(0, Num - n) when Num exceeds n. */
  function KeepLast<T>(s: seq<T>, n: nat): (r: seq<T>)
    ensures |r| == if |s| <= n then |s| else n
    ensures forall i :: 0 <= i < |r| ==> r[i] == s[|s| - |r| + i]
  {
    if |s| > n then s[|s| - n..] else s
  }

  /** Trimming keeps the newest element whenever the bound allows one. */
  lemma KeepLastEndsWith<T>(s: seq<T>, x: T, n: nat)
    requires n >= 1
    ensures var r := KeepLast(s + [x], n); |r| >= 1 && r[|r| - 1] == x
  {
  }

  /** A bound large enough keeps everything: nothing old is dropped early. */
  lemma KeepLastUnderBound<T>(s: seq<T>, n: nat)
    requires |s| <= n
    ensures KeepLast(s, n) == s
  {
  }

  /** RecentRows' bound: MaxEventsPerRuntime × max(1, MaxRecentRuntimes). */
  function MaxRows(maxEvents: nat, maxRecent: int): (r: nat)
    ensures maxRecent <= 1 ==> r == maxEvents
    ensures r >= maxEvents
  {
    maxEvents * IntMax(1, maxRecent)
  }

  function RowOf(ev: SpellEvent): TraceRow {
    TraceRow(ev.runtimeGuid, ev.eventTag, ev.instigator)
  }

  function NotFrom(g: Guid): TraceRow -> bool {
    (r: TraceRow) => r.runtimeGuid != g
  }

  /** The event as filed: under its bucket guid. */
  function Filed(ev: SpellEvent): (e: SpellEvent)
    ensures e.runtimeGuid.IsValid()
  {
    ev.(runtimeGuid := BucketGuid(ev.runtimeGuid))
  }

  /** The bucket map after Record: only the event's bucket changes. */
  function RecordedBuckets(m: map<Guid, seq<SpellEvent>>, ev: SpellEvent, n: nat): map<Guid, seq<SpellEvent>> {
    var e := Filed(ev);
    var before := if e.runtimeGuid in m then m[e.runtimeGuid] else [];
    m[e.runtimeGuid := KeepLast(before + [e], n)]
  }

  lemma RowsStayValid(rows: seq<TraceRow>, row: TraceRow, n: nat)
    requires forall k :: 0 <= k < |rows| ==> rows[k].runtimeGuid.IsValid()
    requires row.runtimeGuid.IsValid()
    ensures var r := KeepLast(rows + [row], n); forall k :: 0 <= k < |r| ==> r[k].runtimeGuid.IsValid()
  {
    var s := rows + [row];
    var r := KeepLast(s, n);
    forall k | 0 <= k < |r| ensures r[k].runtimeGuid.IsValid() {
      assert r[k] == s[|s| - |r| + k];
    }
  }

  /** Bucket.RemoveAt(0, Overflow) once the array holds more than n entries. */
  method TrimFront<T>(s: seq<T>, n: nat) returns (r: seq<T>)
    ensures r == KeepLast(s, n)
  {
    r := s;
    if |r| > n {
      var overflow := |r| - n;
      r := r[overflow..];
    }
  }

  class SpellTrace {
    var maxEventsPerRuntime: int
    var maxRecentRuntimes: int
    var eventsByRuntime: map<Guid, seq<SpellEvent>>
    var recentRows: seq<TraceRow>

    /** Every bucket is filed under a valid guid, and so is every row. */
    ghost predicate Valid()
      reads this
    {
      (forall g :: g in eventsByRuntime ==> g.IsValid()) &&
      (forall k :: 0 <= k < |recentRows| ==> recentRows[k].runtimeGuid.IsValid())
    }

    constructor()
      ensures Valid()
      ensures maxEventsPerRuntime == 128 && maxRecentRuntimes == 16
      ensures eventsByRuntime == map[] && recentRows == []
    {
      maxEventsPerRuntime := 128;
      maxRecentRuntimes := 16;
      eventsByRuntime := map[];
      recentRows := [];
    }

    /**
     * Record: the event (re-filed under the synthetic guid when it has none)
     * is appended to its runtime's bucket and a row to RecentRows; each then
     * drops its oldest entries down to its bound.
     */
    method Record(ev: SpellEvent)
      requires Valid() && maxEventsPerRuntime >= 0
      modifies this`eventsByRuntime, this`recentRows
      ensures Valid()
      ensures eventsByRuntime == RecordedBuckets(old(eventsByRuntime), ev, maxEventsPerRuntime)
      ensures recentRows == KeepLast(old(recentRows) + [RowOf(Filed(ev))], MaxRows(maxEventsPerRuntime, maxRecentRuntimes))
    {
      var e := Filed(ev);
      FileEvent(e);
      AppendRow(RowOf(e));
    }

    /** The bucket half of Record. */
    method FileEvent(e: SpellEvent)
      requires Valid() && maxEventsPerRuntime >= 0 && e.runtimeGuid.IsValid()
      modifies this`eventsByRuntime
      ensures Valid()
      ensures var before := if e.runtimeGuid in old(eventsByRuntime) then old(eventsByRuntime)[e.runtimeGuid] else [];
              eventsByRuntime == old(eventsByRuntime)[e.runtimeGuid := KeepLast(before + [e], maxEventsPerRuntime)]
    {
      var before := if e.runtimeGuid in eventsByRuntime then eventsByRuntime[e.runtimeGuid] else [];
      var bucket := TrimFront(before + [e], maxEventsPerRuntime);
      eventsByRuntime := eventsByRuntime[e.runtimeGuid := bucket];
    }

    /** The row half of Record. */
    method AppendRow(row: TraceRow)
      requires Valid() && maxEventsPerRuntime >= 0 && row.runtimeGuid.IsValid()
      modifies this`recentRows
      ensures Valid()
      ensures recentRows == KeepLast(old(recentRows) + [row], MaxRows(maxEventsPerRuntime, maxRecentRuntimes))
    {
      var rows := TrimFront(recentRows + [row], MaxRows(maxEventsPerRuntime, maxRecentRuntimes));
      RowsStayValid(recentRows, row, MaxRows(maxEventsPerRuntime, maxRecentRuntimes));
      recentRows := rows;
    }

    /** GetRecentRows: a copy of RecentRows. */
    function GetRecentRows(): (rows: seq<TraceRow>)
      reads this
      requires Valid()
      ensures |rows| == |recentRows| && forall k :: 0 <= k < |rows| ==> rows[k] == recentRows[k]
      ensures forall k :: 0 <= k < |rows| ==> rows[k].runtimeGuid.IsValid()
    {
      recentRows
    }

    /** GetEventsForRuntime: the runtime's bucket, or nothing for an unknown guid. */
    function GetEventsForRuntime(g: Guid): (events: seq<SpellEvent>)
      reads this
      requires Valid()
      ensures g !in eventsByRuntime ==> events == []
      ensures g in eventsByRuntime ==> events == eventsByRuntime[g]
      ensures !g.IsValid() ==> events == []
    {
      if g in eventsByRuntime then eventsByRuntime[g] else []
    }

    /** ClearRuntime: that runtime's bucket goes, and so do exactly its rows; the rest keep their order. */
    method ClearRuntime(g: Guid)
      requires Valid()
      modifies this`eventsByRuntime, this`recentRows
      ensures Valid()
      ensures eventsByRuntime == old(eventsByRuntime) - {g}
      ensures recentRows == Filter(old(recentRows), NotFrom(g))
      ensures forall k :: 0 <= k < |recentRows| ==> recentRows[k].runtimeGuid != g
      ensures forall k :: 0 <= k < |old(recentRows)| && old(recentRows)[k].runtimeGuid != g ==> old(recentRows)[k] in recentRows
      ensures IsSubsequence(recentRows, old(recentRows))
    {
      eventsByRuntime := eventsByRuntime - {g};
      var rows := recentRows;
      recentRows := Filter(rows, NotFrom(g));
      assert forall k :: 0 <= k < |recentRows| ==> recentRows[k] in rows;
    }

    /** ClearAll: both stores are emptied. */
    method ClearAll()
      requires Valid()
      modifies this`eventsByRuntime, this`recentRows
      ensures Valid() && eventsByRuntime == map[] && recentRows == []
    {
      eventsByRuntime := map[];
      recentRows := [];
    }
  }

  /** After Record, the runtime's bucket ends with the new event and stays within its bound. */
  method RecordThenRead(trace: SpellTrace, ev: SpellEvent) returns (events: seq<SpellEvent>)
    requires trace.Valid() && trace.maxEventsPerRuntime >= 1
    modifies trace`eventsByRuntime, trace`recentRows
    ensures |events| >= 1 && events[|events| - 1] == Filed(ev)
    ensures |events| <= trace.maxEventsPerRuntime
  {
    trace.Record(ev);
    events := trace.GetEventsForRuntime(BucketGuid(ev.runtimeGuid));
    ghost var g := Filed(ev).runtimeGuid;
    ghost var before := if g in old(trace.eventsByRuntime) then old(trace.eventsByRuntime)[g] else [];
    KeepLastEndsWith(before, Filed(ev), trace.maxEventsPerRuntime);
  }
}
