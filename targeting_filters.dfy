// FTargetingFiltersV3 (Private/Targeting/TargetingFiltersV3.cpp): the
// sequential Keep/Drop filtering of targeting candidates.
module TargetingFilters {
  import opened Common
  import opened TargetingTypes

  /**
   * ITargetingGameHooksV3 as seen by one filtering pass: the caster's
   * relation to each actor, tag and status queries, line of sight from the
   * origin, and the distance from the origin to each actor.
   */
  datatype GameHooks = GameHooks(
    relation: ActorId -> TargetRelation,
    hasGameplayTag: (ActorId, Tag) -> bool,
    hasStatusTag: (ActorId, Tag) -> bool,
    lineOfSight: ActorId -> bool,
    distance: ActorId -> real)

  /** PassesOne: does candidate `c` match filter `f`? Invalid candidates never match. */
  function PassesOne(h: GameHooks, f: TargetFilter, c: TargetRef): (b: bool)
    ensures !c.IsValid() ==> !b
    ensures c.IsValid() && f.kind == RelationFilter ==>
      (b <==> f.relation == Any || h.relation(c.actor.value) == f.relation)
    ensures c.IsValid() && f.kind == DistanceRange ==>
      (b <==> (f.minDistance <= 0.0 || h.distance(c.actor.value) >= f.minDistance) &&
              (f.maxDistance <= 0.0 || h.distance(c.actor.value) <= f.maxDistance))
    ensures c.IsValid() && f.kind !in {RelationFilter, HasTagFilter, HasStatusFilter, LineOfSight, DistanceRange} ==> b
  {
    if c.actor.None? then false
    else
      var a := c.actor.value;
      match f.kind
      case RelationFilter =>
        var rel := h.relation(a);
        if f.relation == Any then true else rel == f.relation
      case HasTagFilter => h.hasGameplayTag(a, f.tag)
      case HasStatusFilter => h.hasStatusTag(a, f.tag)
      case LineOfSight => h.lineOfSight(a)
      case DistanceRange =>
        var d := h.distance(a);
        var minOk := f.minDistance <= 0.0 || d >= f.minDistance;
        var maxOk := f.maxDistance <= 0.0 || d <= f.maxDistance;
        minOk && maxOk
      case _ => true
  }

  /** A candidate stays under one filter: Keep keeps the matches, Drop keeps the rest. */
  predicate Keeps(h: GameHooks, f: TargetFilter, c: TargetRef) {
    if f.op == Keep then PassesOne(h, f, c) else !PassesOne(h, f, c)
  }

  /** A valid candidate stays under every filter of the list. */
  predicate SurvivesAll(h: GameHooks, filters: seq<TargetFilter>, c: TargetRef) {
    c.IsValid() && forall j :: 0 <= j < |filters| ==> Keeps(h, filters[j], c)
  }

  /** A valid candidate stays under the first `n` filters of the list. */
  predicate SurvivesFirst(h: GameHooks, filters: seq<TargetFilter>, n: nat, c: TargetRef) {
    c.IsValid() && forall j :: 0 <= j < n && j < |filters| ==> Keeps(h, filters[j], c)
  }

  /** One RemoveAll pass of filter `f`: the candidates it keeps, in order. */
  function Pass(h: GameHooks, f: TargetFilter, s: seq<TargetRef>): seq<TargetRef> {
    Filter(s, c => Keeps(h, f, c))
  }

  /** The candidates that stay under the first `n` filters, in order. */
  function SurvivorsFirst(h: GameHooks, filters: seq<TargetFilter>, n: nat, s: seq<TargetRef>): seq<TargetRef> {
    Filter(s, c => SurvivesFirst(h, filters, n, c))
  }

  /** One more filter pass narrows the survivors of the first `n` filters to those of the first `n + 1`. */
  lemma OneMorePass(h: GameHooks, filters: seq<TargetFilter>, n: nat, candidates: seq<TargetRef>)
    requires n < |filters|
    ensures Pass(h, filters[n], SurvivorsFirst(h, filters, n, candidates)) == SurvivorsFirst(h, filters, n + 1, candidates)
  {
    var f := filters[n];
    FilterTwice(candidates, c => SurvivesFirst(h, filters, n, c), c => Keeps(h, f, c),
                c => SurvivesFirst(h, filters, n + 1, c));
  }

  /** Surviving all filters is surviving the first |filters| of them. */
  lemma AllPasses(h: GameHooks, filters: seq<TargetFilter>, candidates: seq<TargetRef>)
    ensures SurvivorsFirst(h, filters, |filters|, candidates) == Survivors(h, filters, candidates)
  {
    FilterSame(candidates, c => SurvivesFirst(h, filters, |filters|, c), c => SurvivesAll(h, filters, c));
  }

  /** The survivors keep the candidates' order and every copy of each surviving candidate. */
  lemma SurvivorsShape(h: GameHooks, filters: seq<TargetFilter>, candidates: seq<TargetRef>)
    ensures IsSubsequence(Survivors(h, filters, candidates), candidates)
    ensures forall c :: multiset(Survivors(h, filters, candidates))[c] ==
                        if SurvivesAll(h, filters, c) then multiset(candidates)[c] else 0
  {
    FilterCounts(candidates, c => SurvivesAll(h, filters, c));
  }

  /** Before any pass the survivors are the valid candidates. */
  lemma NoPassYet(h: GameHooks, filters: seq<TargetFilter>, candidates: seq<TargetRef>)
    ensures Filter(candidates, IsValidRef) == SurvivorsFirst(h, filters, 0, candidates)
  {
    FilterSame(candidates, IsValidRef, c => SurvivesFirst(h, filters, 0, c));
  }

  /** With no filters only the invalid candidates are removed. */
  lemma NoFilterPasses(h: GameHooks, filters: seq<TargetFilter>, candidates: seq<TargetRef>)
    requires |filters| == 0
    ensures Filter(candidates, IsValidRef) == Survivors(h, filters, candidates)
  {
    FilterSame(candidates, IsValidRef, c => SurvivesAll(h, filters, c));
  }

  /** The candidates that stay under every filter, every copy, in their original order. */
  function Survivors(h: GameHooks, filters: seq<TargetFilter>, candidates: seq<TargetRef>): seq<TargetRef> {
    Filter(candidates, c => SurvivesAll(h, filters, c))
  }

  /**
   * ApplyFilters: invalid candidates are removed first (also with no
   * filters), then each filter in turn removes what it does not keep. The
   * result is exactly the surviving candidates, each copy of one kept, in
   * their original order.
   */
  method ApplyFilters(h: GameHooks, filters: seq<TargetFilter>, candidates: seq<TargetRef>) returns (out: seq<TargetRef>)
    ensures out == Survivors(h, filters, candidates)
    ensures IsSubsequence(out, candidates)
    ensures forall c :: multiset(out)[c] == if SurvivesAll(h, filters, c) then multiset(candidates)[c] else 0
  {
    if |filters| == 0 {
      out := Filter(candidates, IsValidRef);
      NoFilterPasses(h, filters, candidates);
      SurvivorsShape(h, filters, candidates);
      return;
    }
    out := Filter(candidates, IsValidRef);
    NoPassYet(h, filters, candidates);
    var i := 0;
    while i < |filters|
      invariant 0 <= i <= |filters|
      invariant out == SurvivorsFirst(h, filters, i, candidates)
    {
      var f := filters[i];
      OneMorePass(h, filters, i, candidates);
      out := Pass(h, f, out);
      i := i + 1;
    }
    AllPasses(h, filters, candidates);
    SurvivorsShape(h, filters, candidates);
  }
}
