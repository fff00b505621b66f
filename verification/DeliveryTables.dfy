/**
  The delivery ledger's three tables, what appending and pruning do to them, and the
  invariant every run keeps.

  A table is a map from its integer primary key to the rest of the row.
 */
module DeliveryTables {
  import opened Wrappers
  import opened Bounds

  const RETENTION: nat := 30 * 86400 * 1000000
  const MAX_OCCURRENCES: nat := 20000
  const MAX_PLACEMENTS: nat := 50000
  const MAX_LINKS: nat := 100000
  const PLACEMENTS_PER_OCCURRENCE: nat := 1024
  const LINKS_PER_OCCURRENCE: nat := 4096
  const MAX_COUNTER: nat := 0x7FFF_FFFF_FFFF_FFFF

  type Key = (string, string)

  datatype Record = Record(id: string, recordType: string, kind: string, status: string)
  {
    function Key(): Key { (recordType, id) }
  }

  datatype Outcome = Error | Records | Unknown | Structure | Unresolved | ValidEmpty

  datatype Occurrence = Occurrence(
    at: int, outcome: Outcome, unique: nat, placementCount: nat, linkCount: nat,
    retainedPlacements: nat, retainedLinks: nat, omitted: bool,
    considered: Option<nat>, refused: Option<nat>, hardCut: Option<nat>, degraded: Option<nat>)

  datatype Placed = Placed(occurrence: nat, record: Record, group: Option<string>)
  datatype Link = Link(occurrence: nat, placement: nat, path: string, basis: string)

  datatype Tables = Tables(
    occurrences: map<nat, Occurrence>, placements: map<nat, Placed>, links: map<nat, Link>)

  /* ---- pruning ---- */

  function Aged(t: Tables, cutoff: int): set<nat> {
    set o | o in t.occurrences && t.occurrences[o].at < cutoff
  }

  /** Deletion by age: exactly the occurrences before the cutoff, with their children. */
  function AgeOut(t: Tables, cutoff: int): Tables {
    Tables(
      map o | o in t.occurrences && o !in Aged(t, cutoff) :: t.occurrences[o],
      map p | p in t.placements && t.placements[p].occurrence !in Aged(t, cutoff) :: t.placements[p],
      map l | l in t.links && t.links[l].occurrence !in Aged(t, cutoff) :: t.links[l])
  }

  /** Deletion by capacity: every row of an occurrence up to the threshold. */
  function After(t: Tables, threshold: nat): Tables {
    Tables(
      map o | o in t.occurrences && o > threshold :: t.occurrences[o],
      map p | p in t.placements && t.placements[p].occurrence > threshold :: t.placements[p],
      map l | l in t.links && t.links[l].occurrence > threshold :: t.links[l])
  }

  /** The id span of a table exceeds its cap. */
  predicate Overfull(ids: set<nat>, cap: nat) {
    ids != {} && MaxOf(ids) - MinOf(ids) + 1 > cap
  }

  /** Child id -> its occurrence. */
  function PlacementOwners(t: Tables): map<nat, nat> {
    map p | p in t.placements :: t.placements[p].occurrence
  }

  function LinkOwners(t: Tables): map<nat, nat> {
    map l | l in t.links :: t.links[l].occurrence
  }

  /** `SELECT MAX(occurrence) … WHERE id <= MAX(id) - cap`, when the table is overfull. */
  function Victim(owners: map<nat, nat>, cap: nat): nat {
    if Overfull(owners.Keys, cap) then MaxOf(OwnersUpTo(owners, MaxOf(owners.Keys) - cap)) else 0
  }

  function OwnersUpTo(owners: map<nat, nat>, bound: int): set<nat> {
    set p | p in owners && p <= bound :: owners[p]
  }

  /** The occurrence table evicts by its own ids. */
  function OccurrenceVictim(ids: set<nat>): (victim: nat)
    ensures victim == 0 || victim < MaxOf(ids)
  {
    if Overfull(ids, MAX_OCCURRENCES) then MaxOf(ids) - MAX_OCCURRENCES else 0
  }

  function Max(a: nat, b: nat): nat {
    if a >= b then a else b
  }

  /** The last occurrence that capacity evicts; 0 for none. */
  function Threshold(t: Tables): (threshold: nat) {
    Max(OccurrenceVictim(t.occurrences.Keys),
        Max(Victim(PlacementOwners(t), MAX_PLACEMENTS), Victim(LinkOwners(t), MAX_LINKS)))
  }

  function Pruned(t: Tables, now: int): Tables {
    var young := AgeOut(t, now - RETENTION);
    After(young, Threshold(young))
  }

  /* ---- the invariant ---- */

  function PlacementsOf(t: Tables, o: nat): set<nat> {
    set p | p in t.placements && t.placements[p].occurrence == o
  }

  function LinksOf(t: Tables, o: nat): set<nat> {
    set l | l in t.links && t.links[l].occurrence == o
  }

  ghost predicate NoOrphans(t: Tables) {
    && (forall p :: p in t.placements ==> t.placements[p].occurrence in t.occurrences)
    && (forall l :: l in t.links ==>
          t.links[l].occurrence in t.occurrences && t.links[l].placement in t.placements
          && t.placements[t.links[l].placement].occurrence == t.links[l].occurrence)
  }

  /** Child ids grow with their occurrence. */
  ghost predicate Monotone(t: Tables) {
    && (forall p, q :: p in t.placements && q in t.placements && p < q ==>
          t.placements[p].occurrence <= t.placements[q].occurrence)
    && (forall l, m :: l in t.links && m in t.links && l < m ==>
          t.links[l].occurrence <= t.links[m].occurrence && t.links[l].placement <= t.links[m].placement)
  }

  ghost predicate CountsRight(t: Tables) {
    forall o :: o in t.occurrences ==>
      && t.occurrences[o].retainedPlacements == |PlacementsOf(t, o)| <= PLACEMENTS_PER_OCCURRENCE
      && t.occurrences[o].retainedLinks == |LinksOf(t, o)| <= LINKS_PER_OCCURRENCE
  }

  ghost predicate PositiveIds(t: Tables) {
    0 !in t.occurrences && 0 !in t.placements && 0 !in t.links
  }

  ghost predicate Consistent(t: Tables) {
    NoOrphans(t) && Monotone(t) && CountsRight(t) && PositiveIds(t)
  }

  predicate WithinCaps(t: Tables) {
    |t.occurrences| <= MAX_OCCURRENCES && |t.placements| <= MAX_PLACEMENTS && |t.links| <= MAX_LINKS
  }

  ghost predicate Valid(t: Tables) {
    Consistent(t) && WithinCaps(t)
  }

  /* ---- deleting whole occurrences ---- */

  /** `t'` is `t` without some occurrences, each gone with all its children. */
  ghost predicate Without(t: Tables, gone: set<nat>, t': Tables) {
    && (forall o :: o in t'.occurrences <==> o in t.occurrences && o !in gone)
    && (forall o :: o in t'.occurrences ==> t'.occurrences[o] == t.occurrences[o])
    && (forall p :: p in t'.placements <==> p in t.placements && t.placements[p].occurrence !in gone)
    && (forall p :: p in t'.placements ==> t'.placements[p] == t.placements[p])
    && (forall l :: l in t'.links <==> l in t.links && t.links[l].occurrence !in gone)
    && (forall l :: l in t'.links ==> t'.links[l] == t.links[l])
  }

  lemma SameChildren(t: Tables, gone: set<nat>, t': Tables, o: nat)
    requires Without(t, gone, t')
    ensures o !in gone ==> PlacementsOf(t', o) == PlacementsOf(t, o) && LinksOf(t', o) == LinksOf(t, o)
    ensures o in gone ==> PlacementsOf(t', o) == {} && LinksOf(t', o) == {}
  {
  }

  lemma WithoutOrphans(t: Tables, gone: set<nat>, t': Tables)
    requires NoOrphans(t) && Without(t, gone, t')
    ensures NoOrphans(t')
  {
  }

  lemma WithoutMonotone(t: Tables, gone: set<nat>, t': Tables)
    requires Monotone(t) && Without(t, gone, t')
    ensures Monotone(t')
  {
  }

  lemma WithoutKeeps(t: Tables, gone: set<nat>, t': Tables)
    requires Consistent(t) && Without(t, gone, t')
    ensures Consistent(t')
  {
    WithoutOrphans(t, gone, t');
    WithoutMonotone(t, gone, t');
    forall o | o in t'.occurrences
      ensures t'.occurrences[o].retainedPlacements == |PlacementsOf(t', o)| <= PLACEMENTS_PER_OCCURRENCE
      ensures t'.occurrences[o].retainedLinks == |LinksOf(t', o)| <= LINKS_PER_OCCURRENCE
    {
      SameChildren(t, gone, t', o);
    }
  }

  lemma AgeOutWithout(t: Tables, cutoff: int)
    ensures Without(t, Aged(t, cutoff), AgeOut(t, cutoff))
  {
  }

  function UpTo(t: Tables, threshold: nat): set<nat> {
    set o | o in t.occurrences && o <= threshold
  }

  lemma AfterWithout(t: Tables, threshold: nat)
    requires NoOrphans(t)
    ensures Without(t, UpTo(t, threshold), After(t, threshold))
  {
  }

  /** No id at most `bound` survives, so at most `cap` of the ids up to `bound + cap` do. */
  lemma SpanBound(ids: set<nat>, kept: set<nat>, cap: nat)
    requires kept <= ids && 0 !in ids
    requires Overfull(ids, cap) ==> forall k :: k in kept ==> k > MaxOf(ids) - cap
    ensures |kept| <= cap
  {
    if ids == {} {
      assert kept == {};
    } else if Overfull(ids, cap) {
      RangeBound(kept, MaxOf(ids) - cap, cap);
    } else {
      RangeBound(kept, MinOf(ids) - 1, MaxOf(ids) - MinOf(ids) + 1);
    }
  }

  lemma VictimBeats(owners: map<nat, nat>, cap: nat, p: nat)
    requires Overfull(owners.Keys, cap) && p in owners && p <= MaxOf(owners.Keys) - cap
    ensures owners[p] <= Victim(owners, cap)
  {
    assert owners[p] in OwnersUpTo(owners, MaxOf(owners.Keys) - cap);
  }

  /** Rows owned beyond the victim fit the cap. */
  lemma ChildrenFit(owners: map<nat, nat>, cap: nat, kept: set<nat>, threshold: nat)
    requires kept <= owners.Keys && 0 !in owners && Victim(owners, cap) <= threshold
    requires forall p :: p in kept ==> owners[p] > threshold
    ensures |kept| <= cap
  {
    if Overfull(owners.Keys, cap) {
      forall p | p in kept ensures p > MaxOf(owners.Keys) - cap {
        if p <= MaxOf(owners.Keys) - cap { VictimBeats(owners, cap, p); }
      }
    }
    SpanBound(owners.Keys, kept, cap);
  }

  /** What capacity leaves fits every cap. */
  lemma ThresholdFits(t: Tables)
    requires PositiveIds(t)
    ensures WithinCaps(After(t, Threshold(t)))
  {
    var t' := After(t, Threshold(t));
    SpanBound(t.occurrences.Keys, t'.occurrences.Keys, MAX_OCCURRENCES);
    ChildrenFit(PlacementOwners(t), MAX_PLACEMENTS, t'.placements.Keys, Threshold(t));
    ChildrenFit(LinkOwners(t), MAX_LINKS, t'.links.Keys, Threshold(t));
  }

  /** The occurrences a prune removes: those too old, and of the rest those up to the threshold. */
  function Evicted(t: Tables, now: int): set<nat> {
    var young := AgeOut(t, now - RETENTION);
    Aged(t, now - RETENTION) + UpTo(young, Threshold(young))
  }

  /** Pruning removes whole occurrences only, and leaves a ledger within its caps. */
  lemma PruneKeeps(t: Tables, now: int)
    requires Consistent(t)
    ensures Valid(Pruned(t, now)) && Without(t, Evicted(t, now), Pruned(t, now))
  {
    var cutoff := now - RETENTION;
    var young := AgeOut(t, cutoff);
    AgeOutWithout(t, cutoff);
    WithoutKeeps(t, Aged(t, cutoff), young);
    AfterWithout(young, Threshold(young));
    WithoutKeeps(young, UpTo(young, Threshold(young)), Pruned(t, now));
    ThresholdFits(young);
    TwoSteps(t, Aged(t, cutoff), young, UpTo(young, Threshold(young)), Pruned(t, now));
  }

  lemma TwoSteps(t: Tables, a: set<nat>, u: Tables, b: set<nat>, v: Tables)
    requires Without(t, a, u) && Without(u, b, v)
    ensures Without(t, a + b, v)
  {
  }

  /** Capacity evicts the oldest first: whatever precedes an evicted occurrence is gone. */
  lemma OldestFirst(t: Tables, now: int, o: nat, earlier: nat)
    requires o in AgeOut(t, now - RETENTION).occurrences && o !in Pruned(t, now).occurrences && earlier <= o
    ensures earlier !in Pruned(t, now).occurrences
  {
  }

  lemma VictimFound(owners: map<nat, nat>, cap: nat)
    requires forall p :: p in owners ==> owners[p] > 0
    ensures Victim(owners, cap) > 0 <==> Overfull(owners.Keys, cap)
  {
    if Overfull(owners.Keys, cap) {
      VictimBeats(owners, cap, MinOf(owners.Keys));
    }
  }

  /** Capacity evicts exactly when some table's id span exceeds its cap. */
  lemma EvictsOnlyWhenFull(t: Tables)
    requires Consistent(t)
    ensures Threshold(t) > 0 <==>
      Overfull(t.occurrences.Keys, MAX_OCCURRENCES) || Overfull(t.placements.Keys, MAX_PLACEMENTS)
        || Overfull(t.links.Keys, MAX_LINKS)
  {
    assert PlacementOwners(t).Keys == t.placements.Keys && LinkOwners(t).Keys == t.links.Keys;
    OwnersPositive(t);
    VictimFound(PlacementOwners(t), MAX_PLACEMENTS);
    VictimFound(LinkOwners(t), MAX_LINKS);
    OccurrenceFound(t.occurrences.Keys);
  }

  lemma OccurrenceFound(ids: set<nat>)
    requires 0 !in ids
    ensures OccurrenceVictim(ids) > 0 <==> Overfull(ids, MAX_OCCURRENCES)
  {
    if ids != {} { assert MinOf(ids) > 0; }
  }

  lemma OwnersPositive(t: Tables)
    requires NoOrphans(t) && PositiveIds(t)
    ensures forall p :: p in PlacementOwners(t) ==> PlacementOwners(t)[p] > 0
    ensures forall l :: l in LinkOwners(t) ==> LinkOwners(t)[l] > 0
  {
    forall p | p in t.placements ensures t.placements[p].occurrence > 0 {
      assert t.placements[p].occurrence != 0;
    }
  }
}
