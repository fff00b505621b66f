/** What appending one delivery adds to the ledger, and why it survives the prune that follows. */
module DeliveryAppend {
  import opened Wrappers
  import opened Bounds
  import opened DeliveryTables

  datatype Placement = Placement(record: Record, group: Option<string>)

  datatype Delivery = Delivery(
    surface: string, placements: seq<Placement>, identifiers: seq<Option<string>>,
    structure: Option<bool>, unresolved: Option<bool>,
    considered: Option<set<Key>>, placed: Option<set<Key>>, degraded: Option<set<Key>>, error: bool)

  /** The validators of identifiers, records and paths, and the journal's anchor paths of a record. */
  datatype Env = Env(
    identifierOk: string -> bool, recordOk: Record -> bool, pathOk: string -> bool, anchorPaths: string -> seq<string>)

  const SURFACES: set<string> := {"get_task_context", "query_decisions", "drill_down", "hook_read", "hook_brief"}

  datatype Refusal = UnknownSurface | InconsistentPopulations

  function Keys(placements: seq<Placement>): set<Key> {
    set p | p in placements :: p.record.Key()
  }

  function Refused(d: Delivery): Option<Refusal> {
    if d.surface !in SURFACES then Some(UnknownSurface)
    else if d.considered.Some? && d.placed.Some? && !(Keys(d.placements) <= d.placed.value <= d.considered.value)
    then Some(InconsistentPopulations)
    else None
  }

  function OutcomeOf(d: Delivery): Outcome {
    if d.error then Error
    else if d.placements != [] then Records
    else if d.structure.None? then Unknown
    else if d.structure.value then Structure
    else if d.unresolved.None? then Unknown
    else if d.unresolved.value then Unresolved
    else ValidEmpty
  }

  /* ---- bounded evidence ---- */

  type LinkTo = (string, string)

  datatype Retained = Retained(record: Record, group: Option<string>, links: seq<LinkTo>)

  datatype Progress = Progress(retained: seq<Retained>, total: nat, kept: nat, omitted: bool)

  function PathsOf(env: Env, p: Placement): seq<string> {
    if p.group.None? then env.anchorPaths(p.record.id) else [p.group.value]
  }

  function BasisOf(p: Placement): string {
    if p.group.None? then "journal_anchor" else "render_file"
  }

  function SafeGroup(env: Env, p: Placement): Option<string> {
    if p.group.Some? && env.pathOk(p.group.value) then p.group else None
  }

  /** The safe paths of one placement, in order, while the occurrence has room for links. */
  function SafeLinks(env: Env, paths: seq<string>, basis: string, kept: nat): (links: seq<LinkTo>)
    ensures |links| <= |paths| && (kept <= LINKS_PER_OCCURRENCE ==> kept + |links| <= LINKS_PER_OCCURRENCE)
    ensures forall l :: l in links ==> l.0 in paths && env.pathOk(l.0) && l.1 == basis
  {
    if paths == [] then []
    else
      var front, path := paths[..|paths| - 1], paths[|paths| - 1];
      assert paths == front + [path];
      var links := SafeLinks(env, front, basis, kept);
      if env.pathOk(path) && kept + |links| < LINKS_PER_OCCURRENCE then links + [(path, basis)] else links
  }

  /** The evidence kept for the placements. */
  function Retain(env: Env, placements: seq<Placement>): Progress {
    if placements == [] then Progress([], 0, 0, false)
    else
      var i := |placements| - 1;
      RetainStep(env, Retain(env, placements[..i]), i, placements[i])
  }

  function RetainStep(env: Env, prior: Progress, i: nat, p: Placement): Progress {
    var paths := PathsOf(env, p);
    var seen := prior.(total := prior.total + |paths|);
    if i >= PLACEMENTS_PER_OCCURRENCE || !env.recordOk(p.record) then seen.(omitted := true)
    else
      var links := SafeLinks(env, paths, BasisOf(p), prior.kept);
      Progress(
        prior.retained + [Retained(p.record, SafeGroup(env, p), links)], seen.total, prior.kept + |links|,
        prior.omitted || (p.group.Some? && SafeGroup(env, p).None?) || |links| < |paths|)
  }

  function TotalLinks(retained: seq<Retained>): nat {
    if retained == [] then 0 else TotalLinks(retained[..|retained| - 1]) + |retained[|retained| - 1].links|
  }

  /** The limits hold, the counts are the counts of what is kept, and `omitted` is set exactly
      when some placement or some link was left out. */
  lemma {:induction false} RetainExact(env: Env, placements: seq<Placement>)
    ensures var r := Retain(env, placements);
      && |r.retained| <= |placements| && |r.retained| <= PLACEMENTS_PER_OCCURRENCE
      && r.kept <= LINKS_PER_OCCURRENCE && r.kept <= r.total
      && r.kept == TotalLinks(r.retained)
      && (r.omitted <==> |r.retained| < |placements| || r.kept < r.total)
  {
    if placements != [] {
      var i := |placements| - 1;
      RetainExact(env, placements[..i]);
      RetainLimit(env, placements[..i]);
      var prior, p := Retain(env, placements[..i]), placements[i];
      var r := RetainStep(env, prior, i, p);
      if i < PLACEMENTS_PER_OCCURRENCE && env.recordOk(p.record) {
        assert r.retained[..|r.retained| - 1] == prior.retained;
        if p.group.Some? && SafeGroup(env, p).None? {
          GroupDropped(env, p, prior.kept);
        }
      }
    }
  }

  lemma {:induction false} GroupDropped(env: Env, p: Placement, kept: nat)
    requires p.group.Some? && !env.pathOk(p.group.value)
    ensures SafeLinks(env, PathsOf(env, p), BasisOf(p), kept) == []
  {
    assert PathsOf(env, p)[..0] == [];
  }

  lemma {:induction false} RetainLimit(env: Env, placements: seq<Placement>)
    ensures |Retain(env, placements).retained| <= |placements|
  {
    if placements != [] { RetainLimit(env, placements[..|placements| - 1]); }
  }

  /* ---- the rows of an append ---- */

  function CountOf<T>(s: Option<set<T>>): Option<nat> {
    if s.None? then None else Some(|s.value|)
  }

  predicate MetadataOmitted(env: Env, d: Delivery) {
    exists raw :: raw in d.identifiers && raw.Some? && !env.identifierOk(raw.value)
  }

  function RowOf(env: Env, d: Delivery, now: int): Occurrence {
    var keys, r := Keys(d.placements), Retain(env, d.placements);
    var both := d.considered.Some? && d.placed.Some?;
    Occurrence(
      now, OutcomeOf(d), |keys|, |d.placements|, r.total, |r.retained|, r.kept, MetadataOmitted(env, d) || r.omitted,
      CountOf(d.considered),
      if both then Some(|d.considered.value - d.placed.value|) else None,
      if both then Some(|d.placed.value - keys|) else None,
      if both then Some(|keys * (if d.degraded.Some? then d.degraded.value else {})|) else None)
  }

  /** Nothing considered is lost: it was placed, refused by rank, or removed by the hard cap. */
  lemma PopulationsAddUp(env: Env, d: Delivery, now: int)
    requires Refused(d).None? && d.considered.Some? && d.placed.Some?
    ensures var row := RowOf(env, d, now);
      && row.unique + row.hardCut.value + row.refused.value == row.considered.value
      && row.degraded.value <= row.unique
  {
    var keys, placed, considered := Keys(d.placements), d.placed.value, d.considered.value;
    assert placed == keys + (placed - keys) && considered == placed + (considered - placed);
    SubsetSize(keys * (if d.degraded.Some? then d.degraded.value else {}), keys);
  }

  function NextId<T>(table: map<nat, T>): nat {
    MaxOf(table.Keys) + 1
  }

  function PlacedRows(base: nat, n: nat, retained: seq<Retained>): map<nat, Placed> {
    map i | i in Range(base, |retained|) :: Placed(n, retained[i - base - 1].record, retained[i - base - 1].group)
  }

  /** The links of the retained placements, in insertion order. */
  function FlatLinks(base: nat, n: nat, retained: seq<Retained>): seq<Link> {
    if retained == [] then []
    else
      var k := |retained| - 1;
      FlatLinks(base, n, retained[..k]) + seq(|retained[k].links|, j requires 0 <= j < |retained[k].links| =>
        Link(n, base + k + 1, retained[k].links[j].0, retained[k].links[j].1))
  }

  function LinkRows(base: nat, flat: seq<Link>): map<nat, Link> {
    map i | i in Range(base, |flat|) :: flat[i - base - 1]
  }

  /** The tables after the rows of one delivery went in, before the prune. */
  function Inserted(env: Env, t: Tables, d: Delivery, now: int): Tables {
    var n, base, retained := NextId(t.occurrences), MaxOf(t.placements.Keys), Retain(env, d.placements).retained;
    Tables(
      t.occurrences[n := RowOf(env, d, now)],
      t.placements + PlacedRows(base, n, retained),
      t.links + LinkRows(MaxOf(t.links.Keys), FlatLinks(base, n, retained)))
  }

  function Appended(env: Env, t: Tables, d: Delivery, now: int): Tables {
    if Refused(d).Some? then t else Pruned(Inserted(env, t, d, now), now)
  }

  lemma {:induction false} FlatLinksShape(base: nat, n: nat, retained: seq<Retained>)
    ensures var flat := FlatLinks(base, n, retained);
      && |flat| == TotalLinks(retained)
      && (forall i :: 0 <= i < |flat| ==> flat[i].occurrence == n && base < flat[i].placement <= base + |retained|)
      && (forall i, j :: 0 <= i < j < |flat| ==> flat[i].placement <= flat[j].placement)
  {
    if retained != [] {
      FlatLinksShape(base, n, retained[..|retained| - 1]);
    }
  }

  /** The rows gained the ids above `base`, all of occurrence `n`. */
  ghost predicate GainsPlacements(rows: map<nat, Placed>, base: nat, n: nat, k: nat, rows': map<nat, Placed>) {
    && (forall p :: p in rows' <==> p in rows || p in Range(base, k))
    && (forall p :: p in rows ==> rows'[p] == rows[p])
    && (forall p :: p in Range(base, k) ==> rows'[p].occurrence == n)
  }

  ghost predicate GainsLinks(rows: map<nat, Link>, base: nat, n: nat, placed: set<nat>, m: nat, rows': map<nat, Link>) {
    && (forall l :: l in rows' <==> l in rows || l in Range(base, m))
    && (forall l :: l in rows ==> rows'[l] == rows[l])
    && (forall l :: l in Range(base, m) ==> rows'[l].occurrence == n && rows'[l].placement in placed)
    && (forall a, b :: a in Range(base, m) && b in Range(base, m) && a < b ==> rows'[a].placement <= rows'[b].placement)
  }

  /** `t'` is `t` with one more occurrence `n`: its placements and links take the next ids. */
  ghost predicate Extends(t: Tables, n: nat, row: Occurrence, k: nat, m: nat, t': Tables) {
    && n == NextId(t.occurrences) && t'.occurrences == t.occurrences[n := row]
    && GainsPlacements(t.placements, MaxOf(t.placements.Keys), n, k, t'.placements)
    && GainsLinks(t.links, MaxOf(t.links.Keys), n, Range(MaxOf(t.placements.Keys), k), m, t'.links)
  }

  lemma PlacedRowsGo(rows: map<nat, Placed>, base: nat, n: nat, retained: seq<Retained>)
    requires forall p :: p in rows ==> p <= base
    ensures GainsPlacements(rows, base, n, |retained|, rows + PlacedRows(base, n, retained))
  {
    var more := PlacedRows(base, n, retained);
    assert more.Keys == Range(base, |retained|);
    assert forall p :: p in rows ==> p !in more;
  }

  lemma LinkRowsGo(rows: map<nat, Link>, base: nat, n: nat, placed: set<nat>, flat: seq<Link>)
    requires forall l :: l in rows ==> l <= base
    requires forall i :: 0 <= i < |flat| ==> flat[i].occurrence == n && flat[i].placement in placed
    requires forall i, j :: 0 <= i < j < |flat| ==> flat[i].placement <= flat[j].placement
    ensures GainsLinks(rows, base, n, placed, |flat|, rows + LinkRows(base, flat))
  {
    var more := LinkRows(base, flat);
    assert more.Keys == Range(base, |flat|);
    assert forall l :: l in rows ==> l !in more;
  }

  lemma {:induction false} InsertedExtends(env: Env, t: Tables, d: Delivery, now: int)
    ensures var r := Retain(env, d.placements);
      Extends(t, NextId(t.occurrences), RowOf(env, d, now), |r.retained|, r.kept, Inserted(env, t, d, now))
  {
    var n, base, r := NextId(t.occurrences), MaxOf(t.placements.Keys), Retain(env, d.placements);
    RetainExact(env, d.placements);
    FlatLinksShape(base, n, r.retained);
    PlacedRowsGo(t.placements, base, n, r.retained);
    LinkRowsGo(t.links, MaxOf(t.links.Keys), n, Range(base, |r.retained|), FlatLinks(base, n, r.retained));
  }

  lemma {:induction false} GainedPlacements(t: Tables, n: nat, k: nat, t': Tables, o: nat)
    requires (forall p :: p in t.placements ==> t.placements[p].occurrence != n)
    requires GainsPlacements(t.placements, MaxOf(t.placements.Keys), n, k, t'.placements)
    ensures PlacementsOf(t', o) == if o == n then Range(MaxOf(t.placements.Keys), k) else PlacementsOf(t, o)
  {
  }

  lemma {:induction false} GainedLinks(t: Tables, n: nat, placed: set<nat>, m: nat, t': Tables, o: nat)
    requires (forall l :: l in t.links ==> t.links[l].occurrence != n)
    requires GainsLinks(t.links, MaxOf(t.links.Keys), n, placed, m, t'.links)
    ensures LinksOf(t', o) == if o == n then Range(MaxOf(t.links.Keys), m) else LinksOf(t, o)
  {
  }

  lemma {:induction false} ExtendsChildren(t: Tables, n: nat, row: Occurrence, k: nat, m: nat, t': Tables, o: nat)
    requires NoOrphans(t) && Extends(t, n, row, k, m, t')
    ensures o != n ==> PlacementsOf(t', o) == PlacementsOf(t, o) && LinksOf(t', o) == LinksOf(t, o)
    ensures o == n ==>
      PlacementsOf(t', o) == Range(MaxOf(t.placements.Keys), k) && LinksOf(t', o) == Range(MaxOf(t.links.Keys), m)
  {
    GainedPlacements(t, n, k, t', o);
    GainedLinks(t, n, Range(MaxOf(t.placements.Keys), k), m, t', o);
  }

  lemma ExtendsOrphans(t: Tables, n: nat, row: Occurrence, k: nat, m: nat, t': Tables)
    requires NoOrphans(t) && Extends(t, n, row, k, m, t')
    ensures NoOrphans(t')
  {
  }

  lemma PlacementsMonotone(rows: map<nat, Placed>, n: nat, k: nat, rows': map<nat, Placed>)
    requires forall p, q :: p in rows && q in rows && p < q ==> rows[p].occurrence <= rows[q].occurrence
    requires forall p :: p in rows ==> rows[p].occurrence <= n
    requires GainsPlacements(rows, MaxOf(rows.Keys), n, k, rows')
    ensures forall p, q :: p in rows' && q in rows' && p < q ==> rows'[p].occurrence <= rows'[q].occurrence
  {
  }

  lemma {:induction false} LinksMonotone(rows: map<nat, Link>, n: nat, base: nat, k: nat, m: nat, rows': map<nat, Link>)
    requires forall l, q :: l in rows && q in rows && l < q ==>
      rows[l].occurrence <= rows[q].occurrence && rows[l].placement <= rows[q].placement
    requires forall l :: l in rows ==> rows[l].occurrence <= n && rows[l].placement <= base
    requires GainsLinks(rows, MaxOf(rows.Keys), n, Range(base, k), m, rows')
    ensures forall l, q :: l in rows' && q in rows' && l < q ==>
      rows'[l].occurrence <= rows'[q].occurrence && rows'[l].placement <= rows'[q].placement
  {
    forall l | l in Range(MaxOf(rows.Keys), m) ensures rows'[l].occurrence == n && base < rows'[l].placement {
      assert rows'[l].placement in Range(base, k);
    }
  }

  lemma ExtendsMonotone(t: Tables, n: nat, row: Occurrence, k: nat, m: nat, t': Tables)
    requires NoOrphans(t) && Monotone(t) && Extends(t, n, row, k, m, t')
    ensures Monotone(t')
  {
    PlacementsMonotone(t.placements, n, k, t'.placements);
    LinksMonotone(t.links, n, MaxOf(t.placements.Keys), k, m, t'.links);
  }

  lemma ExtendsKeeps(t: Tables, n: nat, row: Occurrence, k: nat, m: nat, t': Tables)
    requires Consistent(t) && Extends(t, n, row, k, m, t')
    requires row.retainedPlacements == k <= PLACEMENTS_PER_OCCURRENCE && row.retainedLinks == m <= LINKS_PER_OCCURRENCE
    ensures Consistent(t')
  {
    ExtendsOrphans(t, n, row, k, m, t');
    ExtendsMonotone(t, n, row, k, m, t');
    RangeSize(MaxOf(t.placements.Keys), k);
    RangeSize(MaxOf(t.links.Keys), m);
    forall o | o in t'.occurrences
      ensures t'.occurrences[o].retainedPlacements == |PlacementsOf(t', o)| <= PLACEMENTS_PER_OCCURRENCE
      ensures t'.occurrences[o].retainedLinks == |LinksOf(t', o)| <= LINKS_PER_OCCURRENCE
    {
      ExtendsChildren(t, n, row, k, m, t', o);
    }
  }

  /* ---- the appended occurrence survives ---- */

  /** The victim of a table is older than `n` when the rows of `n` are among its last `cap` ids. */
  lemma VictimOlder(owners: map<nat, nat>, cap: nat, n: nat)
    requires n > 0 && forall p :: p in owners ==> owners[p] <= n
    requires forall p :: p in owners && owners[p] == n ==> p > MaxOf(owners.Keys) - cap
    ensures Victim(owners, cap) < n
  {
    if Overfull(owners.Keys, cap) {
      var s := OwnersUpTo(owners, MaxOf(owners.Keys) - cap);
      forall o | o in s ensures o < n {
        var p :| p in owners && p <= MaxOf(owners.Keys) - cap && owners[p] == o;
      }
    }
  }

  /** A newest occurrence, with its rows last in their tables and within the limits. */
  ghost predicate Newest(t: Tables, n: nat, base: nat, k: nat, lbase: nat, m: nat) {
    && n in t.occurrences && n > 0 && (forall o :: o in t.occurrences ==> o <= n)
    && k <= PLACEMENTS_PER_OCCURRENCE && m <= LINKS_PER_OCCURRENCE
    && (forall p :: p in t.placements ==> t.placements[p].occurrence <= n && p <= base + k)
    && (forall p :: p in t.placements && t.placements[p].occurrence == n ==> p > base)
    && (forall l :: l in t.links ==> t.links[l].occurrence <= n && l <= lbase + m)
    && (forall l :: l in t.links && t.links[l].occurrence == n ==> l > lbase)
  }

  lemma NewestStays(t: Tables, n: nat, base: nat, k: nat, lbase: nat, m: nat)
    requires Newest(t, n, base, k, lbase, m)
    ensures Threshold(t) < n
  {
    assert MaxOf(t.occurrences.Keys) == n;
    assert PlacementOwners(t).Keys == t.placements.Keys && LinkOwners(t).Keys == t.links.Keys;
    VictimOlder(PlacementOwners(t), MAX_PLACEMENTS, n);
    VictimOlder(LinkOwners(t), MAX_LINKS, n);
  }

  lemma ExtendsNewest(t: Tables, n: nat, row: Occurrence, k: nat, m: nat, t': Tables)
    requires NoOrphans(t) && Extends(t, n, row, k, m, t')
    requires k <= PLACEMENTS_PER_OCCURRENCE && m <= LINKS_PER_OCCURRENCE
    ensures Newest(t', n, MaxOf(t.placements.Keys), k, MaxOf(t.links.Keys), m)
  {
  }

  lemma WithoutNewest(t: Tables, n: nat, base: nat, k: nat, lbase: nat, m: nat, gone: set<nat>, t': Tables)
    requires Newest(t, n, base, k, lbase, m) && Without(t, gone, t') && n !in gone
    ensures Newest(t', n, base, k, lbase, m)
  {
  }

  lemma NewestSurvives(t: Tables, n: nat, base: nat, k: nat, lbase: nat, m: nat, now: int)
    requires Consistent(t) && Newest(t, n, base, k, lbase, m) && t.occurrences[n].at == now
    ensures n !in Evicted(t, now)
  {
    var cutoff := now - RETENTION;
    AgeOutWithout(t, cutoff);
    assert n !in Aged(t, cutoff);
    WithoutNewest(t, n, base, k, lbase, m, Aged(t, cutoff), AgeOut(t, cutoff));
    NewestStays(AgeOut(t, cutoff), n, base, k, lbase, m);
  }

  /** MAIN: whatever else the prune removes, the occurrence just appended is kept with every
      one of its placements and links, because its limits are below the tables' caps. */
  lemma {:induction false} AppendedSurvives(env: Env, t: Tables, d: Delivery, now: int)
    requires Consistent(t) && Refused(d).None?
    ensures var n, r, t' := NextId(t.occurrences), Retain(env, d.placements), Appended(env, t, d, now);
      && n in t'.occurrences && t'.occurrences[n] == RowOf(env, d, now)
      && PlacementsOf(t', n) == Range(MaxOf(t.placements.Keys), |r.retained|)
      && LinksOf(t', n) == Range(MaxOf(t.links.Keys), r.kept)
  {
    RetainExact(env, d.placements);
    InsertedExtends(env, t, d, now);
    var r := Retain(env, d.placements);
    ExtensionSurvives(t, NextId(t.occurrences), RowOf(env, d, now), |r.retained|, r.kept, Inserted(env, t, d, now),
      now);
  }

  lemma {:induction false} ExtensionSurvives(t: Tables, n: nat, row: Occurrence, k: nat, m: nat, full: Tables, now: int)
    requires Consistent(t) && Extends(t, n, row, k, m, full) && row.at == now
    requires row.retainedPlacements == k <= PLACEMENTS_PER_OCCURRENCE && row.retainedLinks == m <= LINKS_PER_OCCURRENCE
    ensures var t' := Pruned(full, now);
      && n in t'.occurrences && t'.occurrences[n] == row
      && PlacementsOf(t', n) == Range(MaxOf(t.placements.Keys), k) && LinksOf(t', n) == Range(MaxOf(t.links.Keys), m)
  {
    ExtendsKeeps(t, n, row, k, m, full);
    ExtendsChildren(t, n, row, k, m, full, n);
    ExtendsNewest(t, n, row, k, m, full);
    NewestSurvives(full, n, MaxOf(t.placements.Keys), k, MaxOf(t.links.Keys), m, now);
    PruneKeeps(full, now);
    SameChildren(full, Evicted(full, now), Pruned(full, now), n);
  }

  /* ---- runs ---- */

  datatype Event = Append(d: Delivery, at: int) | Prune(at: int)

  function Step(env: Env, t: Tables, e: Event): Tables {
    match e
    case Append(d, at) => Appended(env, t, d, at)
    case Prune(at) => Pruned(t, at)
  }

  function Run(env: Env, t: Tables, events: seq<Event>): Tables {
    if events == [] then t else Step(env, Run(env, t, events[..|events| - 1]), events[|events| - 1])
  }

  const EMPTY := Tables(map[], map[], map[])

  lemma EmptyValid()
    ensures Valid(EMPTY)
  {
  }

  lemma StepKeeps(env: Env, t: Tables, e: Event)
    requires Valid(t)
    ensures Valid(Step(env, t, e))
  {
    match e
    case Prune(at) => PruneKeeps(t, at);
    case Append(d, at) =>
      if Refused(d).None? {
        var r := Retain(env, d.placements);
        RetainExact(env, d.placements);
        InsertedExtends(env, t, d, at);
        ExtendsKeeps(t, NextId(t.occurrences), RowOf(env, d, at), |r.retained|, r.kept, Inserted(env, t, d, at));
        PruneKeeps(Inserted(env, t, d, at), at);
      }
  }

  /** MAIN: after any run of appends and prunes, with any clock, the ledger is consistent and
      within its caps. */
  lemma {:induction false} RunKeeps(env: Env, events: seq<Event>)
    ensures Valid(Run(env, EMPTY, events))
  {
    if events == [] {
      EmptyValid();
    } else {
      RunKeeps(env, events[..|events| - 1]);
      StepKeeps(env, Run(env, EMPTY, events[..|events| - 1]), events[|events| - 1]);
    }
  }
}
