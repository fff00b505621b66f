/** The ledger over its three tables and its metadata, updated row by row. */
module DeliveryLedger {
  import opened Wrappers
  import opened Bounds
  import opened Instants
  import opened DeliveryTables
  import opened DeliveryAppend

  datatype Meta = Meta(
    capacityOccurrences: nat, capacityPlacements: nat, capacityLinks: nat,
    recordingSince: Option<int>, evictedThrough: Option<int>)

  const NO_META := Meta(0, 0, 0, None, None)

  function Saturated(n: nat): nat {
    if n <= MAX_COUNTER then n else MAX_COUNTER
  }

  /* ---- what an eviction records ---- */

  function PlacementsUpTo(t: Tables, threshold: nat): set<nat> {
    set p | p in t.placements && t.placements[p].occurrence <= threshold
  }

  function LinksUpTo(t: Tables, threshold: nat): set<nat> {
    set l | l in t.links && t.links[l].occurrence <= threshold
  }

  /** The times of the occurrences up to the threshold. */
  function TimesUpTo(t: Tables, threshold: nat): set<int> {
    set o | o in UpTo(t, threshold) :: t.occurrences[o].at
  }

  function Later(a: Option<int>, b: int): int {
    if a.Some? && a.value >= b then a.value else b
  }

  /** The metadata once every occurrence up to the threshold is evicted for capacity. */
  function Charged(meta: Meta, t: Tables, threshold: nat): Meta {
    var times := TimesUpTo(t, threshold);
    meta.(
      capacityOccurrences := Saturated(meta.capacityOccurrences + |UpTo(t, threshold)|),
      capacityPlacements := Saturated(meta.capacityPlacements + |PlacementsUpTo(t, threshold)|),
      capacityLinks := Saturated(meta.capacityLinks + |LinksUpTo(t, threshold)|),
      evictedThrough := if exists at :: at in times then Some(Later(meta.evictedThrough, LatestOf(times)))
        else meta.evictedThrough)
  }

  function PrunedMeta(meta: Meta, t: Tables, now: int): Meta {
    var young := AgeOut(t, now - RETENTION);
    if Threshold(young) > 0 then Charged(meta, young, Threshold(young)) else meta
  }

  lemma SplitCount(all: set<nat>, kept: set<nat>, dropped: set<nat>)
    requires all == kept + dropped && kept !! dropped
    ensures |all| == |kept| + |dropped|
  {
  }

  lemma OccurrencesLost(t: Tables, threshold: nat)
    ensures |t.occurrences| == |After(t, threshold).occurrences| + |UpTo(t, threshold)|
  {
    SplitCount(t.occurrences.Keys, After(t, threshold).occurrences.Keys, UpTo(t, threshold));
  }

  lemma PlacementsLost(t: Tables, threshold: nat)
    ensures |t.placements| == |After(t, threshold).placements| + |PlacementsUpTo(t, threshold)|
  {
    SplitCount(t.placements.Keys, After(t, threshold).placements.Keys, PlacementsUpTo(t, threshold));
  }

  lemma LinksLost(t: Tables, threshold: nat)
    ensures |t.links| == |After(t, threshold).links| + |LinksUpTo(t, threshold)|
  {
    SplitCount(t.links.Keys, After(t, threshold).links.Keys, LinksUpTo(t, threshold));
  }

  /** The counters grow by exactly the rows each table loses. */
  lemma ChargedExactly(meta: Meta, t: Tables, threshold: nat)
    ensures var t', meta' := After(t, threshold), Charged(meta, t, threshold);
      && |t'.occurrences| <= |t.occurrences| && |t'.placements| <= |t.placements| && |t'.links| <= |t.links|
      && meta'.capacityOccurrences == Saturated(meta.capacityOccurrences + |t.occurrences| - |t'.occurrences|)
      && meta'.capacityPlacements == Saturated(meta.capacityPlacements + |t.placements| - |t'.placements|)
      && meta'.capacityLinks == Saturated(meta.capacityLinks + |t.links| - |t'.links|)
  {
    OccurrencesLost(t, threshold);
    PlacementsLost(t, threshold);
    LinksLost(t, threshold);
  }

  /** The recorded time is at least that of every occurrence lost, and never moves back. */
  lemma ChargedThrough(meta: Meta, t: Tables, threshold: nat)
    ensures var t', meta' := After(t, threshold), Charged(meta, t, threshold);
      && (forall o :: o in t.occurrences && o !in t'.occurrences ==>
            meta'.evictedThrough.Some? && t.occurrences[o].at <= meta'.evictedThrough.value)
      && (meta.evictedThrough.Some? ==>
        meta'.evictedThrough.Some? && meta.evictedThrough.value <= meta'.evictedThrough.value)
  {
    forall o | o in t.occurrences && o !in After(t, threshold).occurrences
      ensures t.occurrences[o].at in TimesUpTo(t, threshold)
    {
      assert o in UpTo(t, threshold);
    }
  }

  lemma NothingAfterZero(t: Tables)
    requires NoOrphans(t) && PositiveIds(t)
    ensures After(t, 0) == t
  {
    forall p | p in t.placements ensures t.placements[p].occurrence > 0 {
      assert t.placements[p].occurrence != 0;
    }
    forall l | l in t.links ensures t.links[l].occurrence > 0 {
      assert t.links[l].occurrence != 0;
    }
  }

  lemma PrunedWhole(t: Tables, now: int)
    requires Consistent(t)
    ensures var young := AgeOut(t, now - RETENTION); Threshold(young) == 0 ==> Pruned(t, now) == young
  {
    var cutoff := now - RETENTION;
    AgeOutWithout(t, cutoff);
    WithoutKeeps(t, Aged(t, cutoff), AgeOut(t, cutoff));
    if Threshold(AgeOut(t, cutoff)) == 0 {
      NothingAfterZero(AgeOut(t, cutoff));
    }
  }

  /** The two deletions make a prune. */
  lemma PruneSteps(meta: Meta, t: Tables, now: int, young: Tables, meta': Meta, t': Tables)
    requires Consistent(t) && young == AgeOut(t, now - RETENTION)
    requires if Threshold(young) > 0 then t' == After(young, Threshold(young))
      && meta' == Charged(meta, young, Threshold(young))
             else t' == young && meta' == meta
    ensures t' == Pruned(t, now) && Valid(t') && meta' == PrunedMeta(meta, t, now)
  {
    PruneKeeps(t, now);
    PrunedWhole(t, now);
  }

  lemma InsertedConsistent(env: Env, t: Tables, d: Delivery, now: int)
    requires Consistent(t)
    ensures Consistent(Inserted(env, t, d, now))
  {
    var r := Retain(env, d.placements);
    RetainExact(env, d.placements);
    InsertedExtends(env, t, d, now);
    ExtendsKeeps(t, NextId(t.occurrences), RowOf(env, d, now), |r.retained|, r.kept, Inserted(env, t, d, now));
  }

  /* ---- inserting rows one by one ---- */

  /** Inserting placements one after the other. */
  function PlacementsInserted(rows: map<nat, Placed>, n: nat, retained: seq<Retained>): map<nat, Placed> {
    if retained == [] then rows
    else
      var k := |retained| - 1;
      var now := PlacementsInserted(rows, n, retained[..k]);
      now[NextId(now) := Placed(n, retained[k].record, retained[k].group)]
  }

  lemma {:induction false} NextRange<T>(rows: map<nat, T>, more: map<nat, T>, k: nat)
    requires more.Keys == Range(MaxOf(rows.Keys), k)
    ensures NextId(rows + more) == MaxOf(rows.Keys) + k + 1
  {
    var base, all := MaxOf(rows.Keys), rows + more;
    assert all.Keys == rows.Keys + Range(base, k);
    assert k > 0 ==> base + k in all.Keys;
    assert MaxOf(all.Keys) == base + k;
  }

  lemma {:induction false} OnePlacedRow(base: nat, n: nat, front: seq<Retained>, item: Retained)
    ensures PlacedRows(base, n, front + [item])
      == PlacedRows(base, n, front)[base + |front| + 1 := Placed(n, item.record, item.group)]
  {
    assert Range(base, |front| + 1) == Range(base, |front|) + {base + |front| + 1};
  }

  lemma {:induction false} NextPlacement(rows: map<nat, Placed>, base: nat, n: nat, front: seq<Retained>,
      item: Retained, now: map<nat, Placed>)
    requires base == MaxOf(rows.Keys) && now == rows + PlacedRows(base, n, front)
    ensures NextId(now) == base + |front| + 1
    ensures now[NextId(now) := Placed(n, item.record, item.group)] == rows + PlacedRows(base, n, front + [item])
  {
    NextRange(rows, PlacedRows(base, n, front), |front|);
    OnePlacedRow(base, n, front, item);
  }

  lemma {:induction false} PlacementsInsertedAre(rows: map<nat, Placed>, n: nat, retained: seq<Retained>)
    ensures PlacementsInserted(rows, n, retained) == rows + PlacedRows(MaxOf(rows.Keys), n, retained)
  {
    var base := MaxOf(rows.Keys);
    if retained == [] {
      assert PlacedRows(base, n, retained) == map[];
    } else {
      var k := |retained| - 1;
      PlacementsInsertedAre(rows, n, retained[..k]);
      NextPlacement(rows, base, n, retained[..k], retained[k], PlacementsInserted(rows, n, retained[..k]));
      assert retained == retained[..k] + [retained[k]];
    }
  }

  lemma {:induction false} NextPlacementId(rows: map<nat, Placed>, n: nat, retained: seq<Retained>)
    ensures NextId(PlacementsInserted(rows, n, retained)) == MaxOf(rows.Keys) + |retained| + 1
  {
    var base, now := MaxOf(rows.Keys), PlacementsInserted(rows, n, retained);
    PlacementsInsertedAre(rows, n, retained);
    assert now.Keys == rows.Keys + Range(base, |retained|);
    assert retained != [] ==> base + |retained| in now.Keys;
    assert MaxOf(now.Keys) == base + |retained|;
  }

  lemma {:induction false} OneLinkRow(base: nat, front: seq<Link>, l: Link)
    ensures LinkRows(base, front + [l]) == LinkRows(base, front)[base + |front| + 1 := l]
  {
    assert Range(base, |front| + 1) == Range(base, |front|) + {base + |front| + 1};
  }

  lemma {:induction false} NextLink(rows: map<nat, Link>, base: nat, front: seq<Link>, l: Link, now: map<nat, Link>)
    requires base == MaxOf(rows.Keys) && now == rows + LinkRows(base, front)
    ensures now[NextId(now) := l] == rows + LinkRows(base, front + [l])
  {
    NextRange(rows, LinkRows(base, front), |front|);
    OneLinkRow(base, front, l);
  }

  /** Inserting links one after the other. */
  function LinksInserted(rows: map<nat, Link>, flat: seq<Link>): map<nat, Link> {
    if flat == [] then rows
    else
      var now := LinksInserted(rows, flat[..|flat| - 1]);
      now[NextId(now) := flat[|flat| - 1]]
  }

  lemma {:induction false} LinksInsertedAre(rows: map<nat, Link>, flat: seq<Link>)
    ensures LinksInserted(rows, flat) == rows + LinkRows(MaxOf(rows.Keys), flat)
  {
    if flat == [] {
      assert LinkRows(MaxOf(rows.Keys), flat) == map[];
    } else {
      var k := |flat| - 1;
      LinksInsertedAre(rows, flat[..k]);
      NextLink(rows, MaxOf(rows.Keys), flat[..k], flat[k], LinksInserted(rows, flat[..k]));
      assert flat == flat[..k] + [flat[k]];
    }
  }

  /** `executemany` of one placement's links. */
  method InsertLinks(links: map<nat, Link>, n: nat, id: nat, to: seq<LinkTo>, ghost rows: map<nat, Link>,
      ghost flat: seq<Link>, ghost from: nat)
    returns (r: map<nat, Link>)
    requires from + |to| == |flat|
    requires forall j :: 0 <= j < |to| ==> flat[from + j] == Link(n, id, to[j].0, to[j].1)
    requires links == LinksInserted(rows, flat[..from])
    ensures r == LinksInserted(rows, flat)
  {
    r := links;
    for j := 0 to |to|
      invariant r == LinksInserted(rows, flat[..from + j])
    {
      assert flat[..from + j + 1][..from + j] == flat[..from + j];
      r := r[NextId(r) := Link(n, id, to[j].0, to[j].1)];
    }
    assert flat[..from + |to|] == flat;
  }

  lemma {:induction false} NextFlat(base: nat, n: nat, retained: seq<Retained>, k: nat)
    requires k < |retained|
    ensures var flat, more := FlatLinks(base, n, retained[..k]), FlatLinks(base, n, retained[..k + 1]);
      && |more| == |flat| + |retained[k].links| && more[..|flat|] == flat
      && forall j :: 0 <= j < |retained[k].links| ==>
           more[|flat| + j] == Link(n, base + k + 1, retained[k].links[j].0, retained[k].links[j].1)
  {
    assert retained[..k + 1][..k] == retained[..k];
  }

  lemma {:induction false} NextInserted(rows: map<nat, Placed>, n: nat, retained: seq<Retained>, k: nat)
    requires k < |retained|
    ensures var now := PlacementsInserted(rows, n, retained[..k]);
      && NextId(now) == MaxOf(rows.Keys) + k + 1
      && PlacementsInserted(rows, n, retained[..k + 1])
        == now[NextId(now) := Placed(n, retained[k].record, retained[k].group)]
  {
    NextPlacementId(rows, n, retained[..k]);
    assert retained[..k + 1][..k] == retained[..k];
  }

  class Ledger {
    var occurrences: map<nat, Occurrence>
    var placements: map<nat, Placed>
    var links: map<nat, Link>
    var meta: Meta

    function Rows(): Tables
      reads this
    {
      Tables(occurrences, placements, links)
    }

    constructor ()
      ensures Rows() == EMPTY && Valid(Rows()) && meta == NO_META
    {
      occurrences, placements, links, meta := map[], map[], map[], NO_META;
      new;
      EmptyValid();
    }

    /** `_delete_through`, for capacity. */
    method DeleteThrough(threshold: nat)
      modifies this
      ensures Rows() == After(old(Rows()), threshold)
      ensures meta == Charged(old(meta), old(Rows()), threshold)
    {
      var times := TimesUpTo(Rows(), threshold);
      meta := meta.(
        capacityOccurrences := Saturated(meta.capacityOccurrences + |UpTo(Rows(), threshold)|),
        capacityPlacements := Saturated(meta.capacityPlacements + |PlacementsUpTo(Rows(), threshold)|),
        capacityLinks := Saturated(meta.capacityLinks + |LinksUpTo(Rows(), threshold)|));
      if exists at :: at in times {
        meta := meta.(evictedThrough := Some(Later(meta.evictedThrough, LatestOf(times))));
      }
      links := map l | l in links && links[l].occurrence > threshold :: links[l];
      placements := map p | p in placements && placements[p].occurrence > threshold :: placements[p];
      occurrences := map o | o in occurrences && o > threshold :: occurrences[o];
    }

    method DeleteBefore(cutoff: int)
      modifies this`occurrences, this`placements, this`links
      ensures Rows() == AgeOut(old(Rows()), cutoff)
    {
      var aged := Aged(Rows(), cutoff);
      links := map l | l in links && links[l].occurrence !in aged :: links[l];
      placements := map p | p in placements && placements[p].occurrence !in aged :: placements[p];
      occurrences := map o | o in occurrences && o !in aged :: occurrences[o];
    }

    /** `prune`: by age, then by capacity. */
    method Prune(now: int)
      requires Consistent(Rows())
      modifies this
      ensures Rows() == Pruned(old(Rows()), now) && Valid(Rows())
      ensures meta == PrunedMeta(old(meta), old(Rows()), now)
    {
      ghost var before, charged := Rows(), meta;
      DeleteBefore(now - RETENTION);
      ghost var young := Rows();
      var threshold := Threshold(Rows());
      if threshold > 0 {
        DeleteThrough(threshold);
      }
      PruneSteps(charged, before, now, young, meta, Rows());
    }

    /** The next placement's row and its links. */
    method InsertNext(n: nat, retained: seq<Retained>, k: nat, ghost rows: map<nat, Placed>,
        ghost linked: map<nat, Link>)
      requires k < |retained| && placements == PlacementsInserted(rows, n, retained[..k])
      requires links == LinksInserted(linked, FlatLinks(MaxOf(rows.Keys), n, retained[..k]))
      modifies this`placements, this`links
      ensures placements == PlacementsInserted(rows, n, retained[..k + 1])
      ensures links == LinksInserted(linked, FlatLinks(MaxOf(rows.Keys), n, retained[..k + 1]))
    {
      NextInserted(rows, n, retained, k);
      NextFlat(MaxOf(rows.Keys), n, retained, k);
      ghost var flat, more := FlatLinks(MaxOf(rows.Keys), n, retained[..k]),
        FlatLinks(MaxOf(rows.Keys), n, retained[..k + 1]);
      var id := NextId(placements);
      placements := placements[id := Placed(n, retained[k].record, retained[k].group)];
      links := InsertLinks(links, n, id, retained[k].links, linked, more, |flat|);
    }

    /** One row per retained placement, its links right after it. */
    method InsertChildren(n: nat, retained: seq<Retained>)
      modifies this`placements, this`links
      ensures placements == PlacementsInserted(old(placements), n, retained)
      ensures links == LinksInserted(old(links), FlatLinks(MaxOf(old(placements).Keys), n, retained))
    {
      ghost var rows, linked := placements, links;
      assert retained[..0] == [];
      for k := 0 to |retained|
        invariant placements == PlacementsInserted(rows, n, retained[..k])
        invariant links == LinksInserted(linked, FlatLinks(MaxOf(rows.Keys), n, retained[..k]))
      {
        InsertNext(n, retained, k, rows, linked);
      }
      assert retained[..|retained|] == retained;
    }

    /** `append`: the evidence is collected in one pass, inserted row by row, and pruned. */
    method Append(env: Env, d: Delivery, now: int) returns (r: Result<nat, Refusal>)
      requires Valid(Rows())
      modifies this
      ensures Refused(d).Some? ==> r == Err(Refused(d).value) && meta == old(meta)
      ensures Refused(d).None? ==> r == Ok(NextId(old(occurrences)))
      ensures Rows() == Appended(env, old(Rows()), d, now) && Valid(Rows())
      ensures Refused(d).None? ==>
        meta == PrunedMeta(Since(old(meta), now), Inserted(env, old(Rows()), d, now), now)
    {
      var refusal := Refused(d);
      if refusal.Some? {
        return Err(refusal.value);
      }
      ghost var before := Rows();
      var progress := Collect(env, d.placements);
      var n := NextId(occurrences);
      occurrences := occurrences[n := RowOf(env, d, now)];
      InsertChildren(n, progress.retained);
      meta := Since(meta, now);
      PlacementsInsertedAre(before.placements, n, progress.retained);
      LinksInsertedAre(before.links, FlatLinks(MaxOf(before.placements.Keys), n, progress.retained));
      assert Rows() == Inserted(env, before, d, now);
      assert Consistent(Rows()) by {
        InsertedConsistent(env, before, d, now);
      }
      Prune(now);
      r := Ok(n);
    }
  }

  function Since(meta: Meta, now: int): Meta {
    if meta.recordingSince.Some? then meta else meta.(recordingSince := Some(now))
  }

  /** The loop over the rendered placements. */
  method Collect(env: Env, placements: seq<Placement>) returns (progress: Progress)
    ensures progress == Retain(env, placements)
  {
    progress := Progress([], 0, 0, false);
    for i := 0 to |placements|
      invariant progress == Retain(env, placements[..i])
    {
      assert placements[..i + 1][..i] == placements[..i];
      progress := CollectNext(env, progress, i, placements[i]);
    }
    assert placements[..|placements|] == placements;
  }

  method CollectNext(env: Env, prior: Progress, i: nat, p: Placement) returns (next: Progress)
    ensures next == RetainStep(env, prior, i, p)
  {
    var retained, total, kept, omitted := prior.retained, prior.total, prior.kept, prior.omitted;
    var paths := PathsOf(env, p);
    total := total + |paths|;
    if i >= PLACEMENTS_PER_OCCURRENCE || !env.recordOk(p.record) {
      omitted := true;
    } else {
      var group := SafeGroup(env, p);
      omitted := omitted || (p.group.Some? && group.None?);
      var links, lost := CollectLinks(env, paths, BasisOf(p), kept);
      omitted := omitted || lost;
      kept := kept + |links|;
      retained := retained + [Retained(p.record, group, links)];
    }
    next := Progress(retained, total, kept, omitted);
  }

  /** The loop over one placement's paths. */
  method CollectLinks(env: Env, paths: seq<string>, basis: string, kept: nat) returns (links: seq<LinkTo>, lost: bool)
    ensures links == SafeLinks(env, paths, basis, kept)
    ensures lost <==> |links| < |paths|
  {
    links, lost := [], false;
    for j := 0 to |paths|
      invariant links == SafeLinks(env, paths[..j], basis, kept)
      invariant lost <==> |links| < j
    {
      assert paths[..j + 1][..j] == paths[..j];
      if !env.pathOk(paths[j]) || kept + |links| >= LINKS_PER_OCCURRENCE {
        lost := true;
      } else {
        links := links + [(paths[j], basis)];
      }
    }
    assert paths[..|paths|] == paths;
  }
}
