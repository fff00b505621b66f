/** Which accepted domain holds a covered slug: the `supersedes` lineage, and its splits. */
module DomainLineage {
  import opened Wrappers
  import opened Ordering

  datatype Domain = Domain(id: string, supersedes: Option<string>)

  type Store = map<string, Domain>

  /** The store files a domain under its own id. */
  predicate Filed(store: Store) {
    forall id :: id in store ==> store[id].id == id
  }

  function Parent(store: Store, d: Domain): Option<Domain> {
    if d.supersedes.Some? && d.supersedes.value in store then Some(store[d.supersedes.value]) else None
  }

  /** The k-th record along the chain from `d`. */
  function Chain(store: Store, d: Domain, k: nat): Option<Domain> {
    if k == 0 then Some(d)
    else
      match Chain(store, d, k - 1)
      case None => None
      case Some(x) => Parent(store, x)
  }

  ghost predicate FirstCovered(store: Store, covered: map<string, string>, d: Domain, k: nat) {
    && Chain(store, d, k).Some? && Chain(store, d, k).value.id in covered
    && forall j: nat :: j < k && Chain(store, d, j).Some? ==> Chain(store, d, j).value.id !in covered
  }

  /** `d` descends from the record of a covered slug, with no other covered record in between. */
  ghost predicate HoldsSlug(store: Store, covered: map<string, string>, d: Domain, slug: string) {
    exists k: nat :: FirstCovered(store, covered, d, k) && covered[Chain(store, d, k).value.id] == slug
  }

  lemma {:induction false} ChainEnds(store: Store, d: Domain, k: nat, n: nat)
    requires k <= n && Chain(store, d, k).None?
    ensures Chain(store, d, n).None?
  {
    if k < n { ChainEnds(store, d, k, n - 1); }
  }

  lemma {:induction false} ChainPrefix(store: Store, d: Domain, k: nat, n: nat)
    requires k <= n && Chain(store, d, n).Some?
    ensures Chain(store, d, k).Some?
  {
    if Chain(store, d, k).None? { ChainEnds(store, d, k, n); }
  }

  lemma {:induction false} ChainFiled(store: Store, d: Domain, k: nat)
    requires Filed(store) && d.id in store && store[d.id] == d && Chain(store, d, k).Some?
    ensures Chain(store, d, k).value.id in store && store[Chain(store, d, k).value.id] == Chain(store, d, k).value
  {
    if k > 0 {
      ChainPrefix(store, d, k - 1, k);
      ChainFiled(store, d, k - 1);
    }
  }

  lemma {:induction false} Periodic(store: Store, d: Domain, j: nat, k: nat, m: nat)
    requires j < k && Chain(store, d, j) == Chain(store, d, k)
    ensures Chain(store, d, j + m) == Chain(store, d, k + m)
  {
    if m > 0 { Periodic(store, d, j, k, m - 1); }
  }

  /** Once the chain repeats a record it visits nothing new. */
  lemma {:induction false} CycleIsSeen(store: Store, d: Domain, j: nat, k: nat, n: nat) returns (i: nat)
    requires j < k && Chain(store, d, j) == Chain(store, d, k) && Chain(store, d, k).Some?
    ensures i < k && Chain(store, d, i) == Chain(store, d, n)
  {
    if n < k {
      i := n;
    } else {
      Periodic(store, d, j, k, n - k);
      i := CycleIsSeen(store, d, j, k, j + (n - k));
    }
  }

  /** The ids of the first records of the chain. */
  ghost predicate Trail(store: Store, d: Domain, ids: seq<string>) {
    forall j :: 0 <= j < |ids| ==> Chain(store, d, j).Some? && Chain(store, d, j).value.id == ids[j]
  }

  /** A walk that ran out, or came back to an id it has seen, has seen every record. */
  lemma {:induction false} TrailIsAll(store: Store, d: Domain, ids: seq<string>, n: nat)
    requires Filed(store) && d.id in store && store[d.id] == d && Trail(store, d, ids)
    requires Chain(store, d, |ids|).None? || Chain(store, d, |ids|).value.id in ids
    requires Chain(store, d, n).Some?
    ensures Chain(store, d, n).value.id in ids
  {
    if Chain(store, d, |ids|).None? {
      if |ids| <= n {
        ChainEnds(store, d, |ids|, n);
      }
      assert ids[n] in ids;
    } else {
      var j :| 0 <= j < |ids| && ids[j] == Chain(store, d, |ids|).value.id;
      ChainFiled(store, d, j);
      ChainFiled(store, d, |ids|);
      var i := CycleIsSeen(store, d, j, |ids|, n);
      assert ids[i] in ids;
    }
  }

  lemma {:induction false} NeverCovered(store: Store, covered: map<string, string>, d: Domain, ids: seq<string>,
      s: string)
    requires Filed(store) && d.id in store && store[d.id] == d && Trail(store, d, ids)
    requires Chain(store, d, |ids|).None? || Chain(store, d, |ids|).value.id in ids
    requires forall id :: id in ids ==> id !in covered
    ensures !HoldsSlug(store, covered, d, s)
  {
    forall n: nat | Chain(store, d, n).Some? ensures Chain(store, d, n).value.id !in covered {
      TrailIsAll(store, d, ids, n);
    }
  }

  lemma {:induction false} CoveredNow(store: Store, covered: map<string, string>, d: Domain, ids: seq<string>)
    requires Trail(store, d, ids) && forall id :: id in ids ==> id !in covered
    requires Chain(store, d, |ids|).Some? && Chain(store, d, |ids|).value.id in covered
    ensures FirstCovered(store, covered, d, |ids|)
  {
    forall j: nat | j < |ids| ensures Chain(store, d, j).value.id !in covered {
      assert ids[j] in ids;
    }
  }

  /** `snapshot_slug_of`: finds the first covered record of any chain, cyclic ones included. */
  method SlugOf(store: Store, covered: map<string, string>, d: Domain) returns (slug: Option<string>)
    requires Filed(store) && d.id in store && store[d.id] == d
    ensures forall s :: slug == Some(s) <==> HoldsSlug(store, covered, d, s)
  {
    var seen: set<string> := {};
    var current := Some(d);
    ghost var ids: seq<string> := [];
    while current.Some? && current.value.id !in seen
      invariant Chain(store, d, |ids|) == current && Trail(store, d, ids)
      invariant seen <= store.Keys && (current.Some? ==> current.value.id in store)
      invariant forall id :: id in seen <==> id in ids
      invariant forall id :: id in ids ==> id !in covered
      decreases store.Keys - seen
    {
      var id := current.value.id;
      if id in covered {
        CoveredNow(store, covered, d, ids);
        forall s ensures HoldsSlug(store, covered, d, s) <==> s == covered[id] {
          FirstIsUnique(store, covered, d, |ids|, s);
        }
        return Some(covered[id]);
      }
      seen := seen + {id};
      current := Parent(store, current.value);
      ids := ids + [id];
    }
    forall s ensures !HoldsSlug(store, covered, d, s) {
      NeverCovered(store, covered, d, ids, s);
    }
    slug := None;
  }

  lemma {:induction false} FirstIsUnique(store: Store, covered: map<string, string>, d: Domain, k: nat, s: string)
    requires FirstCovered(store, covered, d, k)
    ensures HoldsSlug(store, covered, d, s) <==> s == covered[Chain(store, d, k).value.id]
  {
    if HoldsSlug(store, covered, d, s) {
      var n: nat :| FirstCovered(store, covered, d, n) && covered[Chain(store, d, n).value.id] == s;
      assert n == k;
    }
  }

  predicate Accepted(store: Store, accepted: seq<Domain>) {
    && (forall d :: d in accepted ==> d.id in store && store[d.id] == d)
    && forall i, j :: 0 <= i < j < |accepted| ==> accepted[i].id != accepted[j].id
  }

  /** The accepted domains among `done` that hold a slug. */
  ghost function Holders(store: Store, covered: map<string, string>, done: seq<Domain>, slug: string): set<string> {
    set d | d in done && HoldsSlug(store, covered, d, slug) :: d.id
  }

  lemma MoreHolders(store: Store, covered: map<string, string>, done: seq<Domain>, d: Domain, slug: Option<string>,
      s: string)
    requires slug == Some(s) <==> HoldsSlug(store, covered, d, s)
    ensures Holders(store, covered, done + [d], s)
      == Holders(store, covered, done, s) + (if slug == Some(s) then {d.id} else {})
  {
  }

  function Reached(reach: map<string, set<string>>, s: string): set<string> {
    if s in reach then reach[s] else {}
  }

  /** Covered slug -> the accepted domains that hold it. */
  method Reach(store: Store, covered: map<string, string>, accepted: seq<Domain>)
      returns (reach: map<string, set<string>>)
    requires Filed(store) && Accepted(store, accepted)
    ensures forall s :: Reached(reach, s) == Holders(store, covered, accepted, s)
  {
    reach := map[];
    for k := 0 to |accepted|
      invariant forall s :: Reached(reach, s) == Holders(store, covered, accepted[..k], s)
    {
      var d := accepted[k];
      assert d in accepted && accepted[..k + 1] == accepted[..k] + [d];
      var slug := SlugOf(store, covered, d);
      forall s ensures Holders(store, covered, accepted[..k + 1], s)
                    == Holders(store, covered, accepted[..k], s) + (if slug == Some(s) then {d.id} else {}) {
        MoreHolders(store, covered, accepted[..k], d, slug, s);
      }
      ghost var before := reach;
      if slug.Some? {
        reach := reach[slug.value := Reached(reach, slug.value) + {d.id}];
      }
      forall s ensures Reached(reach, s) == Reached(before, s) + (if slug == Some(s) then {d.id} else {}) {}
    }
    assert accepted[..|accepted|] == accepted;
  }

  /** Slugs in several groups, the groups disjoint. */
  ghost predicate Apart(reach: map<string, set<string>>) {
    forall a, b :: a != b ==> Reached(reach, a) !! Reached(reach, b)
  }

  /** `snapshot_heirs`: a slug is held by its one descendant; two or more make it a split,
      which nobody holds. */
  method SnapshotHeirs(store: Store, covered: map<string, string>, accepted: seq<Domain>)
    returns (heirs: map<string, string>, splits: map<string, seq<string>>)
    requires Filed(store) && Accepted(store, accepted)
    ensures forall id, s :: id in heirs && heirs[id] == s <==> Holders(store, covered, accepted, s) == {id}
    ensures forall s :: s in splits <==> |Holders(store, covered, accepted, s)| > 1
    ensures forall s :: s in splits ==>
      Increasing(splits[s], LexLess) && forall id :: id in splits[s] <==> id in Holders(store, covered, accepted, s)
  {
    var reach := Reach(store, covered, accepted);
    forall a, b | a != b ensures Reached(reach, a) !! Reached(reach, b) {
      OneSlugEach(store, covered, accepted, a, b);
    }
    heirs, splits := Divide(reach);
  }

  method Divide(reach: map<string, set<string>>) returns (heirs: map<string, string>, splits: map<string, seq<string>>)
    requires Apart(reach)
    ensures forall id, s :: id in heirs && heirs[id] == s <==> Reached(reach, s) == {id}
    ensures forall s :: s in splits <==> |Reached(reach, s)| > 1
    ensures forall s :: s in splits ==> Increasing(splits[s], LexLess) && forall id :: id in splits[s] <==>
      id in Reached(reach, s)
  {
    forall a, b | a in reach && b in reach && a != b && |reach[a]| == 1 && |reach[b]| == 1
      ensures OnlyOne(reach[a]) != OnlyOne(reach[b])
    {
      assert Reached(reach, a) !! Reached(reach, b);
    }
    heirs := map s | s in reach && |reach[s]| == 1 :: OnlyOne(reach[s]) := s;
    splits := map s | s in reach && |reach[s]| > 1 :: SortedIds(reach[s]);
  }

  function SortedIds(s: set<string>): (r: seq<string>)
    ensures Increasing(r, LexLess) && forall x :: x in r <==> x in s
  {
    LexTotal();
    Sorted(s, LexLess)
  }

  function OnlyOne(s: set<string>): (x: string)
    requires |s| == 1
    ensures s == {x}
  {
    assert exists x :: s == {x} by {
      var x :| x in s;
      assert |s - {x}| == 0;
      assert s == {x};
    }
    var x :| s == {x};
    x
  }

  lemma OneSlugEach(store: Store, covered: map<string, string>, accepted: seq<Domain>, a: string, b: string)
    requires Accepted(store, accepted) && a != b
    ensures Holders(store, covered, accepted, a) !! Holders(store, covered, accepted, b)
  {
    forall d | d in accepted && HoldsSlug(store, covered, d, a) ensures !HoldsSlug(store, covered, d, b) {
      var k: nat :| FirstCovered(store, covered, d, k) && covered[Chain(store, d, k).value.id] == a;
      FirstIsUnique(store, covered, d, k, b);
    }
  }
}
