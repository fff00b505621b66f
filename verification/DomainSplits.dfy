/** Domain splits: the live parts a replaced domain has, over any supersession graph. */
module DomainSplits {
  import opened Wrappers
  import opened Ordering

  datatype Status = Accepted | Superseded | Proposed | Dropped | Rejected

  datatype Domain = Domain(id: string, supersedes: Option<string>, status: Status)

  type Domains = map<string, Domain>

  predicate Filed(ds: Domains) {
    forall id :: id in ds ==> ds[id].id == id
  }

  /** Accepted or superseded: only such records are part of a chain. */
  predicate Live(ds: Domains, x: string) {
    x in ds && (ds[x].status.Accepted? || ds[x].status.Superseded?)
  }

  /** `c` is on a chain and replaces `p`. */
  predicate Child(ds: Domains, p: string, c: string) {
    Live(ds, c) && ds[c].supersedes == Some(p)
  }

  predicate IsAccepted(ds: Domains, x: string) {
    x in ds && ds[x].status.Accepted?
  }

  predicate IsSuperseded(ds: Domains, x: string) {
    x in ds && ds[x].status.Superseded?
  }

  /** From `a` to `x` in `n` steps, each from a superseded domain to one that replaces it. */
  ghost predicate Leads(ds: Domains, a: string, x: string, n: nat)
    decreases n
  {
    if n == 0 then a == x else IsSuperseded(ds, a) && exists m :: Child(ds, a, m) && Leads(ds, m, x, n - 1)
  }

  ghost predicate Reaches(ds: Domains, a: string, x: string) {
    exists n: nat :: Leads(ds, a, x, n)
  }

  /** An accepted domain at the end of a chain from `a`. */
  ghost predicate HeadOf(ds: Domains, a: string, x: string) {
    IsAccepted(ds, x) && Reaches(ds, a, x)
  }

  /** A live part of `p`: a head of one of its successors. */
  ghost predicate PartOf(ds: Domains, p: string, x: string) {
    exists c :: Child(ds, p, c) && HeadOf(ds, c, x)
  }

  ghost function Parts(ds: Domains, p: string): set<string> {
    set x | x in ds && PartOf(ds, p, x)
  }

  /* ---- reachability ---- */

  lemma {:induction false} LeadsOn(ds: Domains, a: string, x: string, c: string, n: nat)
    requires Leads(ds, a, x, n) && IsSuperseded(ds, x) && Child(ds, x, c)
    ensures Leads(ds, a, c, n + 1)
    decreases n
  {
    if n == 0 {
      assert Leads(ds, c, c, 0);
    } else {
      var m :| Child(ds, a, m) && Leads(ds, m, x, n - 1);
      LeadsOn(ds, m, x, c, n - 1);
    }
  }

  lemma ReachesOn(ds: Domains, a: string, x: string, c: string)
    requires Reaches(ds, a, x) && IsSuperseded(ds, x) && Child(ds, x, c)
    ensures Reaches(ds, a, c)
  {
    var n: nat :| Leads(ds, a, x, n);
    LeadsOn(ds, a, x, c, n);
  }

  lemma ReachesFrom(ds: Domains, a: string, c: string, x: string)
    requires IsSuperseded(ds, a) && Child(ds, a, c) && Reaches(ds, c, x)
    ensures Reaches(ds, a, x)
  {
    var n: nat :| Leads(ds, c, x, n);
    assert Leads(ds, a, x, n + 1);
  }

  lemma ReachesSelf(ds: Domains, a: string)
    ensures Reaches(ds, a, a)
  {
    assert Leads(ds, a, a, 0);
  }

  lemma {:induction false} ReachesThrough(ds: Domains, a: string, b: string, x: string, n: nat)
    requires Leads(ds, a, b, n) && Reaches(ds, b, x)
    ensures Reaches(ds, a, x)
    decreases n
  {
    if n > 0 {
      var m :| Child(ds, a, m) && Leads(ds, m, b, n - 1);
      ReachesThrough(ds, m, b, x, n - 1);
      ReachesFrom(ds, a, m, x);
    }
  }

  /** A set closed under replacing its superseded members holds all it reaches. */
  lemma {:induction false} ClosedHolds(ds: Domains, seen: set<string>, a: string, x: string, n: nat)
    requires forall y, c :: y in seen && IsSuperseded(ds, y) && Child(ds, y, c) ==> c in seen
    requires a in seen && Leads(ds, a, x, n)
    ensures x in seen
    decreases n
  {
    if n > 0 {
      var m :| Child(ds, a, m) && Leads(ds, m, x, n - 1);
      ClosedHolds(ds, seen, m, x, n - 1);
    }
  }

  /* ---- the breadth-first search ---- */

  function ChildrenOf(ds: Domains, p: string): set<string> {
    set c | c in ds && Child(ds, p, c)
  }

  /** `heads`: exactly the accepted domains reachable through superseded ones, on any graph. */
  method Heads(ds: Domains, start: string) returns (found: set<string>)
    requires Live(ds, start)
    ensures forall x :: x in found <==> HeadOf(ds, start, x)
  {
    found := {};
    var seen, queue := {start}, [start];
    ReachesSelf(ds, start);
    while queue != []
      invariant seen <= ds.Keys && start in seen
      invariant forall x :: x in queue ==> x in seen
      invariant forall x :: x in seen ==> Live(ds, x) && Reaches(ds, start, x)
      invariant forall x :: x in found ==> x in seen && IsAccepted(ds, x)
      invariant forall x :: x in seen && x !in queue && IsAccepted(ds, x) ==> x in found
      invariant forall x, c :: x in seen && x !in queue && IsSuperseded(ds, x) && Child(ds, x, c) ==> c in seen
      decreases ds.Keys - seen, |queue|
    {
      var current := queue[0];
      assert queue == [current] + queue[1..];
      assert current in queue && Live(ds, current);
      if ds[current].status.Accepted? {
        found := found + {current};
        queue := queue[1..];
        continue;
      }
      ghost var before := seen;
      queue, seen := Enqueue(ds, start, current, queue[1..], seen);
      assert before <= seen;
      if before == seen {
        assert |queue| < |[current] + queue|;
      }
    }
    forall x | HeadOf(ds, start, x) ensures x in found {
      var n: nat :| Leads(ds, start, x, n);
      ClosedHolds(ds, seen, start, x, n);
    }
  }

  /** The unseen successors of the current domain, each put on the queue once. */
  method Enqueue(ds: Domains, ghost start: string, current: string, queue: seq<string>, seen: set<string>)
    returns (queue': seq<string>, seen': set<string>)
    requires IsSuperseded(ds, current) && seen <= ds.Keys && Reaches(ds, start, current)
    requires forall x :: x in seen ==> Live(ds, x) && Reaches(ds, start, x)
    ensures seen <= seen' <= ds.Keys
    ensures seen' == seen ==> queue' == queue
    ensures forall x :: x in queue' ==> x in queue || x in seen'
    ensures forall x :: x in queue ==> x in queue'
    ensures forall x :: x in seen' && x !in seen ==> x in queue'
    ensures forall x :: x in seen' ==> Live(ds, x) && Reaches(ds, start, x)
    ensures forall c :: Child(ds, current, c) ==> c in seen'
  {
    queue', seen' := queue, seen;
    var rest := ChildrenOf(ds, current);
    while rest != {}
      invariant rest <= ChildrenOf(ds, current) && seen <= seen' <= ds.Keys
      invariant seen' == seen ==> queue' == queue
      invariant forall x :: x in queue' ==> x in queue || x in seen'
      invariant forall x :: x in queue ==> x in queue'
      invariant forall x :: x in seen' && x !in seen ==> x in queue'
      invariant forall x :: x in seen' ==> Live(ds, x) && Reaches(ds, start, x)
      invariant forall c :: c in ChildrenOf(ds, current) && c !in rest ==> c in seen'
      decreases |rest|
    {
      var c :| c in rest;
      if c !in seen' {
        ReachesOn(ds, start, current, c);
        queue', seen' := queue' + [c], seen' + {c};
      }
      rest := rest - {c};
    }
  }

  /* ---- the parts of every predecessor ---- */

  function ChildIds(ds: Domains): set<string> {
    set c | c in ds && Live(ds, c) && ds[c].supersedes.Some? :: ds[c].supersedes.value
  }

  function SortedIds(s: set<string>): (r: seq<string>)
    ensures Increasing(r, LexLess) && |r| == |s| && forall x :: x in r <==> x in s
  {
    LexTotal();
    SortedSize(s, LexLess);
    Sorted(s, LexLess)
  }

  method PartsOf(ds: Domains, p: string) returns (parts: set<string>)
    ensures parts == Parts(ds, p)
  {
    parts := {};
    var rest := ChildrenOf(ds, p);
    while rest != {}
      invariant rest <= ChildrenOf(ds, p)
      invariant forall x :: x in parts ==> x in Parts(ds, p)
      invariant forall c, x :: c in ChildrenOf(ds, p) - rest && HeadOf(ds, c, x) ==> x in parts
      decreases |rest|
    {
      var c :| c in rest;
      var heads := Heads(ds, c);
      parts := parts + heads;
      rest := rest - {c};
    }
    forall x | x in Parts(ds, p) ensures x in parts {
      var c :| Child(ds, p, c) && HeadOf(ds, c, x);
      assert c in ChildrenOf(ds, p);
    }
  }

  /** `domain_parts`: the sorted live parts of every predecessor that has one. */
  method DomainParts(ds: Domains) returns (r: map<string, seq<string>>)
    ensures forall p :: p in r <==> Parts(ds, p) != {}
    ensures forall p :: p in r ==>
      Increasing(r[p], LexLess) && |r[p]| == |Parts(ds, p)| && forall x :: x in r[p] <==> x in Parts(ds, p)
  {
    r := map[];
    var rest := ChildIds(ds);
    while rest != {}
      invariant rest <= ChildIds(ds)
      invariant forall p :: p in r <==> p in ChildIds(ds) - rest && Parts(ds, p) != {}
      invariant forall p :: p in r ==>
        Increasing(r[p], LexLess) && |r[p]| == |Parts(ds, p)| && forall x :: x in r[p] <==> x in Parts(ds, p)
      decreases |rest|
    {
      var p :| p in rest;
      var parts := PartsOf(ds, p);
      if parts != {} {
        r := r[p := SortedIds(parts)];
      }
      rest := rest - {p};
    }
    forall p | Parts(ds, p) != {} ensures p in ChildIds(ds) {
      var x :| x in Parts(ds, p);
      var c :| Child(ds, p, c) && HeadOf(ds, c, x);
    }
  }

  /** `split_added_by`: the predecessors whose split the accept of `d` created or grew. */
  ghost predicate SplitAddedAt(before: Domains, after: Domains, d: string, p: string) {
    |Parts(after, p)| > 1 && d in Parts(after, p) && |Parts(after, p)| > |Parts(before, p)|
  }

  method SplitAddedBy(before: Domains, after: Domains, d: string) returns (r: seq<string>)
    ensures Increasing(r, LexLess) && forall p :: p in r <==> SplitAddedAt(before, after, d, p)
  {
    var was := DomainParts(before);
    var now := DomainParts(after);
    r := SortedIds(set p | p in now && |now[p]| > 1 && d in now[p] && |now[p]| > (if p in was then |was[p]| else 0));
    forall p ensures p in r <==> SplitAddedAt(before, after, d, p) {
      assert p !in was ==> Parts(before, p) == {};
    }
  }

  /* ---- accepting a replacement ---- */

  /** `d`, proposed to replace the accepted `h`, is accepted, which closes `h`. */
  predicate Replaces(ds: Domains, d: string, h: string) {
    d in ds && d != h && ds[d].supersedes == Some(h) && ds[d].status.Proposed? && IsAccepted(ds, h)
  }

  function AcceptOver(ds: Domains, d: string, h: string): Domains
    requires Replaces(ds, d, h)
  {
    ds[d := ds[d].(status := Accepted)][h := ds[h].(status := Superseded)]
  }

  lemma AcceptedChildren(ds: Domains, d: string, h: string, a: string, c: string)
    requires Replaces(ds, d, h)
    ensures Child(AcceptOver(ds, d, h), a, c) <==> Child(ds, a, c) || (a == h && c == d)
  {
  }

  /** Heads other than `h` stay heads. */
  lemma {:induction false} HeadStays(ds: Domains, d: string, h: string, a: string, x: string, n: nat)
    requires Replaces(ds, d, h) && Leads(ds, a, x, n)
    ensures Reaches(AcceptOver(ds, d, h), a, x)
    decreases n
  {
    var ds' := AcceptOver(ds, d, h);
    if n == 0 {
      ReachesSelf(ds', a);
    } else {
      var m :| Child(ds, a, m) && Leads(ds, m, x, n - 1);
      HeadStays(ds, d, h, m, x, n - 1);
      AcceptedChildren(ds, d, h, a, m);
      ReachesFrom(ds', a, m, x);
    }
  }

  /** What is reached afterwards was reached before, or is reached through `h`. */
  lemma {:induction false} HeadCameFrom(ds: Domains, d: string, h: string, a: string, x: string, n: nat)
    requires Replaces(ds, d, h) && a != d && IsAccepted(AcceptOver(ds, d, h), x) && Leads(AcceptOver(ds, d, h), a, x, n)
    ensures x != d ==> HeadOf(ds, a, x) || (HeadOf(ds, a, h) && PartOf(ds, h, x))
    ensures x == d ==> HeadOf(ds, a, h)
    decreases n
  {
    var ds' := AcceptOver(ds, d, h);
    if n == 0 {
      ReachesSelf(ds, a);
    } else {
      var m :| Child(ds', a, m) && Leads(ds', m, x, n - 1);
      AcceptedChildren(ds, d, h, a, m);
      ReachesSelf(ds, h);
      if m == d {
        assert !IsSuperseded(ds', d);
        assert x == d && a == h;
      } else {
        HeadCameFrom(ds, d, h, m, x, n - 1);
        if a != h {
          HeadsOfChild(ds, a, m, x);
          HeadsOfChild(ds, a, m, h);
        }
      }
    }
  }

  lemma HeadsOfChild(ds: Domains, a: string, m: string, x: string)
    requires IsSuperseded(ds, a) && Child(ds, a, m)
    ensures HeadOf(ds, m, x) ==> HeadOf(ds, a, x)
  {
    if HeadOf(ds, m, x) { ReachesFrom(ds, a, m, x); }
  }

  /** Where `h` was a head, `d` now is, and with it every live part `h` already had. */
  lemma HeadMoved(ds: Domains, d: string, h: string, a: string)
    requires Replaces(ds, d, h) && HeadOf(ds, a, h)
    ensures HeadOf(AcceptOver(ds, d, h), a, d)
    ensures forall x :: PartOf(ds, h, x) && x != h ==> HeadOf(AcceptOver(ds, d, h), a, x)
  {
    var ds' := AcceptOver(ds, d, h);
    var n: nat :| Leads(ds, a, h, n);
    HeadStays(ds, d, h, a, h, n);
    AcceptedChildren(ds, d, h, h, d);
    ReachesOn(ds', a, h, d);
    forall x | PartOf(ds, h, x) && x != h ensures HeadOf(ds', a, x) {
      var c :| Child(ds, h, c) && HeadOf(ds, c, x);
      var k: nat :| Leads(ds, c, x, k);
      HeadStays(ds, d, h, c, x, k);
      AcceptedChildren(ds, d, h, h, c);
      ReachesOn(ds', a, h, c);
      var j: nat :| Leads(ds', a, c, j);
      ReachesThrough(ds', a, c, x, j);
    }
  }

  lemma PartsAfterAt(ds: Domains, d: string, h: string, p: string, x: string)
    requires Replaces(ds, d, h)
    ensures PartOf(AcceptOver(ds, d, h), p, x) <==>
      (x != h && PartOf(ds, p, x)) || ((PartOf(ds, p, h) || p == h) && (x == d || (x != h && PartOf(ds, h, x))))
  {
    var ds' := AcceptOver(ds, d, h);
    if PartOf(ds', p, x) {
      var c :| Child(ds', p, c) && HeadOf(ds', c, x);
      AcceptedChildren(ds, d, h, p, c);
      var n: nat :| Leads(ds', c, x, n);
      if c == d {
        assert !IsSuperseded(ds', d);
        assert x == d && p == h;
      } else {
        HeadCameFrom(ds, d, h, c, x, n);
      }
    }
    if x != h && PartOf(ds, p, x) {
      var c :| Child(ds, p, c) && HeadOf(ds, c, x);
      var n: nat :| Leads(ds, c, x, n);
      AcceptedChildren(ds, d, h, p, c);
      HeadStays(ds, d, h, c, x, n);
    }
    if PartOf(ds, p, h) && (x == d || (x != h && PartOf(ds, h, x))) {
      var c :| Child(ds, p, c) && HeadOf(ds, c, h);
      AcceptedChildren(ds, d, h, p, c);
      HeadMoved(ds, d, h, c);
    }
    if p == h && x == d {
      AcceptedChildren(ds, d, h, h, d);
      ReachesSelf(ds', d);
    }
  }

  /** The parts of every domain after the accept, exactly. */
  lemma PartsAfter(ds: Domains, d: string, h: string, p: string)
    requires Replaces(ds, d, h)
    ensures Parts(AcceptOver(ds, d, h), p) ==
      if h in Parts(ds, p) || p == h then (Parts(ds, p) + Parts(ds, h)) - {h} + {d} else Parts(ds, p)
    ensures d !in Parts(ds, p)
  {
    forall x ensures x in Parts(AcceptOver(ds, d, h), p) <==>
      x in if h in Parts(ds, p) || p == h then (Parts(ds, p) + Parts(ds, h)) - {h} + {d} else Parts(ds, p)
    {
      PartsAfterAt(ds, d, h, p, x);
    }
  }

  lemma SwapCount(s: set<string>, h: string, d: string)
    requires h in s && d !in s
    ensures |s - {h} + {d}| == |s|
  {
  }

  /** MAIN: a plain revision, whose predecessor had no live part, keeps every part count and
      creates no split. */
  lemma RevisionKeepsCounts(ds: Domains, d: string, h: string, p: string)
    requires Replaces(ds, d, h) && Parts(ds, h) == {}
    ensures p != h ==> |Parts(AcceptOver(ds, d, h), p)| == |Parts(ds, p)|
    ensures Parts(AcceptOver(ds, d, h), h) == {d}
    ensures !SplitAddedAt(ds, AcceptOver(ds, d, h), d, p)
  {
    PartsAfter(ds, d, h, p);
    PartsAfter(ds, d, h, h);
    assert Parts(AcceptOver(ds, d, h), h) == {d};
    if h in Parts(ds, p) {
      assert (Parts(ds, p) + {}) - {h} + {d} == Parts(ds, p) - {h} + {d};
      SwapCount(Parts(ds, p), h, d);
    }
  }

  /** Off a cycle, the accept adds a split exactly when its predecessor had a live part. */
  lemma SplitAddedExactly(ds: Domains, d: string, h: string)
    requires Replaces(ds, d, h) && h !in Parts(ds, h)
    ensures (exists p :: SplitAddedAt(ds, AcceptOver(ds, d, h), d, p)) <==> Parts(ds, h) != {}
  {
    if Parts(ds, h) == {} {
      forall p ensures !SplitAddedAt(ds, AcceptOver(ds, d, h), d, p) {
        RevisionKeepsCounts(ds, d, h, p);
      }
    } else {
      PartsAfter(ds, d, h, h);
      assert Parts(AcceptOver(ds, d, h), h) == Parts(ds, h) + {d};
      assert |Parts(ds, h)| > 0;
      assert SplitAddedAt(ds, AcceptOver(ds, d, h), d, h);
    }
  }
}
