/** Reading a snapshot does not depend on the order in which the graph lists its nodes. */
module DomainReordering {
  import opened Wrappers
  import opened Ordering
  import opened Sequences
  import opened DomainSnapshot

  ghost predicate Reordered<T>(a: seq<T>, b: seq<T>) {
    multiset(a) == multiset(b)
  }

  lemma SameMembers<T>(a: seq<T>, b: seq<T>)
    requires Reordered(a, b)
    ensures forall x :: x in a <==> x in b
    ensures |a| == |b|
  {
    forall x ensures x in a <==> x in b {
      assert x in a <==> x in multiset(a);
      assert x in b <==> x in multiset(b);
    }
    assert |multiset(a)| == |a| && |multiset(b)| == |b|;
  }

  lemma {:induction false} CountConcat<T(!new)>(a: seq<T>, b: seq<T>, f: T -> bool)
    ensures Count(a + b, f) == Count(a, f) + Count(b, f)
  {
    if b == [] {
      assert a + b == a;
    } else {
      var k := |b| - 1;
      CountConcat(a, b[..k], f);
      assert (a + b)[..|a + b| - 1] == a + b[..k];
    }
  }

  lemma {:induction false} KeepConcat<T(!new)>(a: seq<T>, b: seq<T>, f: T -> bool)
    ensures Keep(a + b, f) == Keep(a, f) + Keep(b, f)
  {
    if b == [] {
      assert a + b == a;
    } else {
      var k := |b| - 1;
      KeepConcat(a, b[..k], f);
      assert (a + b)[..|a + b| - 1] == a + b[..k];
    }
  }

  lemma {:induction false} CountReordered<T(!new)>(a: seq<T>, b: seq<T>, f: T -> bool)
    requires Reordered(a, b)
    ensures Count(a, f) == Count(b, f)
    decreases |a|
  {
    SameMembers(a, b);
    if a != [] {
      var init, x := a[..|a| - 1], a[|a| - 1];
      assert a == init + [x];
      var front, back := TakeOut(init, x, b);
      CountReordered(init, front + back, f);
      CountConcat(front, back, f);
      CountConcat(front + [x], back, f);
      CountConcat(front, [x], f);
      CountConcat(init, [x], f);
    }
  }

  lemma {:induction false} KeepReordered<T(!new)>(a: seq<T>, b: seq<T>, f: T -> bool)
    requires Reordered(a, b)
    ensures Reordered(Keep(a, f), Keep(b, f))
    decreases |a|
  {
    SameMembers(a, b);
    if a != [] {
      var init, x := a[..|a| - 1], a[|a| - 1];
      assert a == init + [x];
      var front, back := TakeOut(init, x, b);
      KeepReordered(init, front + back, f);
      KeepConcat(front, back, f);
      KeepConcat(front + [x], back, f);
      KeepConcat(front, [x], f);
      KeepConcat(init, [x], f);
    }
  }

  lemma {:induction false} CountSame<T(!new)>(a: seq<T>, f: T -> bool, g: T -> bool)
    requires forall x :: x in a ==> f(x) == g(x)
    ensures Count(a, f) == Count(a, g)
  {
    if a != [] {
      CountSame(a[..|a| - 1], f, g);
      assert a[|a| - 1] in a;
    }
  }

  lemma {:induction false} LastEntrySame(entries: seq<Entry>, f: Entry -> bool, g: Entry -> bool)
    requires forall e :: f(e) == g(e)
    ensures LastEntry(entries, f) == LastEntry(entries, g)
  {
    if entries != [] { LastEntrySame(entries[..|entries| - 1], f, g); }
  }

  /** One file. */
  lemma FileSetReordered(env: Env, a: seq<Node>, b: seq<Node>, f: FileEntry, n: Node)
    requires Reordered(a, b)
    ensures FileSet(env, a, f, n) == FileSet(env, b, f, n)
  {
    var key := env.canon(n.name);
    SameMembers(a, b);
    CountReordered(a, b, NodeNamed(env, key));
    LastEntrySame(f.nodes, Unmatched(env, a, key), Unmatched(env, b, key));
  }

  lemma ListedSetReordered(env: Env, a: seq<Node>, b: seq<Node>, snap: Snapshot, n: Node)
    requires Reordered(a, b) && IsListed(snap, n)
    ensures ListedSet(env, a, snap, n) == ListedSet(env, b, snap, n)
  {
    KeepReordered(a, b, InPath(n.path));
    FileSetReordered(env, Keep(a, InPath(n.path)), Keep(b, InPath(n.path)), snap.files[n.path], n);
  }

  lemma HoldsReordered(env: Env, a: seq<Node>, b: seq<Node>, snap: Snapshot, slug: string, n: Node)
    requires Reordered(a, b)
    ensures HoldsSlug(env, a, snap, slug)(n) == HoldsSlug(env, b, snap, slug)(n)
  {
    if IsListed(snap, n) { ListedSetReordered(env, a, b, snap, n); }
  }

  /** The voters for a slug, counted. */
  lemma {:induction false} VotersReordered(env: Env, a: seq<Node>, b: seq<Node>, snap: Snapshot,
      community: string, slug: string)
    requires Reordered(a, b)
    ensures var va, vb := Keep(a, Voter(snap, community)), Keep(b, Voter(snap, community));
      |va| == |vb| && Count(va, HoldsSlug(env, a, snap, slug)) == Count(vb, HoldsSlug(env, b, snap, slug))
  {
    var va, vb := Keep(a, Voter(snap, community)), Keep(b, Voter(snap, community));
    KeepReordered(a, b, Voter(snap, community));
    SameMembers(va, vb);
    CountReordered(va, vb, HoldsSlug(env, a, snap, slug));
    forall n | n in vb ensures HoldsSlug(env, a, snap, slug)(n) == HoldsSlug(env, b, snap, slug)(n) {
      HoldsReordered(env, a, b, snap, slug, n);
    }
    CountSame(vb, HoldsSlug(env, a, snap, slug), HoldsSlug(env, b, snap, slug));
  }

  ghost predicate Wins(env: Env, nodes: seq<Node>, snap: Snapshot, community: string, slug: string) {
    var voters := Keep(nodes, Voter(snap, community));
    && (exists m :: m in voters && slug in ListedSet(env, nodes, snap, m))
    && 2 * Count(voters, HoldsSlug(env, nodes, snap, slug)) > |voters|
  }

  lemma WinsReordered(env: Env, a: seq<Node>, b: seq<Node>, snap: Snapshot, community: string, slug: string)
    requires Reordered(a, b) && Wins(env, a, snap, community, slug)
    ensures Wins(env, b, snap, community, slug)
  {
    VotersReordered(env, a, b, snap, community, slug);
    SameMembers(a, b);
    var m :| m in Keep(a, Voter(snap, community)) && slug in ListedSet(env, a, snap, m);
    ListedSetReordered(env, a, b, snap, m);
    assert m in Keep(b, Voter(snap, community));
  }

  lemma VoteReordered(env: Env, a: seq<Node>, b: seq<Node>, snap: Snapshot, community: Option<string>)
    requires Reordered(a, b)
    ensures VoteOf(env, a, snap, community) == VoteOf(env, b, snap, community)
  {
    if community.Some? {
      forall s ensures s in VoteOf(env, a, snap, community) <==> s in VoteOf(env, b, snap, community) {
        assert s in VoteOf(env, a, snap, community) <==> Wins(env, a, snap, community.value, s);
        assert s in VoteOf(env, b, snap, community) <==> Wins(env, b, snap, community.value, s);
        if Wins(env, a, snap, community.value, s) { WinsReordered(env, a, b, snap, community.value, s); }
        if Wins(env, b, snap, community.value, s) { WinsReordered(env, b, a, snap, community.value, s); }
      }
    }
  }

  /** MAIN: every node reads the same set from a graph and from any reordering of it. */
  lemma ReadingIgnoresOrder(env: Env, a: seq<Node>, b: seq<Node>, snap: Snapshot, n: Node)
    requires Reordered(a, b)
    ensures Recorded(env, a, snap, n) == Recorded(env, b, snap, n)
  {
    if IsListed(snap, n) {
      ListedSetReordered(env, a, b, snap, n);
    } else {
      VoteReordered(env, a, b, snap, n.community);
    }
  }
}
