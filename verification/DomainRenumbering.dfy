/** How a snapshot survives an engine that renumbers the graph's nodes. */
module DomainRenumbering {
  import opened Wrappers
  import opened Ordering
  import opened DomainSnapshot
  import opened DomainReordering

  /** The same nodes under other ids, listed in the same order. */
  ghost predicate Renumbered(a: seq<Node>, b: seq<Node>) {
    |a| == |b| && forall i :: 0 <= i < |a| ==> b[i] == a[i].(id := b[i].id)
  }

  /** A node keeps its id or takes one that is no entry's. */
  predicate NoStolenId(entries: seq<Entry>, before: Node, after: Node) {
    after.id == before.id || forall e :: e in entries ==> e.id != after.id
  }

  ghost predicate NoneStolen(entries: seq<Entry>, a: seq<Node>, b: seq<Node>) {
    |a| == |b| && forall i :: 0 <= i < |a| ==> NoStolenId(entries, a[i], b[i])
  }

  lemma {:induction false} SameCount(env: Env, a: seq<Node>, b: seq<Node>, key: string)
    requires Renumbered(a, b)
    ensures Count(a, NodeNamed(env, key)) == Count(b, NodeNamed(env, key))
  {
    if a != [] {
      SameCount(env, a[..|a| - 1], b[..|b| - 1], key);
    }
  }

  /** The only node of its canonical name in the file. */
  predicate UniqueName(env: Env, ns: seq<Node>, n: Node) {
    Count(ns, NodeNamed(env, env.canon(n.name))) == 1
  }

  /** A name match needs a node without the entry's id: none of another name or another entry. */
  lemma {:induction false} NoMatchByName(env: Env, a: seq<Node>, b: seq<Node>, members: Members, default: set<string>,
      entries: seq<Entry>, i: nat)
    requires UniqueIds(a) && Renumbered(a, b) && Excepts(a, members, default, entries) && i < |a|
    requires Held(members, a[i].id) == default || b[i].id == a[i].id
    requires UniqueName(env, b, b[i])
    ensures LastEntry(entries, Unmatched(env, b, env.canon(b[i].name))).None?
  {
    var key := env.canon(b[i].name);
    forall e | e in entries ensures !Unmatched(env, b, key)(e) {
      var m := EntryIsOf(a, members, default, entries, e);
      var j :| 0 <= j < |a| && a[j] == m;
      if env.canon(e.name) == key {
        CountOne(b, NodeNamed(env, key), i);
        assert NodeNamed(env, key)(b[j]);
        assert j == i;
        assert b[i] in b;
      }
    }
  }

  lemma KeptOrDefault(env: Env, a: seq<Node>, b: seq<Node>, members: Members, f: FileEntry, i: nat)
    requires UniqueIds(a) && Renumbered(a, b) && i < |a|
    requires BuildsFile(env, a, members, f) && NoStolenId(f.nodes, a[i], b[i])
    requires b[i].id == a[i].id || Held(members, a[i].id) == Elems(f.domains)
    ensures FileSet(env, b, f, b[i]) == Held(members, a[i].id)
  {
    var default, hit := Elems(f.domains), LastEntry(f.nodes, WithId(b[i].id));
    if hit.Some? {
      var m := EntryIsOf(a, members, default, f.nodes, hit.value);
      SameNode(a, a[i], m);
    } else {
      assert a[i] in a && WithId(a[i].id)(EntryOf(members, a[i]));
      if UniqueName(env, b, b[i]) {
        NoMatchByName(env, a, b, members, default, f.nodes, i);
      }
    }
  }

  lemma {:induction false} OnlyEntryOfName(env: Env, a: seq<Node>, members: Members, default: set<string>,
      entries: seq<Entry>, i: nat)
    requires UniqueIds(a) && Excepts(a, members, default, entries) && EntriesSorted(entries) && i < |a|
    requires Held(members, a[i].id) != default && UniqueName(env, a, a[i])
    ensures Count(entries, EntryNamed(env, env.canon(a[i].name))) == 1
    ensures forall e :: e in entries && env.canon(e.name) == env.canon(a[i].name) ==> e == EntryOf(members, a[i])
  {
    var key := env.canon(a[i].name);
    assert a[i] in a;
    var k :| 0 <= k < |entries| && entries[k] == EntryOf(members, a[i]);
    CountOne(a, NodeNamed(env, key), i);
    forall e | e in entries && env.canon(e.name) == key ensures e == EntryOf(members, a[i]) {
      var m := EntryIsOf(a, members, default, entries, e);
      var j :| 0 <= j < |a| && a[j] == m;
      assert NodeNamed(env, key)(a[j]);
    }
    LexTotal();
    forall j | 0 <= j < |entries| && j != k ensures !EntryNamed(env, key)(entries[j]) {
      assert entries[j] in entries;
      assert entries[j].id != entries[k].id by {
        assert LexLess(entries[j].id, entries[k].id) || LexLess(entries[k].id, entries[j].id);
      }
    }
    CountOne(entries, EntryNamed(env, key), k);
  }

  /** The id of an entry whose node lost it is no node's. */
  lemma IdIsGone(a: seq<Node>, b: seq<Node>, entries: seq<Entry>, e: Entry, i: nat)
    requires UniqueIds(a) && Renumbered(a, b) && NoneStolen(entries, a, b) && i < |a|
    requires e in entries && e.id == a[i].id && b[i].id != a[i].id
    ensures forall n :: n in b ==> n.id != e.id
  {
    forall j | 0 <= j < |b| ensures b[j].id != e.id {
      assert NoStolenId(entries, a[j], b[j]);
      if j != i { assert a[i].id != a[j].id; }
    }
  }

  /** A node with an entry that lost its id is found again exactly by a stable, unique name. */
  lemma LostId(env: Env, a: seq<Node>, b: seq<Node>, members: Members, f: FileEntry, i: nat)
    requires UniqueIds(a) && UniqueIds(b) && Renumbered(a, b) && i < |a|
    requires BuildsFile(env, a, members, f) && NoneStolen(f.nodes, a, b)
    requires b[i].id != a[i].id && Held(members, a[i].id) != Elems(f.domains)
    ensures FileSet(env, b, f, b[i]) == Held(members, a[i].id) <==>
      !env.unstable(a[i].fileType) && UniqueName(env, a, a[i])
  {
    var key, default := env.canon(a[i].name), Elems(f.domains);
    assert NoStolenId(f.nodes, a[i], b[i]);
    assert LastEntry(f.nodes, WithId(b[i].id)).None?;
    SameCount(env, a, b, key);
    if !env.unstable(a[i].fileType) && UniqueName(env, a, a[i]) {
      OnlyEntryOfName(env, a, members, default, f.nodes, i);
      var e := EntryOf(members, a[i]);
      assert a[i] in a && e in f.nodes;
      IdIsGone(a, b, f.nodes, e, i);
      assert Unmatched(env, b, key)(e);
      assert Elems(e.domains) == Held(members, a[i].id);
    }
  }

  lemma FileInOrder(env: Env, a: seq<Node>, b: seq<Node>, members: Members, f: FileEntry, i: nat)
    requires UniqueIds(a) && UniqueIds(b) && Renumbered(a, b) && i < |a|
    requires BuildsFile(env, a, members, f) && NoneStolen(f.nodes, a, b)
    ensures FileSet(env, b, f, b[i]) == Held(members, a[i].id) <==>
      b[i].id == a[i].id || Held(members, a[i].id) == Elems(f.domains)
      || (!env.unstable(a[i].fileType) && UniqueName(env, a, a[i]))
  {
    assert NoStolenId(f.nodes, a[i], b[i]);
    if b[i].id == a[i].id || Held(members, a[i].id) == Elems(f.domains) {
      KeptOrDefault(env, a, b, members, f, i);
    } else {
      LostId(env, a, b, members, f, i);
    }
  }

  /** One file, exactly, whatever order the rebuilt graph lists it in: a renumbered node gets
      its recorded set if and only if it kept its id, or had the file's default, or has a
      stable label and a unique canonical name. */
  lemma FileSurvives(env: Env, a: seq<Node>, b: seq<Node>, after: seq<Node>, members: Members, f: FileEntry, i: nat)
    requires UniqueIds(a) && UniqueIds(b) && Renumbered(a, b) && Reordered(b, after) && i < |a|
    requires BuildsFile(env, a, members, f) && NoneStolen(f.nodes, a, b)
    ensures FileSet(env, after, f, b[i]) == Held(members, a[i].id) <==>
      b[i].id == a[i].id || Held(members, a[i].id) == Elems(f.domains)
      || (!env.unstable(a[i].fileType) && UniqueName(env, a, a[i]))
  {
    FileInOrder(env, a, b, members, f, i);
    FileSetReordered(env, b, after, f, b[i]);
  }

  /* ---- the same for a whole graph ---- */

  /** Renumbering commutes with taking the nodes of one file. */
  lemma {:induction false} KeepRenumbered(a: seq<Node>, b: seq<Node>, path: string)
    requires Renumbered(a, b)
    ensures Renumbered(Keep(a, InPath(path)), Keep(b, InPath(path)))
  {
    if a != [] {
      KeepRenumbered(a[..|a| - 1], b[..|b| - 1], path);
    }
  }

  /** The position of a node among the nodes of its file. */
  lemma {:induction false} KeepPosition(a: seq<Node>, b: seq<Node>, path: string, i: nat) returns (k: nat)
    requires Renumbered(a, b) && i < |a| && a[i].path == path
    ensures k < |Keep(a, InPath(path))| == |Keep(b, InPath(path))|
    ensures Keep(a, InPath(path))[k] == a[i] && Keep(b, InPath(path))[k] == b[i]
  {
    var last := |a| - 1;
    KeepRenumbered(a[..last], b[..last], path);
    if i < last {
      k := KeepPosition(a[..last], b[..last], path, i);
    } else {
      k := |Keep(a[..last], InPath(path))|;
    }
  }

  lemma {:induction false} GraphInOrder(env: Env, a: seq<Node>, b: seq<Node>, members: Members,
      domainIds: map<string, string>, snap: Snapshot, i: nat)
    requires UniqueIds(a) && UniqueIds(b) && Renumbered(a, b) && Builds(env, a, members, domainIds, snap)
    requires i < |a| && a[i].path != ""
    requires forall p :: p in snap.files ==> NoneStolen(snap.files[p].nodes, Keep(a, InPath(p)), Keep(b, InPath(p)))
    ensures a[i].path in snap.files
    ensures Recorded(env, b, snap, b[i]) == Held(members, a[i].id) <==>
      || b[i].id == a[i].id
      || Held(members, a[i].id) == Elems(snap.files[a[i].path].domains)
      || (!env.unstable(a[i].fileType) && UniqueName(env, Keep(a, InPath(a[i].path)), a[i]))
  {
    var p := a[i].path;
    assert a[i] in a && p in snap.files;
    KeepUnique(a, InPath(p));
    KeepUnique(b, InPath(p));
    KeepRenumbered(a, b, p);
    var k := KeepPosition(a, b, p, i);
    FileInOrder(env, Keep(a, InPath(p)), Keep(b, InPath(p)), members, snap.files[p], k);
  }

  /** MAIN: a snapshot of one graph read over any rebuilt one: `b` is the graph renumbered,
      `after` lists it in whatever order. */
  lemma {:induction false} RenumberingSurvives(env: Env, a: seq<Node>, b: seq<Node>, after: seq<Node>, members: Members,
    domainIds: map<string, string>, snap: Snapshot, i: nat)
    requires UniqueIds(a) && UniqueIds(b) && Renumbered(a, b) && Reordered(b, after)
    requires Builds(env, a, members, domainIds, snap) && i < |a| && a[i].path != ""
    requires forall p :: p in snap.files ==> NoneStolen(snap.files[p].nodes, Keep(a, InPath(p)), Keep(b, InPath(p)))
    ensures a[i].path in snap.files
    ensures Recorded(env, after, snap, b[i]) == Held(members, a[i].id) <==>
      || b[i].id == a[i].id
      || Held(members, a[i].id) == Elems(snap.files[a[i].path].domains)
      || (!env.unstable(a[i].fileType) && UniqueName(env, Keep(a, InPath(a[i].path)), a[i]))
  {
    GraphInOrder(env, a, b, members, domainIds, snap, i);
    ReadingIgnoresOrder(env, b, after, snap, b[i]);
  }

  /** The precondition the design states: label-stable nodes with names unique in their file. */
  lemma {:induction false} StableGraphSurvives(env: Env, a: seq<Node>, b: seq<Node>, after: seq<Node>, members: Members,
    domainIds: map<string, string>, snap: Snapshot)
    requires UniqueIds(a) && UniqueIds(b) && Renumbered(a, b) && Reordered(b, after)
    requires Builds(env, a, members, domainIds, snap)
    requires forall p :: p in snap.files ==> NoneStolen(snap.files[p].nodes, Keep(a, InPath(p)), Keep(b, InPath(p)))
    requires forall n :: n in a && n.path != "" ==>
      !env.unstable(n.fileType) && UniqueName(env, Keep(a, InPath(n.path)), n)
    ensures forall i :: 0 <= i < |a| && a[i].path != "" ==> Recorded(env, after, snap, b[i]) == Held(members, a[i].id)
  {
    forall i | 0 <= i < |a| && a[i].path != "" ensures Recorded(env, after, snap, b[i]) == Held(members, a[i].id) {
      assert a[i] in a;
      RenumberingSurvives(env, a, b, after, members, domainIds, snap, i);
    }
  }

  /** No path-less node of the name and type of `n` has this id. */
  predicate UnknownId(env: Env, a: seq<Node>, n: Node, id: string) {
    forall m :: m in a && m.path == "" && StubKey(env, m) == StubKey(env, n) ==> m.id != id
  }

  /** Path-less nodes: one set for the whole name survives any renumbering; sets kept per node
      follow the id, and a node with an unknown id is left to the vote. */
  lemma {:induction false} StubSurvives(env: Env, a: seq<Node>, members: Members, snap: Snapshot, n: Node, after: Node,
      graph: seq<Node>)
    requires UniqueIds(a) && n in a && n.path == "" && BuildsStubs(env, a, members, snap.stubs)
    requires after == n.(id := after.id)
    ensures AllSame(Keep(a, OfKey(env, StubKey(env, n))), members) || after.id == n.id ==>
      Recorded(env, graph, snap, after) == Held(members, n.id)
    ensures !AllSame(Keep(a, OfKey(env, StubKey(env, n))), members) && UnknownId(env, a, n, after.id) ==>
      Recorded(env, graph, snap, after) == VoteOf(env, graph, snap, after.community)
  {
    var st := LastStub(snap.stubs, StubKey(env, n)).value;
    var group := Keep(a, OfKey(env, StubKey(env, n)));
    assert n in group && StubKey(env, after) == StubKey(env, n);
    if after.id == n.id {
      StubReadsBack(env, a, members, snap, n);
      assert after == n;
    } else {
      StubForms(group, members, st, n, after.id);
    }
  }

  /** A path-less node that now has the id of another of its name and type takes that one's set. */
  lemma StubFollowsId(env: Env, a: seq<Node>, members: Members, snap: Snapshot, m: Node, after: Node, graph: seq<Node>)
    requires UniqueIds(a) && m in a && m.path == "" && BuildsStubs(env, a, members, snap.stubs)
    requires after.path == "" && after.id == m.id && StubKey(env, after) == StubKey(env, m)
    ensures Recorded(env, graph, snap, after) == Held(members, m.id)
  {
    StubReadsBack(env, a, members, snap, m);
    assert StubSet(env, snap, after) == StubSet(env, snap, m);
  }

  lemma StubForms(group: seq<Node>, members: Members, st: Stub, n: Node, id: string)
    requires BuildsStub(group, members, st) && n in group
    ensures AllSame(group, members) ==> StubTakes(st, id) == Some(Held(members, n.id))
    ensures !AllSame(group, members) && (forall m :: m in group ==> m.id != id) ==> StubTakes(st, id) == None
  {
    if AllSame(group, members) {
      assert group[0] in group;
      assert Held(members, n.id) == Held(members, group[0].id);
      assert Elems(st.domains.value) == Held(members, n.id);
    }
  }

  /* ---- matching in any graph ---- */

  lemma MatchedHow(env: Env, ns: seq<Node>, entries: seq<Entry>, n: Node)
    requires MatchEntry(env, ns, entries, n).Some?
    ensures var e := MatchEntry(env, ns, entries, n).value;
      && e in entries
      && (e.id == n.id
          || ((forall m :: m in ns ==> m.id != e.id) && UniqueName(env, ns, n)
            && env.canon(e.name) == env.canon(n.name)))
  {
    if LastEntry(entries, WithId(n.id)).None? {
      assert Unmatched(env, ns, env.canon(n.name))(MatchEntry(env, ns, entries, n).value);
    }
  }

  /** In any graph and for any valid file, an entry is taken by at most one node. */
  lemma EntryTakenOnce(env: Env, ns: seq<Node>, entries: seq<Entry>, a: Node, b: Node)
    requires UniqueIds(ns) && a in ns && b in ns
    requires forall i, j :: 0 <= i < j < |entries| ==> entries[i].id != entries[j].id
    requires MatchEntry(env, ns, entries, a).Some? && MatchEntry(env, ns, entries, b).Some?
    requires MatchEntry(env, ns, entries, a).value.id == MatchEntry(env, ns, entries, b).value.id
    ensures a == b
  {
    var e, x := MatchEntry(env, ns, entries, a).value, MatchEntry(env, ns, entries, b).value;
    MatchedHow(env, ns, entries, a);
    MatchedHow(env, ns, entries, b);
    var i :| 0 <= i < |entries| && entries[i] == e;
    var j :| 0 <= j < |entries| && entries[j] == x;
    assert i == j;
    if e.id == a.id && e.id == b.id {
      SameNode(ns, a, b);
    } else if e.id != a.id && e.id != b.id {
      var k :| 0 <= k < |ns| && ns[k] == a;
      var l :| 0 <= l < |ns| && ns[l] == b;
      CountOne(ns, NodeNamed(env, env.canon(a.name)), k);
      assert NodeNamed(env, env.canon(a.name))(ns[l]);
    }
  }
}
