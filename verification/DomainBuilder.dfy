/** Building and reading a snapshot as loops over the graph. */
module DomainBuilder {
  import opened Wrappers
  import opened Ordering
  import opened DomainSnapshot

  lemma CountMember(ns: seq<Node>, members: Members, k: nat, d: set<string>)
    requires k < |ns|
    ensures Count(ns[..k + 1], HasSet(members, d))
         == Count(ns[..k], HasSet(members, d)) + if Held(members, ns[k].id) == d then 1 else 0
  {
    assert ns[..k + 1][..k] == ns[..k];
  }

  /** `Counter` over the sets of a file's nodes. */
  method CountSets(ns: seq<Node>, members: Members) returns (counts: map<set<string>, nat>)
    ensures forall d :: d in counts <==> exists n :: n in ns && Held(members, n.id) == d
    ensures forall d :: d in counts ==> counts[d] == Count(ns, HasSet(members, d))
  {
    counts := map[];
    for k := 0 to |ns|
      invariant forall d :: d in counts <==> exists n :: n in ns[..k] && Held(members, n.id) == d
      invariant forall d :: d in counts ==> counts[d] == Count(ns[..k], HasSet(members, d))
    {
      var d := Held(members, ns[k].id);
      assert ns[..k + 1] == ns[..k] + [ns[k]];
      forall x
        ensures Count(ns[..k + 1], HasSet(members, x)) == Count(ns[..k], HasSet(members, x)) + if d == x then 1 else 0
      {
        CountMember(ns, members, k, x);
      }
      CountBound(ns[..k], HasSet(members, d));
      counts := counts[d := (if d in counts then counts[d] else 0) + 1];
    }
    assert ns[..|ns|] == ns;
  }

  /** `d` is more common than `x`, or as common and not after it. */
  predicate Leads(counts: map<set<string>, nat>, d: set<string>, x: set<string>)
    requires d in counts && x in counts
  {
    counts[x] < counts[d] || (counts[x] == counts[d] && (x == d || ListLess(Slugs(d), Slugs(x))))
  }

  lemma LeadsTransitive(counts: map<set<string>, nat>, a: set<string>, b: set<string>, c: set<string>)
    requires a in counts && b in counts && c in counts && Leads(counts, a, b) && Leads(counts, b, c)
    ensures Leads(counts, a, c)
  {
    if a != b && b != c && counts[a] == counts[b] == counts[c] {
      ListTransitive(Slugs(a), Slugs(b), Slugs(c));
    }
  }

  lemma LeadsTotal(counts: map<set<string>, nat>, a: set<string>, b: set<string>)
    requires a in counts && b in counts && !Leads(counts, a, b)
    ensures Leads(counts, b, a)
  {
    ListConnected(Slugs(a), Slugs(b));
    if Slugs(a) == Slugs(b) { SameSlugs(a, b); }
  }

  method Leader(counts: map<set<string>, nat>, start: set<string>) returns (d: set<string>)
    requires start in counts
    ensures d in counts && forall x :: x in counts ==> Leads(counts, d, x)
  {
    d := start;
    var rest := counts.Keys - {d};
    while rest != {}
      invariant d in counts && rest <= counts.Keys
      invariant forall x :: x in counts && x !in rest ==> Leads(counts, d, x)
      decreases |rest|
    {
      var x :| x in rest;
      if !Leads(counts, d, x) {
        LeadsTotal(counts, d, x);
        forall y | y in counts && y !in rest ensures Leads(counts, x, y) {
          LeadsTransitive(counts, x, d, y);
        }
        d := x;
      }
      rest := rest - {x};
    }
  }

  /** `_file_default`. */
  method FileDefault(env: Env, ns: seq<Node>, members: Members) returns (d: set<string>)
    requires ns != []
    ensures IsDefault(env, ns, members, d)
  {
    for k := 0 to |ns|
      invariant forall j :: 0 <= j < k ==> !env.fileNode(ns[j])
    {
      if env.fileNode(ns[k]) {
        assert FirstFileNode(env, ns, k);
        return Held(members, ns[k].id);
      }
    }
    var counts := CountSets(ns, members);
    assert ns[0] in ns;
    d := Leader(counts, Held(members, ns[0].id));
    forall n | n in ns ensures Beats(ns, members, d, Held(members, n.id)) {
      assert Held(members, n.id) in counts;
      assert Leads(counts, d, Held(members, n.id));
    }
    assert MostCommon(ns, members, d);
  }

  lemma SameSlugs(a: set<string>, b: set<string>)
    requires Slugs(a) == Slugs(b)
    ensures a == b
  {
    forall x ensures x in a <==> x in b {
      assert x in Slugs(a) <==> x in Slugs(b);
    }
  }

  function IdsOf(ns: seq<Node>): set<string> {
    set n | n in ns :: n.id
  }

  function NodeWithId(ns: seq<Node>, id: string): (n: Node)
    requires id in IdsOf(ns)
    ensures n in ns && n.id == id
  {
    if ns[0].id == id then ns[0] else NodeWithId(ns[1..], id)
  }

  predicate NodesSorted(ns: seq<Node>) {
    forall i, j :: 0 <= i < j < |ns| ==> LexLess(ns[i].id, ns[j].id)
  }

  /** `sorted(nodes, key=id)`. */
  method SortedById(ns: seq<Node>) returns (r: seq<Node>)
    requires UniqueIds(ns)
    ensures NodesSorted(r) && forall n :: n in r <==> n in ns
  {
    LexTotal();
    var ids := Slugs(IdsOf(ns));
    r := [];
    for k := 0 to |ids|
      invariant |r| == k
      invariant forall j :: 0 <= j < k ==> r[j] in ns && r[j].id == ids[j]
    {
      assert ids[k] in ids;
      r := r + [NodeWithId(ns, ids[k])];
    }
    forall n | n in ns ensures n in r {
      assert n.id in ids;
      var j :| 0 <= j < |ids| && ids[j] == n.id;
      SameNode(ns, n, r[j]);
      assert r[j] in r;
    }
  }

  /** The entries of one file, sorted by id. */
  method FileEntries(ns: seq<Node>, members: Members, default: set<string>) returns (entries: seq<Entry>)
    requires UniqueIds(ns)
    ensures EntriesSorted(entries) && Excepts(ns, members, default, entries)
  {
    var byId := SortedById(ns);
    entries := [];
    for k := 0 to |byId|
      invariant EntriesSorted(entries) && Excepts(byId[..k], members, default, entries)
    {
      var n := byId[k];
      assert byId[..k + 1] == byId[..k] + [n];
      if Held(members, n.id) != default {
        forall e | e in entries ensures LexLess(e.id, n.id) {
          var m := EntryIsOf(byId[..k], members, default, entries, e);
          var j :| 0 <= j < k && byId[j] == m;
        }
        ExceptsMore(byId[..k], members, default, entries, n);
        entries := entries + [EntryOf(members, n)];
      } else {
        ExceptsSame(byId[..k], members, default, entries, n);
      }
    }
    assert byId[..|byId|] == byId;
    ExceptsOf(byId, ns, members, default, entries);
  }

  lemma ExceptsMore(ns: seq<Node>, members: Members, default: set<string>, entries: seq<Entry>, n: Node)
    requires Excepts(ns, members, default, entries) && Held(members, n.id) != default
    ensures Excepts(ns + [n], members, default, entries + [EntryOf(members, n)])
  {
    forall e | e in entries + [EntryOf(members, n)]
      ensures exists m :: m in ns + [n] && Held(members, m.id) != default && e == EntryOf(members, m)
    {
      if e in entries {
        var m := EntryIsOf(ns, members, default, entries, e);
        assert m in ns + [n];
      } else {
        assert n in ns + [n];
      }
    }
  }

  lemma ExceptsSame(ns: seq<Node>, members: Members, default: set<string>, entries: seq<Entry>, n: Node)
    requires Excepts(ns, members, default, entries) && Held(members, n.id) == default
    ensures Excepts(ns + [n], members, default, entries)
  {
    forall e | e in entries
      ensures exists m :: m in ns + [n] && Held(members, m.id) != default && e == EntryOf(members, m)
    {
      var m := EntryIsOf(ns, members, default, entries, e);
      assert m in ns + [n];
    }
  }

  lemma ExceptsOf(ns: seq<Node>, other: seq<Node>, members: Members, default: set<string>, entries: seq<Entry>)
    requires Excepts(ns, members, default, entries) && forall n :: n in ns <==> n in other
    ensures Excepts(other, members, default, entries)
  {
    forall e | e in entries
      ensures exists m :: m in other && Held(members, m.id) != default && e == EntryOf(members, m)
    {
      var m := EntryIsOf(ns, members, default, entries, e);
    }
  }

  /** The nodes of one file, in graph order. */
  function InFile(nodes: seq<Node>, p: string): seq<Node> {
    if nodes == [] then []
    else InFile(nodes[..|nodes| - 1], p) + if nodes[|nodes| - 1].path == p then [nodes[|nodes| - 1]] else []
  }

  lemma {:induction false} InFileKeeps(nodes: seq<Node>, p: string)
    ensures InFile(nodes, p) == Keep(nodes, InPath(p))
  {
    if nodes != [] {
      InFileKeeps(nodes[..|nodes| - 1], p);
    }
  }

  lemma {:induction false} InFileNone(nodes: seq<Node>, p: string)
    requires forall n :: n in nodes ==> n.path != p
    ensures InFile(nodes, p) == []
  {
    if nodes != [] {
      InFileNone(nodes[..|nodes| - 1], p);
    }
  }

  /** Every file's nodes, filed under its path. */
  ghost predicate Grouped(nodes: seq<Node>, byFile: map<string, seq<Node>>) {
    && byFile.Keys == PathsOf(nodes)
    && forall p {:trigger byFile[p]} :: p in byFile ==> byFile[p] == InFile(nodes, p)
  }

  lemma {:induction false} GroupNext(nodes: seq<Node>, n: Node, byFile: map<string, seq<Node>>)
    requires Grouped(nodes, byFile)
    ensures n.path == "" ==> Grouped(nodes + [n], byFile)
    ensures n.path != "" ==>
      Grouped(nodes + [n], byFile[n.path := (if n.path in byFile then byFile[n.path] else []) + [n]])
  {
    assert (nodes + [n])[..|nodes|] == nodes;
    if n.path == "" {
      assert PathsOf(nodes + [n]) == PathsOf(nodes);
    } else {
      assert PathsOf(nodes + [n]) == PathsOf(nodes) + {n.path};
      if n.path !in byFile {
        InFileNone(nodes, n.path);
      }
    }
  }

  /** `by_file`: the nodes of each file, in graph order. */
  method GroupByFile(nodes: seq<Node>) returns (byFile: map<string, seq<Node>>)
    ensures Grouped(nodes, byFile)
  {
    byFile := map[];
    for k := 0 to |nodes|
      invariant Grouped(nodes[..k], byFile)
    {
      var n := nodes[k];
      assert nodes[..k + 1] == nodes[..k] + [n];
      GroupNext(nodes[..k], n, byFile);
      if n.path != "" {
        byFile := byFile[n.path := (if n.path in byFile then byFile[n.path] else []) + [n]];
      }
    }
    assert nodes[..|nodes|] == nodes;
  }

  method FileOf(env: Env, ns: seq<Node>, members: Members) returns (f: FileEntry)
    requires UniqueIds(ns) && ns != []
    ensures BuildsFile(env, ns, members, f)
  {
    var default := FileDefault(env, ns, members);
    var entries := FileEntries(ns, members, default);
    assert Elems(Slugs(default)) == default;
    f := FileEntry(Slugs(default), entries);
  }

  lemma {:induction false} FileNodes(nodes: seq<Node>, p: string)
    requires UniqueIds(nodes) && p in PathsOf(nodes)
    ensures UniqueIds(Keep(nodes, InPath(p))) && Keep(nodes, InPath(p)) != []
  {
    KeepUnique(nodes, InPath(p));
    var n :| n in nodes && n.path == p;
    assert n in Keep(nodes, InPath(p));
  }

  method OneFile(env: Env, nodes: seq<Node>, ns: seq<Node>, p: string, members: Members) returns (f: FileEntry)
    requires UniqueIds(nodes) && p in PathsOf(nodes) && ns == InFile(nodes, p)
    ensures BuildsFile(env, Keep(nodes, InPath(p)), members, f)
  {
    FileNodes(nodes, p);
    InFileKeeps(nodes, p);
    f := FileOf(env, ns, members);
  }

  method FilesOf(env: Env, nodes: seq<Node>, members: Members) returns (files: map<string, FileEntry>)
    requires UniqueIds(nodes)
    ensures BuildsFiles(env, nodes, members, files)
  {
    var byFile := GroupByFile(nodes);
    files := map[];
    var rest := byFile.Keys;
    while rest != {}
      invariant rest <= byFile.Keys && files.Keys == byFile.Keys - rest
      invariant forall p :: p in files ==> BuildsFile(env, Keep(nodes, InPath(p)), members, files[p])
      decreases |rest|
    {
      var p :| p in rest;
      var f := OneFile(env, nodes, byFile[p], p, members);
      files := files[p := f];
      rest := rest - {p};
    }
  }

  /** One `stubs` entry: the one set of its nodes, or each node's set by id. */
  method StubOf(group: seq<Node>, members: Members, key: (string, string)) returns (st: Stub)
    requires group != [] && UniqueIds(group)
    ensures BuildsStub(group, members, st) && (st.name, st.fileType) == key
  {
    if AllSame(group, members) {
      return Stub(key.0, key.1, Some(Slugs(Held(members, group[0].id))), None);
    }
    var nodes := StubNodesOf(group, members);
    st := Stub(key.0, key.1, None, Some(nodes));
  }

  /** Each path-less node's own set, sorted by id. */
  method StubNodesOf(group: seq<Node>, members: Members) returns (nodes: seq<StubNode>)
    requires UniqueIds(group)
    ensures StubNodesSorted(nodes)
    ensures forall n :: n in group ==> StubNodeOf(members, n) in nodes
    ensures forall x :: x in nodes ==> exists n :: n in group && x == StubNodeOf(members, n)
  {
    var byId := SortedById(group);
    nodes := [];
    for k := 0 to |byId|
      invariant |nodes| == k && forall j :: 0 <= j < k ==> nodes[j] == StubNodeOf(members, byId[j])
    {
      nodes := nodes + [StubNodeOf(members, byId[k])];
    }
    forall n | n in group ensures StubNodeOf(members, n) in nodes {
      var j :| 0 <= j < |byId| && byId[j] == n;
      assert nodes[j] in nodes;
    }
    forall x | x in nodes ensures exists n :: n in group && x == StubNodeOf(members, n) {
      var j :| 0 <= j < |nodes| && nodes[j] == x;
      assert byId[j] in byId;
    }
  }

  lemma {:induction false} KeyedNodes(env: Env, nodes: seq<Node>, key: (string, string))
    requires UniqueIds(nodes) && exists n :: n in nodes && n.path == "" && StubKey(env, n) == key
    ensures UniqueIds(Keep(nodes, OfKey(env, key))) && Keep(nodes, OfKey(env, key)) != []
  {
    KeepUnique(nodes, OfKey(env, key));
    var n :| n in nodes && n.path == "" && StubKey(env, n) == key;
    assert n in Keep(nodes, OfKey(env, key));
  }

  /** One entry per key, in the order of the keys. */
  ghost predicate StubPerKey(env: Env, nodes: seq<Node>, members: Members, keys: seq<(string, string)>,
      stubs: seq<Stub>) {
    |stubs| == |keys| && forall j :: 0 <= j < |keys| ==>
      (stubs[j].name, stubs[j].fileType) == keys[j] && BuildsStub(Keep(nodes, OfKey(env, keys[j])), members, stubs[j])
  }

  lemma PerKeyBuilds(env: Env, nodes: seq<Node>, members: Members, keys: seq<(string, string)>, stubs: seq<Stub>)
    requires StubPerKey(env, nodes, members, keys, stubs)
    requires forall i, j :: 0 <= i < j < |keys| ==> PairLess(keys[i], keys[j])
    requires forall n :: n in nodes && n.path == "" ==> StubKey(env, n) in keys
    ensures BuildsStubs(env, nodes, members, stubs)
  {
    forall st | st in stubs ensures BuildsStub(Keep(nodes, OfKey(env, (st.name, st.fileType))), members, st) {
      var j :| 0 <= j < |stubs| && stubs[j] == st;
    }
    forall n | n in nodes && n.path == ""
      ensures exists st :: st in stubs && (st.name, st.fileType) == StubKey(env, n)
    {
      var j :| 0 <= j < |keys| && keys[j] == StubKey(env, n);
      assert stubs[j] in stubs;
    }
  }

  method StubsFor(env: Env, nodes: seq<Node>, members: Members, keys: seq<(string, string)>) returns (stubs: seq<Stub>)
    requires UniqueIds(nodes)
    requires forall k :: 0 <= k < |keys| ==> exists n :: n in nodes && n.path == "" && StubKey(env, n) == keys[k]
    ensures StubPerKey(env, nodes, members, keys, stubs)
  {
    stubs := [];
    for k := 0 to |keys|
      invariant StubPerKey(env, nodes, members, keys[..k], stubs)
    {
      KeyedNodes(env, nodes, keys[k]);
      var st := StubOf(Keep(nodes, OfKey(env, keys[k])), members, keys[k]);
      assert keys[..k + 1] == keys[..k] + [keys[k]];
      stubs := stubs + [st];
    }
    assert keys[..|keys|] == keys;
  }

  /** The keys of the path-less nodes. */
  function KeysOf(env: Env, nodes: seq<Node>): set<(string, string)> {
    set n | n in nodes && n.path == "" :: StubKey(env, n)
  }

  method StubsOf(env: Env, nodes: seq<Node>, members: Members) returns (stubs: seq<Stub>)
    requires UniqueIds(nodes)
    ensures BuildsStubs(env, nodes, members, stubs)
  {
    PairTotal();
    var keys := Sorted(KeysOf(env, nodes), PairLess);
    forall k | 0 <= k < |keys| ensures exists n :: n in nodes && n.path == "" && StubKey(env, n) == keys[k] {
      assert keys[k] in keys;
    }
    stubs := StubsFor(env, nodes, members, keys);
    PerKeyBuilds(env, nodes, members, keys, stubs);
  }

  datatype BuildError = MissingId

  /** `build_snapshot`, up to the validators its result then goes through. */
  method BuildSnapshot(env: Env, nodes: seq<Node>, members: Members, domainIds: map<string, string>)
    returns (r: Result<Snapshot, BuildError>)
    requires UniqueIds(nodes)
    ensures r.Err? <==> members.Keys != domainIds.Keys
    ensures r.Ok? ==> Builds(env, nodes, members, domainIds, r.value)
  {
    if members.Keys != domainIds.Keys {
      return Err(MissingId);
    }
    var files := FilesOf(env, nodes, members);
    var stubs := StubsOf(env, nodes, members);
    var domains := DomainsOf(members, domainIds);
    r := Ok(Snapshot(domains, files, stubs));
  }

  method DomainsOf(members: Members, domainIds: map<string, string>) returns (domains: seq<Covered>)
    requires members.Keys == domainIds.Keys
    ensures BuildsDomains(members, domainIds, domains)
  {
    LexTotal();
    var slugs := Slugs(members.Keys);
    domains := [];
    for k := 0 to |slugs|
      invariant |domains| == k
      invariant forall j :: 0 <= j < k ==> slugs[j] in domainIds && domains[j] == Covered(slugs[j], domainIds[slugs[j]])
    {
      assert slugs[k] in slugs;
      domains := domains + [Covered(slugs[k], domainIds[slugs[k]])];
    }
    forall s | s in members ensures exists c :: c in domains && c.slug == s {
      assert s in slugs;
      var j :| 0 <= j < |slugs| && slugs[j] == s;
      assert domains[j] in domains;
    }
    forall c | c in domains ensures c.slug in members && c.slug in domainIds && c.id == domainIds[c.slug] {
      var j :| 0 <= j < |domains| && domains[j] == c;
      assert slugs[j] in slugs;
    }
  }

  /* ---- reading ---- */

  method CountNames(env: Env, ns: seq<Node>) returns (counts: map<string, nat>)
    ensures forall key :: Got(counts, key) == Count(ns, NodeNamed(env, key))
  {
    counts := map[];
    for k := 0 to |ns|
      invariant forall key :: Got(counts, key) == Count(ns[..k], NodeNamed(env, key))
    {
      var key := env.canon(ns[k].name);
      assert ns[..k + 1][..k] == ns[..k];
      counts := counts[key := Got(counts, key) + 1];
    }
    assert ns[..|ns|] == ns;
  }

  method CountEntryNames(env: Env, entries: seq<Entry>) returns (counts: map<string, nat>)
    ensures forall key :: Got(counts, key) == Count(entries, EntryNamed(env, key))
  {
    counts := map[];
    for k := 0 to |entries|
      invariant forall key :: Got(counts, key) == Count(entries[..k], EntryNamed(env, key))
    {
      var key := env.canon(entries[k].name);
      assert entries[..k + 1][..k] == entries[..k];
      counts := counts[key := Got(counts, key) + 1];
    }
    assert entries[..|entries|] == entries;
  }

  method IndexById(entries: seq<Entry>) returns (byId: map<string, Entry>)
    ensures forall id :: At(byId, id) == LastEntry(entries, WithId(id))
  {
    byId := map[];
    for k := 0 to |entries|
      invariant forall id :: At(byId, id) == LastEntry(entries[..k], WithId(id))
    {
      assert entries[..k + 1][..k] == entries[..k];
      byId := byId[entries[k].id := entries[k]];
    }
    assert entries[..|entries|] == entries;
  }

  method IndexUnmatched(env: Env, ns: seq<Node>, entries: seq<Entry>) returns (unmatched: map<string, Entry>)
    ensures forall key :: At(unmatched, key) == LastEntry(entries, Unmatched(env, ns, key))
  {
    var current := IdsOf(ns);
    unmatched := map[];
    for k := 0 to |entries|
      invariant forall key :: At(unmatched, key) == LastEntry(entries[..k], Unmatched(env, ns, key))
    {
      var e := entries[k];
      assert entries[..k + 1][..k] == entries[..k];
      if e.id !in current {
        assert forall n :: n in ns ==> n.id != e.id;
        unmatched := unmatched[env.canon(e.name) := e];
      }
    }
    assert entries[..|entries|] == entries;
  }

  /** What the indexes of one file hold. */
  ghost predicate Indexed(env: Env, ns: seq<Node>, entries: seq<Entry>, byId: map<string, Entry>,
      nodeKeys: map<string, nat>, entryKeys: map<string, nat>, unmatched: map<string, Entry>) {
    && (forall id :: At(byId, id) == LastEntry(entries, WithId(id)))
    && (forall key :: Got(nodeKeys, key) == Count(ns, NodeNamed(env, key)))
    && (forall key :: Got(entryKeys, key) == Count(entries, EntryNamed(env, key)))
    && (forall key :: At(unmatched, key) == LastEntry(entries, Unmatched(env, ns, key)))
  }

  /** The entry of one node, by the indexes. */
  method MatchNode(env: Env, ns: seq<Node>, entries: seq<Entry>, n: Node, byId: map<string, Entry>,
      nodeKeys: map<string, nat>, entryKeys: map<string, nat>, unmatched: map<string, Entry>)
      returns (hit: Option<Entry>)
    requires Indexed(env, ns, entries, byId, nodeKeys, entryKeys, unmatched)
    ensures hit == MatchEntry(env, ns, entries, n)
  {
    hit := At(byId, n.id);
    if hit.None? && !env.unstable(n.fileType) {
      var key := env.canon(n.name);
      if Got(nodeKeys, key) == 1 && Got(entryKeys, key) == 1 {
        hit := At(unmatched, key);
      }
    }
  }

  /** `_match_listed`: the two counters, the free entries by name, then node by node. */
  method MatchListed(env: Env, ns: seq<Node>, f: FileEntry) returns (out: map<string, set<string>>)
    requires UniqueIds(ns)
    ensures out.Keys == IdsOf(ns)
    ensures forall n :: n in ns ==> n.id in out && out[n.id] == FileSet(env, ns, f, n)
  {
    var byId := IndexById(f.nodes);
    var nodeKeys := CountNames(env, ns);
    var entryKeys := CountEntryNames(env, f.nodes);
    var unmatched := IndexUnmatched(env, ns, f.nodes);
    out := map[];
    for k := 0 to |ns|
      invariant out.Keys == IdsOf(ns[..k])
      invariant forall j :: 0 <= j < k ==> ns[j].id in out && out[ns[j].id] == FileSet(env, ns, f, ns[j])
    {
      assert ns[..k + 1] == ns[..k] + [ns[k]];
      var hit := MatchNode(env, ns, f.nodes, ns[k], byId, nodeKeys, entryKeys, unmatched);
      var taken := Elems(if hit.Some? then hit.value.domains else f.domains);
      assert taken == FileSet(env, ns, f, ns[k]);
      assert forall j :: 0 <= j < k ==> ns[j].id != ns[k].id;
      out := out[ns[k].id := taken];
    }
    assert ns[..|ns|] == ns;
  }

  function Got(counts: map<string, nat>, key: string): nat {
    if key in counts then counts[key] else 0
  }

  function At<T>(m: map<string, T>, key: string): Option<T> {
    if key in m then Some(m[key]) else None
  }

  /** The sets `_match_listed` gives the nodes of one file. */
  ghost predicate FileMatched(env: Env, nodes: seq<Node>, snap: Snapshot, p: string, out: map<string, set<string>>)
    requires p in snap.files
  {
    forall n :: n in Keep(nodes, InPath(p)) ==>
      n.id in out && out[n.id] == FileSet(env, Keep(nodes, InPath(p)), snap.files[p], n)
  }

  method MatchFile(env: Env, nodes: seq<Node>, snap: Snapshot, p: string) returns (out: map<string, set<string>>)
    requires UniqueIds(nodes) && p in snap.files
    ensures FileMatched(env, nodes, snap, p, out)
  {
    KeepUnique(nodes, InPath(p));
    out := MatchListed(env, Keep(nodes, InPath(p)), snap.files[p]);
  }

  method MatchFiles(env: Env, nodes: seq<Node>, snap: Snapshot, paths: set<string>)
      returns (byFile: map<string, map<string, set<string>>>)
    requires UniqueIds(nodes) && paths <= snap.files.Keys
    ensures byFile.Keys == paths
    ensures forall p :: p in byFile ==> FileMatched(env, nodes, snap, p, byFile[p])
  {
    byFile := map[];
    var rest := paths;
    while rest != {}
      invariant rest <= paths && byFile.Keys == paths - rest
      invariant forall p :: p in byFile ==> FileMatched(env, nodes, snap, p, byFile[p])
      decreases |rest|
    {
      var p :| p in rest;
      var out := MatchFile(env, nodes, snap, p);
      byFile := byFile[p := out];
      rest := rest - {p};
    }
  }

  lemma MatchedNode(env: Env, nodes: seq<Node>, snap: Snapshot, byFile: map<string, map<string, set<string>>>, n: Node)
    requires byFile.Keys == PathsOf(nodes) * snap.files.Keys && n in nodes && IsListed(snap, n)
    requires forall p :: p in byFile ==> FileMatched(env, nodes, snap, p, byFile[p])
    ensures n.path in byFile && n.id in byFile[n.path] && byFile[n.path][n.id] == ListedSet(env, nodes, snap, n)
  {
    assert n.path in PathsOf(nodes);
    assert n in Keep(nodes, InPath(n.path));
    assert FileMatched(env, nodes, snap, n.path, byFile[n.path]);
  }

  /** `sets.update` over the files. */
  method Merge(nodes: seq<Node>, snap: Snapshot, byFile: map<string, map<string, set<string>>>)
      returns (sets: map<string, set<string>>)
    requires UniqueIds(nodes)
    requires forall n :: n in nodes && IsListed(snap, n) ==> n.path in byFile && n.id in byFile[n.path]
    ensures sets.Keys == set n | n in nodes && IsListed(snap, n) :: n.id
    ensures forall n :: n in nodes && IsListed(snap, n) ==> n.id in sets && sets[n.id] == byFile[n.path][n.id]
  {
    forall a, b | a in nodes && b in nodes && a.id == b.id ensures a == b {
      SameNode(nodes, a, b);
    }
    sets := map n | n in nodes && IsListed(snap, n) :: n.id := byFile[n.path][n.id];
  }

  /** Every node of the listed files, matched. */
  method ListedSets(env: Env, nodes: seq<Node>, snap: Snapshot) returns (sets: map<string, set<string>>)
    requires UniqueIds(nodes)
    ensures sets.Keys == set n | n in nodes && IsListed(snap, n) :: n.id
    ensures forall n :: n in nodes && IsListed(snap, n) ==> n.id in sets && sets[n.id] == ListedSet(env, nodes, snap, n)
  {
    var byFile := MatchFiles(env, nodes, snap, PathsOf(nodes) * snap.files.Keys);
    forall n | n in nodes && IsListed(snap, n)
      ensures n.path in byFile && n.id in byFile[n.path] && byFile[n.path][n.id] == ListedSet(env, nodes, snap, n)
    {
      MatchedNode(env, nodes, snap, byFile, n);
    }
    sets := Merge(nodes, snap, byFile);
  }

  /** Nodes that have their set, and it is the recorded one. */
  ghost predicate Right(env: Env, nodes: seq<Node>, snap: Snapshot, sets: map<string, set<string>>) {
    && sets.Keys <= IdsOf(nodes)
    && forall n :: n in nodes && n.id in sets ==> sets[n.id] == Recorded(env, nodes, snap, n)
  }

  lemma {:induction false} RightWith(env: Env, nodes: seq<Node>, snap: Snapshot, sets: map<string, set<string>>,
      n: Node, s: set<string>)
    requires UniqueIds(nodes) && Right(env, nodes, snap, sets) && n in nodes && s == Recorded(env, nodes, snap, n)
    ensures Right(env, nodes, snap, sets[n.id := s])
  {
    forall m | m in nodes && m.id == n.id ensures m == n {
      SameNode(nodes, m, n);
    }
  }

  /** Nodes of a listed file, and those of `done` that the `stubs` section covers, have their set. */
  ghost predicate Stubbed(env: Env, nodes: seq<Node>, snap: Snapshot, done: seq<Node>, sets: map<string, set<string>>) {
    forall n :: n in nodes ==> (n.id in sets <==> IsListed(snap, n) || (n in done && StubSet(env, snap, n).Some?))
  }

  lemma {:induction false} StubbedWith(env: Env, nodes: seq<Node>, snap: Snapshot, done: seq<Node>,
      sets: map<string, set<string>>, n: Node, s: set<string>)
    requires UniqueIds(nodes) && n in nodes && Stubbed(env, nodes, snap, done, sets)
    ensures StubSet(env, snap, n).Some? ==> Stubbed(env, nodes, snap, done + [n], sets[n.id := s])
    ensures StubSet(env, snap, n).None? ==> Stubbed(env, nodes, snap, done + [n], sets)
  {
    forall m | m in nodes && m.id == n.id ensures m == n {
      SameNode(nodes, m, n);
    }
  }

  /** The `stubs` section covers only nodes without a listed file. */
  method AddStubs(env: Env, nodes: seq<Node>, snap: Snapshot, listed: map<string, set<string>>)
      returns (sets: map<string, set<string>>)
    requires UniqueIds(nodes) && Right(env, nodes, snap, listed) && Stubbed(env, nodes, snap, [], listed)
    ensures Right(env, nodes, snap, sets) && Stubbed(env, nodes, snap, nodes, sets)
  {
    sets := listed;
    for k := 0 to |nodes|
      invariant Right(env, nodes, snap, sets) && Stubbed(env, nodes, snap, nodes[..k], sets)
    {
      sets := AddStub(env, nodes, snap, nodes[..k], sets, nodes[k]);
      assert nodes[..k + 1] == nodes[..k] + [nodes[k]];
    }
    assert nodes[..|nodes|] == nodes;
  }

  method AddStub(env: Env, nodes: seq<Node>, snap: Snapshot, ghost done: seq<Node>, sets: map<string, set<string>>,
      n: Node)
    returns (more: map<string, set<string>>)
    requires UniqueIds(nodes) && n in nodes && Right(env, nodes, snap, sets) && Stubbed(env, nodes, snap, done, sets)
    ensures Right(env, nodes, snap, more) && Stubbed(env, nodes, snap, done + [n], more)
  {
    more := sets;
    var own := StubSet(env, snap, n);
    StubbedWith(env, nodes, snap, done, sets, n, if own.Some? then own.value else {});
    if own.Some? {
      RightWith(env, nodes, snap, sets, n, own.value);
      more := sets[n.id := own.value];
    }
  }

  /** Every other node gets the vote of its community. */
  method AddVotes(env: Env, nodes: seq<Node>, snap: Snapshot, known: map<string, set<string>>)
      returns (sets: map<string, set<string>>)
    requires UniqueIds(nodes) && Right(env, nodes, snap, known)
    requires forall n :: n in nodes && (IsListed(snap, n) || StubSet(env, snap, n).Some?) ==> n.id in known
    ensures Right(env, nodes, snap, sets) && sets.Keys == IdsOf(nodes)
  {
    sets := known;
    for k := 0 to |nodes|
      invariant Right(env, nodes, snap, sets) && known.Keys <= sets.Keys
      invariant forall j :: 0 <= j < k ==> nodes[j].id in sets
    {
      if nodes[k].id !in sets {
        var votes := Tally(env, nodes, snap, nodes[k].community);
        RightWith(env, nodes, snap, sets, nodes[k], votes);
        sets := sets[nodes[k].id := votes];
      }
    }
  }

  /** `recorded_sets`. */
  method RecordedSets(env: Env, nodes: seq<Node>, snap: Snapshot)
      returns (sets: map<string, set<string>>, listed: set<string>)
    requires UniqueIds(nodes)
    ensures listed == set n | n in nodes && IsListed(snap, n) :: n.id
    ensures sets.Keys == IdsOf(nodes)
    ensures forall n :: n in nodes ==> n.id in sets && sets[n.id] == Recorded(env, nodes, snap, n)
  {
    sets := ListedSets(env, nodes, snap);
    listed := sets.Keys;
    forall n | n in nodes ensures n.id in sets <==> IsListed(snap, n) {
      if n.id in sets {
        var m :| m in nodes && IsListed(snap, m) && m.id == n.id;
        SameNode(nodes, n, m);
      }
    }
    sets := AddStubs(env, nodes, snap, sets);
    sets := AddVotes(env, nodes, snap, sets);
  }

  /** The vote of one community, slug by slug. */
  method Tally(env: Env, nodes: seq<Node>, snap: Snapshot, community: Option<string>) returns (won: set<string>)
    ensures won == VoteOf(env, nodes, snap, community)
  {
    if community.None? {
      return {};
    }
    var voters := Keep(nodes, Voter(snap, community.value));
    var tally: map<string, nat> := map[];
    for k := 0 to |voters|
      invariant forall s :: Got(tally, s) == Count(voters[..k], HoldsSlug(env, nodes, snap, s))
      invariant forall s :: s in tally ==> tally[s] > 0
    {
      assert voters[k] in voters && IsListed(snap, voters[k]);
      assert voters[..k + 1][..k] == voters[..k];
      var held := ListedSet(env, nodes, snap, voters[k]);
      tally := map s | s in tally.Keys + held :: Got(tally, s) + if s in held then 1 else 0;
    }
    assert voters[..|voters|] == voters;
    won := set s | s in tally && 2 * tally[s] > |voters|;
    forall s ensures s in won <==> s in VoteOf(env, nodes, snap, community) {
      CountBound(voters, HoldsSlug(env, nodes, snap, s));
    }
  }
}
