/** The domain-membership snapshot: building it, and reading it back over a graph. */
module DomainSnapshot {
  import opened Wrappers
  import opened Ordering

  /** An anchorable node of the graph; the path is empty for a node without a file. */
  datatype Node = Node(id: string, name: string, path: string, fileType: string, community: Option<string>)

  datatype Entry = Entry(id: string, name: string, domains: seq<string>)
  datatype FileEntry = FileEntry(domains: seq<string>, nodes: seq<Entry>)
  datatype StubNode = StubNode(id: string, domains: seq<string>)
  datatype Stub = Stub(name: string, fileType: string, domains: Option<seq<string>>, nodes: Option<seq<StubNode>>)
  datatype Covered = Covered(slug: string, id: string)
  datatype Snapshot = Snapshot(domains: seq<Covered>, files: map<string, FileEntry>, stubs: seq<Stub>)

  /** Canonical names, the reader's label conventions, and what a slug and a path may be. */
  datatype Env = Env(
    canon: string -> string, fileNode: Node -> bool, unstable: string -> bool,
    slugOk: string -> bool, pathOk: string -> bool)

  type Members = map<string, set<string>>

  /** The slugs that list a node. */
  function Held(members: Members, id: string): set<string> {
    set s | s in members && id in members[s]
  }

  function Elems(s: seq<string>): set<string> {
    set x | x in s
  }

  predicate UniqueIds(nodes: seq<Node>) {
    forall i, j :: 0 <= i < j < |nodes| ==> nodes[i].id != nodes[j].id
  }

  lemma SameNode(nodes: seq<Node>, a: Node, b: Node)
    requires UniqueIds(nodes) && a in nodes && b in nodes && a.id == b.id
    ensures a == b
  {
    var i :| 0 <= i < |nodes| && nodes[i] == a;
    var j :| 0 <= j < |nodes| && nodes[j] == b;
  }

  function InPath(path: string): Node -> bool {
    (n: Node) => n.path == path
  }

  function StubKey(env: Env, n: Node): (string, string) {
    (env.canon(n.name), n.fileType)
  }

  function OfKey(env: Env, key: (string, string)): Node -> bool {
    (n: Node) => n.path == "" && StubKey(env, n) == key
  }

  function HasSet(members: Members, d: set<string>): Node -> bool {
    (n: Node) => Held(members, n.id) == d
  }

  function NodeNamed(env: Env, key: string): Node -> bool {
    (n: Node) => env.canon(n.name) == key
  }

  function EntryNamed(env: Env, key: string): Entry -> bool {
    (e: Entry) => env.canon(e.name) == key
  }

  lemma {:induction false} KeepUnique(nodes: seq<Node>, f: Node -> bool)
    requires UniqueIds(nodes)
    ensures UniqueIds(Keep(nodes, f))
  {
    if nodes != [] {
      var front, n := nodes[..|nodes| - 1], nodes[|nodes| - 1];
      KeepUnique(front, f);
      forall i | 0 <= i < |Keep(front, f)| ensures Keep(front, f)[i].id != n.id {
        assert Keep(front, f)[i] in front;
      }
    }
  }

  /* ---- what a snapshot of the members is ---- */

  /** The most common set among the nodes, ties to the smallest in sorted order. */
  ghost predicate MostCommon(ns: seq<Node>, members: Members, d: set<string>) {
    && (exists n :: n in ns && Held(members, n.id) == d)
    && forall n :: n in ns ==> Beats(ns, members, d, Held(members, n.id))
  }

  ghost predicate Beats(ns: seq<Node>, members: Members, d: set<string>, other: set<string>) {
    var a, b := Count(ns, HasSet(members, d)), Count(ns, HasSet(members, other));
    b < a || (b == a && (other == d || ListLess(Slugs(d), Slugs(other))))
  }

  ghost predicate FirstFileNode(env: Env, ns: seq<Node>, i: int) {
    0 <= i < |ns| && env.fileNode(ns[i]) && forall j :: 0 <= j < i ==> !env.fileNode(ns[j])
  }

  ghost predicate IsDefault(env: Env, ns: seq<Node>, members: Members, d: set<string>) {
    || (exists i :: FirstFileNode(env, ns, i) && d == Held(members, ns[i].id))
    || ((forall n :: n in ns ==> !env.fileNode(n)) && MostCommon(ns, members, d))
  }

  function EntryOf(members: Members, n: Node): Entry {
    Entry(n.id, n.name, Slugs(Held(members, n.id)))
  }

  predicate EntriesSorted(entries: seq<Entry>) {
    forall i, j :: 0 <= i < j < |entries| ==> LexLess(entries[i].id, entries[j].id)
  }

  /** An entry for exactly the nodes whose set differs from the default. */
  ghost predicate Excepts(ns: seq<Node>, members: Members, default: set<string>, entries: seq<Entry>) {
    && (forall n :: n in ns && Held(members, n.id) != default ==> EntryOf(members, n) in entries)
    && (forall e :: e in entries ==> exists n :: n in ns && Held(members, n.id) != default && e == EntryOf(members, n))
  }

  ghost predicate BuildsFile(env: Env, ns: seq<Node>, members: Members, f: FileEntry) {
    && IsDefault(env, ns, members, Elems(f.domains)) && Increasing(f.domains, LexLess)
    && EntriesSorted(f.nodes) && Excepts(ns, members, Elems(f.domains), f.nodes)
  }

  predicate AllSame(group: seq<Node>, members: Members) {
    forall a, b :: a in group && b in group ==> Held(members, a.id) == Held(members, b.id)
  }

  function StubNodeOf(members: Members, n: Node): StubNode {
    StubNode(n.id, Slugs(Held(members, n.id)))
  }

  predicate StubNodesSorted(nodes: seq<StubNode>) {
    forall i, j :: 0 <= i < j < |nodes| ==> LexLess(nodes[i].id, nodes[j].id)
  }

  ghost predicate BuildsStub(group: seq<Node>, members: Members, st: Stub) {
    && group != []
    && if AllSame(group, members) then st.domains == Some(Slugs(Held(members, group[0].id))) && st.nodes == None
       else
         && st.domains == None && st.nodes.Some? && StubNodesSorted(st.nodes.value)
         && (forall n :: n in group ==> StubNodeOf(members, n) in st.nodes.value)
         && (forall x :: x in st.nodes.value ==> exists n :: n in group && x == StubNodeOf(members, n))
  }

  predicate StubsSorted(stubs: seq<Stub>) {
    forall i, j :: 0 <= i < j < |stubs| ==>
      PairLess((stubs[i].name, stubs[i].fileType), (stubs[j].name, stubs[j].fileType))
  }

  ghost predicate BuildsStubs(env: Env, nodes: seq<Node>, members: Members, stubs: seq<Stub>) {
    && StubsSorted(stubs)
    && (forall st :: st in stubs ==> BuildsStub(Keep(nodes, OfKey(env, (st.name, st.fileType))), members, st))
    && (forall n :: n in nodes && n.path == "" ==>
      exists st :: st in stubs && (st.name, st.fileType) == StubKey(env, n))
  }

  /** The files with an anchorable node. */
  function PathsOf(nodes: seq<Node>): set<string> {
    set n | n in nodes && n.path != "" :: n.path
  }

  ghost predicate BuildsFiles(env: Env, nodes: seq<Node>, members: Members, files: map<string, FileEntry>) {
    && files.Keys == PathsOf(nodes)
    && (forall p :: p in files ==> BuildsFile(env, Keep(nodes, InPath(p)), members, files[p]))
  }

  predicate BuildsDomains(members: Members, domainIds: map<string, string>, domains: seq<Covered>) {
    && (forall i, j :: 0 <= i < j < |domains| ==> LexLess(domains[i].slug, domains[j].slug))
    && (forall c :: c in domains ==> c.slug in members && c.slug in domainIds && c.id == domainIds[c.slug])
    && (forall s :: s in members ==> exists c :: c in domains && c.slug == s)
  }

  ghost predicate Builds(env: Env, nodes: seq<Node>, members: Members, domainIds: map<string, string>, snap: Snapshot) {
    && BuildsDomains(members, domainIds, snap.domains)
    && BuildsFiles(env, nodes, members, snap.files)
    && BuildsStubs(env, nodes, members, snap.stubs)
  }

  /* ---- reading a snapshot over a graph ---- */

  function LastEntry(entries: seq<Entry>, f: Entry -> bool): (r: Option<Entry>)
    ensures r.Some? ==> r.value in entries && f(r.value)
    ensures r.None? ==> forall e :: e in entries ==> !f(e)
  {
    if entries == [] then None
    else
      assert entries == entries[..|entries| - 1] + [entries[|entries| - 1]];
      if f(entries[|entries| - 1]) then Some(entries[|entries| - 1]) else LastEntry(entries[..|entries| - 1], f)
  }

  function WithId(id: string): Entry -> bool {
    (e: Entry) => e.id == id
  }

  /** Entries of a canonical name whose id is no current node's. */
  function Unmatched(env: Env, ns: seq<Node>, key: string): Entry -> bool {
    (e: Entry) => env.canon(e.name) == key && forall n :: n in ns ==> n.id != e.id
  }

  /** The entry a node of a listed file takes: by id, else by a unique canonical name. */
  function MatchEntry(env: Env, ns: seq<Node>, entries: seq<Entry>, n: Node): Option<Entry> {
    var hit := LastEntry(entries, WithId(n.id));
    if hit.Some? then hit
    else if env.unstable(n.fileType) then None
    else
      var key := env.canon(n.name);
      if Count(ns, NodeNamed(env, key)) == 1 && Count(entries, EntryNamed(env, key)) == 1
      then LastEntry(entries, Unmatched(env, ns, key)) else None
  }

  function FileSet(env: Env, ns: seq<Node>, f: FileEntry, n: Node): set<string> {
    var hit := MatchEntry(env, ns, f.nodes, n);
    Elems(if hit.Some? then hit.value.domains else f.domains)
  }

  predicate IsListed(snap: Snapshot, n: Node) {
    n.path != "" && n.path in snap.files
  }

  function ListedSet(env: Env, nodes: seq<Node>, snap: Snapshot, n: Node): set<string>
    requires IsListed(snap, n)
  {
    FileSet(env, Keep(nodes, InPath(n.path)), snap.files[n.path], n)
  }

  function LastStub(stubs: seq<Stub>, key: (string, string)): (r: Option<Stub>)
    ensures r.Some? ==> r.value in stubs && (r.value.name, r.value.fileType) == key
    ensures r.None? ==> forall st :: st in stubs ==> (st.name, st.fileType) != key
  {
    if stubs == [] then None
    else
      assert stubs == stubs[..|stubs| - 1] + [stubs[|stubs| - 1]];
      var st := stubs[|stubs| - 1];
      if (st.name, st.fileType) == key then Some(st) else LastStub(stubs[..|stubs| - 1], key)
  }

  function FirstStubNode(nodes: seq<StubNode>, id: string): (r: Option<StubNode>)
    ensures r.Some? ==> r.value in nodes && r.value.id == id
    ensures r.None? ==> forall x :: x in nodes ==> x.id != id
  {
    if nodes == [] then None
    else if nodes[0].id == id then Some(nodes[0])
    else FirstStubNode(nodes[1..], id)
  }

  function StubTakes(st: Stub, id: string): Option<set<string>> {
    if st.domains.Some? then Some(Elems(st.domains.value))
    else
      var hit := FirstStubNode(if st.nodes.Some? then st.nodes.value else [], id);
      if hit.Some? then Some(Elems(hit.value.domains)) else None
  }

  /** The set the `stubs` section gives a path-less node, if it does. */
  function StubSet(env: Env, snap: Snapshot, n: Node): Option<set<string>> {
    var st := if n.path != "" then None else LastStub(snap.stubs, StubKey(env, n));
    if st.None? then None else StubTakes(st.value, n.id)
  }

  function Voter(snap: Snapshot, community: string): Node -> bool {
    (n: Node) => IsListed(snap, n) && n.community == Some(community)
  }

  function HoldsSlug(env: Env, nodes: seq<Node>, snap: Snapshot, slug: string): Node -> bool {
    (n: Node) => IsListed(snap, n) && slug in ListedSet(env, nodes, snap, n)
  }

  /** A slug wins with more than half of the community's listed nodes. */
  function VoteOf(env: Env, nodes: seq<Node>, snap: Snapshot, community: Option<string>): set<string> {
    if community.None? then {}
    else
      var voters := Keep(nodes, Voter(snap, community.value));
      set m, s | m in voters && s in ListedSet(env, nodes, snap, m)
                 && 2 * Count(voters, HoldsSlug(env, nodes, snap, s)) > |voters| :: s
  }

  /** The recorded set of a node of the graph. */
  function Recorded(env: Env, nodes: seq<Node>, snap: Snapshot, n: Node): set<string> {
    if IsListed(snap, n) then ListedSet(env, nodes, snap, n)
    else
      var own := StubSet(env, snap, n);
      if own.Some? then own.value else VoteOf(env, nodes, snap, n.community)
  }

  /* ---- reading back what was built ---- */

  lemma EntryIsOf(ns: seq<Node>, members: Members, default: set<string>, entries: seq<Entry>, e: Entry)
      returns (n: Node)
    requires Excepts(ns, members, default, entries) && e in entries
    ensures n in ns && Held(members, n.id) != default && e == EntryOf(members, n)
  {
    n :| n in ns && Held(members, n.id) != default && e == EntryOf(members, n);
  }

  /** Over the nodes it was built from, no entry is free to match by name. */
  lemma {:induction false} NoneUnmatched(env: Env, ns: seq<Node>, members: Members, default: set<string>,
      entries: seq<Entry>, key: string)
    requires Excepts(ns, members, default, entries)
    ensures LastEntry(entries, Unmatched(env, ns, key)).None?
  {
    forall e | e in entries ensures !Unmatched(env, ns, key)(e) {
      var m := EntryIsOf(ns, members, default, entries, e);
      assert m.id == e.id;
    }
  }

  lemma FileReadsBack(env: Env, ns: seq<Node>, members: Members, f: FileEntry, n: Node)
    requires UniqueIds(ns) && n in ns && BuildsFile(env, ns, members, f)
    ensures FileSet(env, ns, f, n) == Held(members, n.id)
  {
    var default := Elems(f.domains);
    var hit := LastEntry(f.nodes, WithId(n.id));
    if hit.Some? {
      var m := EntryIsOf(ns, members, default, f.nodes, hit.value);
      SameNode(ns, n, m);
    } else {
      NoneUnmatched(env, ns, members, default, f.nodes, env.canon(n.name));
      assert WithId(n.id)(EntryOf(members, n));
    }
  }

  lemma StubTakesHeld(group: seq<Node>, members: Members, st: Stub, n: Node)
    requires BuildsStub(group, members, st) && n in group
    requires forall m :: m in group && m.id == n.id ==> m == n
    ensures StubTakes(st, n.id) == Some(Held(members, n.id))
  {
    if AllSame(group, members) {
      assert group[0] in group;
      assert Held(members, n.id) == Held(members, group[0].id);
      assert Elems(st.domains.value) == Held(members, n.id);
    } else {
      assert StubNodeOf(members, n) in st.nodes.value;
      var hit := FirstStubNode(st.nodes.value, n.id).value;
      var m :| m in group && hit == StubNodeOf(members, m);
      assert Elems(hit.domains) == Held(members, n.id);
    }
  }

  lemma StubReadsBack(env: Env, nodes: seq<Node>, members: Members, snap: Snapshot, n: Node)
    requires UniqueIds(nodes) && n in nodes && n.path == "" && BuildsStubs(env, nodes, members, snap.stubs)
    ensures StubSet(env, snap, n) == Some(Held(members, n.id))
  {
    var st := LastStub(snap.stubs, StubKey(env, n)).value;
    var group := Keep(nodes, OfKey(env, (st.name, st.fileType)));
    forall m | m in group && m.id == n.id ensures m == n {
      SameNode(nodes, n, m);
    }
    assert n in group;
    StubTakesHeld(group, members, st, n);
  }

  /** MAIN: reading a snapshot back over the graph it was built from gives every node exactly
      the slugs that listed it, path-less nodes of one name with differing sets included. */
  lemma SnapshotRoundTrip(env: Env, nodes: seq<Node>, members: Members, domainIds: map<string, string>, snap: Snapshot,
      n: Node)
    requires UniqueIds(nodes) && n in nodes && Builds(env, nodes, members, domainIds, snap)
    ensures Recorded(env, nodes, snap, n) == Held(members, n.id)
  {
    if n.path != "" {
      assert n.path in snap.files;
      KeepUnique(nodes, InPath(n.path));
      FileReadsBack(env, Keep(nodes, InPath(n.path)), members, snap.files[n.path], n);
    } else {
      StubReadsBack(env, nodes, members, snap, n);
    }
  }

  /* ---- the snapshot's own validators ---- */

  predicate SlugsValid(env: Env, s: seq<string>) {
    (forall x :: x in s ==> env.slugOk(x)) && Increasing(s, LexLess)
  }

  predicate Within(s: seq<string>, domains: seq<Covered>) {
    forall x :: x in s ==> exists c :: c in domains && c.slug == x
  }

  ghost predicate FileValid(env: Env, domains: seq<Covered>, f: FileEntry) {
    && SlugsValid(env, f.domains) && Within(f.domains, domains)
    && (forall e :: e in f.nodes ==> SlugsValid(env, e.domains) && Within(e.domains, domains))
    && (forall i, j :: 0 <= i < j < |f.nodes| ==> f.nodes[i].id != f.nodes[j].id)
  }

  ghost predicate StubValid(env: Env, domains: seq<Covered>, st: Stub) {
    && (st.domains.None? <==> st.nodes.Some?)
    && (st.domains.Some? ==> SlugsValid(env, st.domains.value) && Within(st.domains.value, domains))
    && (st.nodes.Some? ==> StubNodesValid(env, domains, st.nodes.value))
  }

  ghost predicate StubNodesValid(env: Env, domains: seq<Covered>, nodes: seq<StubNode>) {
    && nodes != []
    && (forall x :: x in nodes ==> SlugsValid(env, x.domains) && Within(x.domains, domains))
    && (forall i, j :: 0 <= i < j < |nodes| ==> nodes[i].id != nodes[j].id)
  }

  ghost predicate DomainsValid(env: Env, domains: seq<Covered>) {
    && (forall c :: c in domains ==> env.slugOk(c.slug))
    && (forall i, j :: 0 <= i < j < |domains| ==> LexLess(domains[i].slug, domains[j].slug))
    && (forall i, j :: 0 <= i < j < |domains| ==> domains[i].id != domains[j].id)
  }

  /** What the format's validators accept. */
  ghost predicate Valid(env: Env, snap: Snapshot) {
    && DomainsValid(env, snap.domains)
    && (forall p :: p in snap.files ==> env.pathOk(p) && FileValid(env, snap.domains, snap.files[p]))
    && StubsSorted(snap.stubs)
    && (forall st :: st in snap.stubs ==> StubValid(env, snap.domains, st))
  }

  lemma HeldWithin(env: Env, members: Members, domains: seq<Covered>, s: seq<string>, id: string)
    requires forall k :: k in members ==> env.slugOk(k) && exists c :: c in domains && c.slug == k
    requires Increasing(s, LexLess) && Elems(s) <= Held(members, id)
    ensures SlugsValid(env, s) && Within(s, domains)
  {
    forall x | x in s ensures x in members {
      assert x in Elems(s);
    }
  }

  lemma DefaultHeld(env: Env, ns: seq<Node>, members: Members, d: set<string>) returns (n: Node)
    requires IsDefault(env, ns, members, d)
    ensures n in ns && d == Held(members, n.id)
  {
    if i :| FirstFileNode(env, ns, i) && d == Held(members, ns[i].id) {
      n := ns[i];
    } else {
      n :| n in ns && Held(members, n.id) == d;
    }
  }

  lemma BuiltFileValid(env: Env, ns: seq<Node>, members: Members, domains: seq<Covered>, f: FileEntry)
    requires forall k :: k in members ==> env.slugOk(k) && exists c :: c in domains && c.slug == k
    requires BuildsFile(env, ns, members, f)
    ensures FileValid(env, domains, f)
  {
    LexTotal();
    var d := DefaultHeld(env, ns, members, Elems(f.domains));
    HeldWithin(env, members, domains, f.domains, d.id);
    forall e | e in f.nodes ensures SlugsValid(env, e.domains) && Within(e.domains, domains) {
      var n := EntryIsOf(ns, members, Elems(f.domains), f.nodes, e);
      HeldWithin(env, members, domains, e.domains, n.id);
    }
    forall i, j | 0 <= i < j < |f.nodes| ensures f.nodes[i].id != f.nodes[j].id {
      assert LexLess(f.nodes[i].id, f.nodes[j].id);
    }
  }

  lemma BuiltStubValid(env: Env, group: seq<Node>, members: Members, domains: seq<Covered>, st: Stub)
    requires forall k :: k in members ==> env.slugOk(k) && exists c :: c in domains && c.slug == k
    requires BuildsStub(group, members, st)
    ensures StubValid(env, domains, st)
  {
    LexTotal();
    if AllSame(group, members) {
      HeldWithin(env, members, domains, st.domains.value, group[0].id);
    } else {
      var nodes := st.nodes.value;
      forall x | x in nodes ensures SlugsValid(env, x.domains) && Within(x.domains, domains) {
        var n :| n in group && x == StubNodeOf(members, n);
        HeldWithin(env, members, domains, x.domains, n.id);
      }
      assert StubNodeOf(members, group[0]) in nodes;
      forall i, j | 0 <= i < j < |nodes| ensures nodes[i].id != nodes[j].id {
        assert LexLess(nodes[i].id, nodes[j].id);
      }
    }
  }

  /** Distinct covered slugs have distinct record ids. */
  predicate IdsInjective(members: Members, domainIds: map<string, string>) {
    forall a, b :: a in members && b in members && a in domainIds && b in domainIds && a != b ==>
      domainIds[a] != domainIds[b]
  }

  lemma BuiltDomainsValid(env: Env, members: Members, domainIds: map<string, string>, domains: seq<Covered>)
    requires BuildsDomains(members, domainIds, domains)
    ensures DomainsValid(env, domains) <==>
      (forall s :: s in members ==> env.slugOk(s)) && IdsInjective(members, domainIds)
  {
    LexTotal();
    if DomainsValid(env, domains) {
      forall s | s in members ensures env.slugOk(s) {
        var c :| c in domains && c.slug == s;
      }
      forall a, b | a in members && b in members && a in domainIds && b in domainIds && a != b
        ensures domainIds[a] != domainIds[b]
      {
        var i :| 0 <= i < |domains| && domains[i].slug == a;
        var j :| 0 <= j < |domains| && domains[j].slug == b;
        assert domains[i] in domains && domains[j] in domains;
        assert i < j || j < i;
      }
    } else if (forall s :: s in members ==> env.slugOk(s)) && IdsInjective(members, domainIds) {
      forall i, j | 0 <= i < j < |domains| ensures domains[i].id != domains[j].id {
        assert domains[i] in domains && domains[j] in domains && LexLess(domains[i].slug, domains[j].slug);
      }
    }
  }

  /** A built snapshot passes the format's validators exactly when the covered slugs are well
      formed, their records distinct, and the listed paths repository-relative. */
  lemma BuiltIsValid(env: Env, nodes: seq<Node>, members: Members, domainIds: map<string, string>, snap: Snapshot)
    requires Builds(env, nodes, members, domainIds, snap)
    ensures Valid(env, snap) <==>
      && (forall s :: s in members ==> env.slugOk(s)) && IdsInjective(members, domainIds)
      && (forall n :: n in nodes && n.path != "" ==> env.pathOk(n.path))
  {
    BuiltDomainsValid(env, members, domainIds, snap.domains);
    if Valid(env, snap) {
      forall n | n in nodes && n.path != "" ensures env.pathOk(n.path) {
        assert n.path in snap.files;
      }
    } else if (forall s :: s in members ==> env.slugOk(s)) && IdsInjective(members, domainIds)
              && (forall n :: n in nodes && n.path != "" ==> env.pathOk(n.path)) {
      forall p | p in snap.files ensures env.pathOk(p) && FileValid(env, snap.domains, snap.files[p]) {
        BuiltFileValid(env, Keep(nodes, InPath(p)), members, snap.domains, snap.files[p]);
      }
      forall st | st in snap.stubs ensures StubValid(env, snap.domains, st) {
        BuiltStubValid(env, Keep(nodes, OfKey(env, (st.name, st.fileType))), members, snap.domains, st);
      }
    }
  }
}
