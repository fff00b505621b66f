/** Looking up many paths in a Git tree: layers without nested paths, chunks that fit argv. */
module TreeLayers {
  import opened Wrappers
  import opened Ordering
  import opened Bounds

  /** `a` is an ancestor directory of `p`. */
  predicate Above(a: string, p: string) {
    |a| < |p| && p[|a|] == '/' && p[..|a|] == a
  }

  lemma AboveTransitive(a: string, b: string, c: string)
    requires Above(a, b) && Above(b, c)
    ensures Above(a, c)
  {
    assert c[..|a|] == c[..|b|][..|a|];
    assert c[|a|] == c[..|b|][|a|];
  }

  /** Two ancestors of one path are nested. */
  lemma AncestorsNested(a: string, b: string, p: string)
    requires Above(a, p) && Above(b, p) && a != b
    ensures Above(a, b) || Above(b, a)
  {
    assert |a| == |b| ==> a == b;
    if |a| < |b| {
      assert b[..|a|] == p[..|b|][..|a|] == a;
      assert b[|a|] == p[..|b|][|a|];
    } else {
      assert a[..|b|] == p[..|a|][..|b|] == b;
      assert a[|b|] == p[..|a|][|b|];
    }
  }

  lemma {:induction false} PrefixLess(a: string, p: string)
    requires |a| < |p| && p[..|a|] == a
    ensures LexLess(a, p)
  {
    if a != "" {
      assert a[0] == p[..|a|][0] == p[0];
      assert p[1..][..|a| - 1] == p[..|a|][1..] == a[1..];
      PrefixLess(a[1..], p[1..]);
    }
  }

  function Ancestors(paths: set<string>, p: string): set<string> {
    set a | a in paths && Above(a, p)
  }

  /** How many requested directories a path lies in. */
  function Level(paths: set<string>, p: string): nat {
    |Ancestors(paths, p)|
  }

  lemma LevelGrows(paths: set<string>, a: string, p: string)
    requires a in paths && Above(a, p)
    ensures Level(paths, a) < Level(paths, p)
  {
    forall b | b in Ancestors(paths, a) ensures b in Ancestors(paths, p) {
      AboveTransitive(b, a, p);
    }
    assert a in Ancestors(paths, p) && a !in Ancestors(paths, a);
    SubsetSize(Ancestors(paths, a) + {a}, Ancestors(paths, p));
  }

  /* ---- a chain takes every level below its top ---- */

  /** Paths of which any two are nested. */
  ghost predicate Chain(paths: set<string>, chain: set<string>) {
    chain <= paths && forall a, b :: a in chain && b in chain && a != b ==> Above(a, b) || Above(b, a)
  }

  ghost function Levels(paths: set<string>, chain: set<string>): set<nat> {
    set a | a in chain :: Level(paths, a)
  }

  lemma {:induction false} ChainLevels(paths: set<string>, chain: set<string>)
    requires Chain(paths, chain)
    ensures |Levels(paths, chain)| == |chain|
    decreases |chain|
  {
    if chain != {} {
      var a :| a in chain;
      var rest := chain - {a};
      ChainLevels(paths, rest);
      assert Levels(paths, chain) == Levels(paths, rest) + {Level(paths, a)};
      forall b | b in rest ensures Level(paths, b) != Level(paths, a) {
        if Above(a, b) { LevelGrows(paths, a, b); } else { LevelGrows(paths, b, a); }
      }
    } else {
      assert Levels(paths, chain) == {};
    }
  }

  /** Numbers below `n` that are `n` many are all of them. */
  lemma AllBelow(s: set<nat>, n: nat, i: nat)
    requires (forall k :: k in s ==> k < n) && |s| == n && i < n
    ensures i in s
  {
    SizeBelow(s + {i}, n);
  }

  /** For each smaller level a path has an ancestor of that level. */
  lemma AncestorAt(paths: set<string>, p: string, i: nat) returns (a: string)
    requires i < Level(paths, p)
    ensures a in Ancestors(paths, p) && Level(paths, a) == i
  {
    var chain := Ancestors(paths, p);
    forall a, b | a in chain && b in chain && a != b ensures Above(a, b) || Above(b, a) {
      AncestorsNested(a, b, p);
    }
    ChainLevels(paths, chain);
    forall k | k in Levels(paths, chain) ensures k < Level(paths, p) {
      var b :| b in chain && Level(paths, b) == k;
      LevelGrows(paths, b, p);
    }
    AllBelow(Levels(paths, chain), Level(paths, p), i);
    a :| a in chain && Level(paths, a) == i;
  }

  /* ---- the greedy layers ---- */

  predicate Conflicts(layer: set<string>, p: string) {
    exists other :: other in layer && (Above(p, other) || Above(other, p))
  }

  function AtLevel(paths: set<string>, done: set<string>, i: nat): set<string> {
    set q | q in done && Level(paths, q) == i
  }

  function Elems(s: seq<string>): set<string> {
    set x | x in s
  }

  /** Among the paths before `p`, only the layer of its own level takes it. */
  lemma {:induction false} FitsOwnLevel(paths: set<string>, done: set<string>, p: string, i: nat)
    requires done <= paths && p in paths && (forall q :: q in paths && LexLess(q, p) ==> q in done)
    requires forall q :: q in done ==> LexLess(q, p)
    ensures i < Level(paths, p) ==> Conflicts(AtLevel(paths, done, i), p)
    ensures i == Level(paths, p) ==> !Conflicts(AtLevel(paths, done, i), p)
  {
    if i < Level(paths, p) {
      var a := AncestorAt(paths, p, i);
      PrefixLess(a, p);
      assert a in AtLevel(paths, done, i);
    } else if i == Level(paths, p) {
      forall other | other in AtLevel(paths, done, i) ensures !Above(p, other) && !Above(other, p) {
        if Above(other, p) { LevelGrows(paths, other, p); }
        if Above(p, other) {
          PrefixLess(p, other);
          LexAsym(p, other);
        }
      }
    }
  }

  /** Every path of `done` is in the layer of its level, and no layer is empty. */
  ghost predicate Placed(paths: set<string>, done: set<string>, layers: seq<set<string>>) {
    && (forall i :: 0 <= i < |layers| ==> layers[i] == AtLevel(paths, done, i) && layers[i] != {})
    && (forall q :: q in done ==> Level(paths, q) < |layers|)
  }

  ghost predicate Fit(layers: seq<set<string>>, p: string, j: nat) {
    && j <= |layers| && (forall i :: 0 <= i < j ==> Conflicts(layers[i], p))
    && (j < |layers| ==> !Conflicts(layers[j], p))
  }

  lemma {:induction false} FirstFitIsLevel(paths: set<string>, done: set<string>, p: string, layers: seq<set<string>>,
      j: nat)
    requires done <= paths && p in paths && Placed(paths, done, layers) && Fit(layers, p, j)
    requires forall q :: q in paths && LexLess(q, p) ==> q in done
    requires forall q :: q in done ==> LexLess(q, p)
    ensures j == Level(paths, p)
  {
    LayersReach(paths, done, p, layers);
    FitsOwnLevel(paths, done, p, j);
    FitsOwnLevel(paths, done, p, Level(paths, p));
  }

  lemma PlaceNext(paths: set<string>, done: set<string>, p: string, layers: seq<set<string>>)
    requires Placed(paths, done, layers) && Level(paths, p) <= |layers|
    ensures var j := Level(paths, p);
      Placed(paths, done + {p}, if j < |layers| then layers[j := layers[j] + {p}] else layers + [{p}])
  {
    var j := Level(paths, p);
    var next := if j < |layers| then layers[j := layers[j] + {p}] else layers + [{p}];
    AboveTop(paths, done, layers);
    forall i | 0 <= i < |next| ensures next[i] == AtLevel(paths, done + {p}, i) && next[i] != {} {
      LevelWith(paths, done, p, i);
    }
  }

  lemma LevelWith(paths: set<string>, done: set<string>, p: string, i: nat)
    ensures AtLevel(paths, done + {p}, i) == AtLevel(paths, done, i) + (if i == Level(paths, p) then {p} else {})
  {
  }

  /** `_layers`: first fit puts every path in the layer of its level. */
  method Layers(paths: set<string>) returns (layers: seq<set<string>>)
    ensures forall i :: 0 <= i < |layers| ==> layers[i] == AtLevel(paths, paths, i) && layers[i] != {}
    ensures forall p :: p in paths ==> Level(paths, p) < |layers|
  {
    var sorted := Slugs(paths);
    layers := [];
    for k := 0 to |sorted|
      invariant Placed(paths, Elems(sorted[..k]), layers)
    {
      var p := sorted[k];
      ghost var done := Elems(sorted[..k]);
      SortedBefore(paths, sorted, k);
      var j := FirstFit(layers, p);
      FirstFitIsLevel(paths, done, p, layers, j);
      PlaceNext(paths, done, p, layers);
      layers := if j < |layers| then layers[j := layers[j] + {p}] else layers + [{p}];
    }
    SortedAll(paths, sorted);
  }

  lemma SortedAll(paths: set<string>, sorted: seq<string>)
    requires forall x :: x in sorted <==> x in paths
    ensures Elems(sorted[..|sorted|]) == paths
  {
    assert sorted[..|sorted|] == sorted;
  }

  lemma SortedBefore(paths: set<string>, sorted: seq<string>, k: nat)
    requires k < |sorted| && Increasing(sorted, LexLess) && forall x :: x in sorted <==> x in paths
    ensures sorted[k] in paths && Elems(sorted[..k]) <= paths
      && Elems(sorted[..k + 1]) == Elems(sorted[..k]) + {sorted[k]}
    ensures forall q :: q in paths && LexLess(q, sorted[k]) ==> q in Elems(sorted[..k])
    ensures forall q :: q in Elems(sorted[..k]) ==> LexLess(q, sorted[k])
  {
    assert sorted[k] in sorted && sorted[..k + 1] == sorted[..k] + [sorted[k]];
    forall i | k <= i < |sorted| ensures !LexLess(sorted[i], sorted[k]) {
      LexAsym(sorted[i], sorted[k]);
    }
    forall q | q in paths && LexLess(q, sorted[k]) ensures q in Elems(sorted[..k]) {
      var i :| 0 <= i < |sorted| && sorted[i] == q;
      assert i < k;
      assert sorted[..k][i] == q;
    }
    forall q | q in Elems(sorted[..k]) ensures LexLess(q, sorted[k]) {
      var i :| 0 <= i < k && sorted[..k][i] == q;
    }
  }

  /** There are layers for every level below that of the next path. */
  lemma {:induction false} LayersReach(paths: set<string>, done: set<string>, p: string, layers: seq<set<string>>)
    requires p in paths && (forall q :: q in paths && LexLess(q, p) ==> q in done)
    requires forall q :: q in done ==> Level(paths, q) < |layers|
    ensures Level(paths, p) <= |layers|
  {
    if Level(paths, p) > 0 {
      var a := AncestorAt(paths, p, Level(paths, p) - 1);
      PrefixLess(a, p);
    }
  }

  lemma AboveTop(paths: set<string>, done: set<string>, layers: seq<set<string>>)
    requires forall q :: q in done ==> Level(paths, q) < |layers|
    ensures AtLevel(paths, done, |layers|) == {}
  {
  }

  method FirstFit(layers: seq<set<string>>, p: string) returns (j: nat)
    ensures Fit(layers, p, j)
  {
    j := 0;
    while j < |layers| && Conflicts(layers[j], p)
      invariant j <= |layers| && forall i :: 0 <= i < j ==> Conflicts(layers[i], p)
    {
      j := j + 1;
    }
  }

  /* ---- what the layers are good for ---- */

  predicate Flat(layer: set<string>) {
    forall a, b :: a in layer && b in layer ==> !Above(a, b)
  }

  /** No layer mixes a directory with what lies in it. */
  lemma LayerFlat(paths: set<string>, i: nat)
    ensures Flat(AtLevel(paths, paths, i))
  {
    forall a, b | a in AtLevel(paths, paths, i) && b in AtLevel(paths, paths, i) ensures !Above(a, b) {
      if Above(a, b) { LevelGrows(paths, a, b); }
    }
  }

  lemma {:induction false} IndexesDiffer(chain: set<string>, where: map<string, nat>)
    requires chain <= where.Keys
    requires forall a, b :: a in chain && b in chain && a != b ==> where[a] != where[b]
    ensures |set a | a in chain :: where[a]| == |chain|
    decreases |chain|
  {
    if chain != {} {
      var x :| x in chain;
      IndexesDiffer(chain - {x}, where);
      assert (set a | a in chain :: where[a]) == (set a | a in chain - {x} :: where[a]) + {where[x]};
    } else {
      assert (set a | a in chain :: where[a]) == {};
    }
  }

  /** MAIN: no other division of the paths into groups without nested paths has fewer groups. */
  lemma FewestLayers(paths: set<string>, layers: seq<set<string>>, groups: nat, where: map<string, nat>)
    requires forall i :: 0 <= i < |layers| ==> layers[i] == AtLevel(paths, paths, i) && layers[i] != {}
    requires paths <= where.Keys && forall p :: p in paths ==> where[p] < groups
    requires forall a, b :: a in paths && b in paths && Above(a, b) ==> where[a] != where[b]
    ensures |layers| <= groups
  {
    if layers != [] {
      var top := |layers| - 1;
      var p :| p in layers[top];
      var chain := Ancestors(paths, p) + {p};
      forall a, b | a in chain && b in chain && a != b ensures where[a] != where[b] {
        if a != p && b != p { AncestorsNested(a, b, p); }
      }
      IndexesDiffer(chain, where);
      assert |chain| == top + 1;
      var indexes := set a | a in chain :: where[a];
      SizeBelow(indexes, groups);
    }
  }

  /* ---- chunks ---- */

  const BUDGET: nat := 16384

  function Cost(size: string -> nat, p: string): nat {
    size(p) + 1
  }

  function Total(size: string -> nat, chunk: seq<string>): nat {
    if chunk == [] then 0 else Total(size, chunk[..|chunk| - 1]) + Cost(size, chunk[|chunk| - 1])
  }

  function Joined(chunks: seq<seq<string>>): seq<string> {
    if chunks == [] then [] else Joined(chunks[..|chunks| - 1]) + chunks[|chunks| - 1]
  }

  predicate ChunkOk(size: string -> nat, chunk: seq<string>) {
    chunk != [] && (|chunk| == 1 || Total(size, chunk) <= BUDGET)
  }

  /** No chunk had room for the first path of the next. */
  predicate Greedy(size: string -> nat, chunks: seq<seq<string>>) {
    forall i :: 0 <= i < |chunks| - 1 && chunks[i + 1] != [] ==>
      Total(size, chunks[i]) + Cost(size, chunks[i + 1][0]) > BUDGET
  }

  /** The chunks so far and the one being filled. */
  ghost predicate Filling(size: string -> nat, chunks: seq<seq<string>>, current: seq<string>) {
    && (forall c :: c in chunks ==> ChunkOk(size, c)) && Greedy(size, chunks)
    && (current == [] ==> chunks == []) && (current != [] ==> ChunkOk(size, current))
    && (chunks != [] && current != [] ==> Total(size, chunks[|chunks| - 1]) + Cost(size, current[0]) > BUDGET)
  }

  lemma {:induction false} TotalMore(size: string -> nat, chunk: seq<string>, p: string)
    ensures Total(size, chunk + [p]) == Total(size, chunk) + Cost(size, p)
  {
    assert (chunk + [p])[..|chunk|] == chunk;
  }

  lemma {:induction false} FillMore(size: string -> nat, chunks: seq<seq<string>>, current: seq<string>, p: string)
    requires Filling(size, chunks, current) && (current == [] || Total(size, current) + Cost(size, p) <= BUDGET)
    ensures Filling(size, chunks, current + [p])
  {
    TotalMore(size, current, p);
  }

  lemma {:induction false} JoinedMore(chunks: seq<seq<string>>, current: seq<string>)
    ensures Joined(chunks + [current]) == Joined(chunks) + current
  {
    assert (chunks + [current])[..|chunks|] == chunks;
  }

  lemma Flush(size: string -> nat, chunks: seq<seq<string>>, current: seq<string>)
    requires Filling(size, chunks, current) && current != []
    ensures Greedy(size, chunks + [current]) && forall c :: c in chunks + [current] ==> ChunkOk(size, c)
  {
  }

  lemma {:induction false} FillNext(size: string -> nat, chunks: seq<seq<string>>, current: seq<string>, p: string)
    requires Filling(size, chunks, current) && current != [] && Total(size, current) + Cost(size, p) > BUDGET
    ensures Filling(size, chunks + [current], [p])
  {
    Flush(size, chunks, current);
  }

  /** `_chunks`: the paths in order, cut only where the budget forces it. */
  method Chunks(size: string -> nat, paths: set<string>) returns (chunks: seq<seq<string>>)
    ensures Joined(chunks) == Slugs(paths)
    ensures forall c :: c in chunks ==> ChunkOk(size, c)
    ensures Greedy(size, chunks)
  {
    chunks := Fill(size, Slugs(paths));
  }

  datatype Filled = Filled(chunks: seq<seq<string>>, current: seq<string>, total: nat)

  function FillStep(size: string -> nat, f: Filled, p: string): Filled {
    if f.current != [] && f.total + Cost(size, p) > BUDGET then Filled(f.chunks + [f.current], [p], Cost(size, p))
    else Filled(f.chunks, f.current + [p], f.total + Cost(size, p))
  }

  function FillAll(size: string -> nat, sorted: seq<string>): Filled {
    if sorted == [] then Filled([], [], 0)
      else FillStep(size, FillAll(size, sorted[..|sorted| - 1]), sorted[|sorted| - 1])
  }

  lemma FillStepKeeps(size: string -> nat, f: Filled, p: string)
    requires Filling(size, f.chunks, f.current) && f.total == Total(size, f.current)
    ensures var g := FillStep(size, f, p);
      && Filling(size, g.chunks, g.current) && g.total == Total(size, g.current) && g.current != []
      && Joined(g.chunks) + g.current == (Joined(f.chunks) + f.current) + [p]
  {
    TotalMore(size, f.current, p);
    if f.current != [] && f.total + Cost(size, p) > BUDGET {
      JoinedMore(f.chunks, f.current);
      FillNext(size, f.chunks, f.current, p);
      TotalMore(size, [], p);
      assert [] + [p] == [p];
    } else {
      FillMore(size, f.chunks, f.current, p);
    }
  }

  ghost predicate FilledOk(size: string -> nat, f: Filled, sorted: seq<string>) {
    && Filling(size, f.chunks, f.current) && f.total == Total(size, f.current) && (sorted != [] ==> f.current != [])
    && Joined(f.chunks) + f.current == sorted
  }

  lemma FillStepOk(size: string -> nat, f: Filled, sorted: seq<string>, p: string)
    requires FilledOk(size, f, sorted)
    ensures FilledOk(size, FillStep(size, f, p), sorted + [p])
  {
    FillStepKeeps(size, f, p);
  }

  lemma {:induction false} FillAllKeeps(size: string -> nat, sorted: seq<string>)
    ensures FilledOk(size, FillAll(size, sorted), sorted)
  {
    if sorted != [] {
      var k := |sorted| - 1;
      FillAllKeeps(size, sorted[..k]);
      FillStepOk(size, FillAll(size, sorted[..k]), sorted[..k], sorted[k]);
      assert sorted == sorted[..k] + [sorted[k]];
    }
  }

  method Fill(size: string -> nat, sorted: seq<string>) returns (chunks: seq<seq<string>>)
    ensures Joined(chunks) == sorted
    ensures forall c :: c in chunks ==> ChunkOk(size, c)
    ensures Greedy(size, chunks)
  {
    chunks := [];
    var current: seq<string>, total: nat := [], 0;
    for k := 0 to |sorted|
      invariant Filled(chunks, current, total) == FillAll(size, sorted[..k])
    {
      var cost := Cost(size, sorted[k]);
      assert sorted[..k + 1][..k] == sorted[..k];
      if current != [] && total + cost > BUDGET {
        chunks := chunks + [current];
        current, total := [], 0;
        assert current + [sorted[k]] == [sorted[k]];
      }
      current := current + [sorted[k]];
      total := total + cost;
    }
    assert sorted[..|sorted|] == sorted;
    FillAllKeeps(size, sorted);
    JoinedMore(chunks, current);
    if current != [] {
      Flush(size, chunks, current);
      chunks := chunks + [current];
    }
  }

  /** Every path is in some chunk, and chunks hold nothing else. */
  lemma {:induction false} ChunksCover(chunks: seq<seq<string>>)
    ensures forall x :: x in Joined(chunks) <==> exists c :: c in chunks && x in c
  {
    if chunks != [] {
      var front := chunks[..|chunks| - 1];
      ChunksCover(front);
      assert chunks == front + [chunks[|chunks| - 1]];
    }
  }

  /* ---- the lookup ---- */

  datatype Entry = Entry(oid: string, mode: string, directory: bool)

  type Tree = map<string, Entry>

  /** `git ls-tree -r`: everything but directories, at or below the paths given. */
  predicate ListedRecursive(tree: Tree, spec: Option<set<string>>, p: string) {
    p in tree && !tree[p].directory && (spec.None? || p in spec.value || exists s :: s in spec.value && Above(s, p))
  }

  /** `git ls-tree`: a given path that has no other given path below it; without paths, the top level. */
  predicate ListedOnce(tree: Tree, spec: Option<set<string>>, p: string) {
    && p in tree
    && if spec.None? then '/' !in p else p in spec.value && forall s :: s in spec.value ==> !Above(p, s)
  }

  /** The path arguments of a chunk: none when they do not fit. */
  function SpecOf(size: string -> nat, chunk: seq<string>): Option<set<string>> {
    if Total(size, chunk) <= BUDGET then Some(Elems(chunk)) else None
  }

  /** The one lookup that can miss: a directory below the top whose name alone exceeds the budget. */
  predicate Findable(size: string -> nat, tree: Tree, p: string) {
    p in tree && (!tree[p].directory || Cost(size, p) <= BUDGET || '/' !in p)
  }

  lemma {:induction false} OnceFinds(size: string -> nat, tree: Tree, layer: set<string>, chunk: seq<string>, p: string)
    requires Flat(layer) && Elems(chunk) <= layer && p in chunk
    ensures ListedOnce(tree, SpecOf(size, chunk), p) <==> p in tree && (Total(size, chunk) <= BUDGET || '/' !in p)
  {
    assert p in Elems(chunk);
    forall q | q in Elems(chunk) ensures !Above(p, q) {
      assert p in layer && q in layer;
    }
  }

  lemma {:induction false} OneChunk(size: string -> nat, chunk: seq<string>, p: string)
    requires ChunkOk(size, chunk) && p in chunk
    ensures Cost(size, p) <= BUDGET <==> Total(size, chunk) <= BUDGET
  {
    if |chunk| == 1 {
      assert chunk == [p];
      assert chunk[..0] == [];
    } else {
      CostWithin(size, chunk, p);
    }
  }

  lemma {:induction false} CostWithin(size: string -> nat, chunk: seq<string>, p: string)
    requires p in chunk
    ensures Cost(size, p) <= Total(size, chunk)
  {
    var k := |chunk| - 1;
    if p != chunk[k] {
      assert chunk == chunk[..k] + [chunk[k]];
      CostWithin(size, chunk[..k], p);
    }
  }

  /** One Git call over a chunk, restricted to the chunk's paths. */
  method CallGit(size: string -> nat, tree: Tree, chunk: seq<string>, recursive: bool, found: Tree) returns (more: Tree)
    ensures more == found + map p | p in tree && p in chunk
      && (if recursive then ListedRecursive(tree, SpecOf(size, chunk), p)
        else ListedOnce(tree, SpecOf(size, chunk), p)) :: tree[p]
  {
    var spec := SpecOf(size, chunk);
    if recursive {
      more := found + map p | p in tree && p in chunk && ListedRecursive(tree, spec, p) :: tree[p];
    } else {
      more := found + map p | p in tree && p in chunk && ListedOnce(tree, spec, p) :: tree[p];
    }
  }

  predicate Agrees(tree: Tree, found: Tree) {
    forall p :: p in found ==> p in tree && found[p] == tree[p]
  }

  method RecursivePass(size: string -> nat, tree: Tree, paths: set<string>) returns (found: Tree)
    ensures Agrees(tree, found)
    ensures forall p :: p in found <==> p in paths && p in tree && !tree[p].directory
  {
    var chunks := Chunks(size, paths);
    ChunksCover(chunks);
    found := map[];
    for k := 0 to |chunks|
      invariant Agrees(tree, found)
      invariant forall p :: p in found <==> p in tree && !tree[p].directory && exists c :: c in chunks[..k] && p in c
    {
      assert chunks[..k + 1] == chunks[..k] + [chunks[k]];
      found := CallGit(size, tree, chunks[k], true, found);
    }
    assert chunks[..|chunks|] == chunks;
  }

  method OncePass(size: string -> nat, tree: Tree, layer: set<string>, before: Tree) returns (found: Tree)
    requires Flat(layer) && Agrees(tree, before)
    ensures Agrees(tree, found)
    ensures forall p :: p in found <==>
      p in before || (p in layer && p in tree && (Cost(size, p) <= BUDGET || '/' !in p))
  {
    var chunks := Chunks(size, layer);
    ChunksCover(chunks);
    found := before;
    for k := 0 to |chunks|
      invariant Agrees(tree, found)
      invariant forall p :: p in found <==>
        p in before || (p in tree && (Cost(size, p) <= BUDGET || '/' !in p) && exists c :: c in chunks[..k] && p in c)
    {
      var chunk := chunks[k];
      assert chunks[..k + 1] == chunks[..k] + [chunk];
      assert chunk in chunks;
      forall p | p in chunk
        ensures ListedOnce(tree, SpecOf(size, chunk), p) <==> p in tree && (Cost(size, p) <= BUDGET || '/' !in p)
      {
        assert p in Joined(chunks);
        OneChunk(size, chunk, p);
        assert Elems(chunk) <= layer by { forall x | x in chunk ensures x in layer { assert x in Joined(chunks); } }
        OnceFinds(size, tree, layer, chunk, p);
      }
      found := CallGit(size, tree, chunk, false, found);
    }
    assert chunks[..|chunks|] == chunks;
  }

  /** MAIN: `tree_entries_all` finds exactly the requested entries, of every kind, except a
      directory below the top level whose own name exceeds the argument budget. */
  method TreeEntriesAll(size: string -> nat, tree: Tree, paths: set<string>) returns (found: Tree)
    ensures Agrees(tree, found)
    ensures forall p :: p in found <==> p in paths && Findable(size, tree, p)
  {
    found := RecursivePass(size, tree, paths);
    var rest := paths - found.Keys;
    var layers := Layers(rest);
    ghost var first := found;
    for k := 0 to |layers|
      invariant Agrees(tree, found)
      invariant forall p :: p in found <==>
        p in first || (p in rest && Level(rest, p) < k && p in tree && (Cost(size, p) <= BUDGET || '/' !in p))
    {
      LayerFlat(rest, k);
      found := OncePass(size, tree, layers[k], found);
    }
  }

  /** `a/bbb…`, one character over the budget with the blank that ends it. */
  function LongPath(): string {
    "a/" + seq(BUDGET - 2, _ => 'b')
  }

  const LONG_TREE: Tree := map[LongPath() := Entry("oid", "040000", true)]

  /** COUNTEREXAMPLE.  A requested directory below the top level that the lookup can never find. */
  lemma LongDirectoryNotFindable()
    ensures LongPath() in LONG_TREE && LONG_TREE[LongPath()].directory
    ensures Cost(s => |s|, LongPath()) == BUDGET + 1 && !Findable(s => |s|, LONG_TREE, LongPath())
  {
    assert LongPath()[1] == '/';
  }

  /** The lookup itself, asked for that one directory, comes back with nothing. */
  method LongDirectoryMissed() returns (found: Tree)
    ensures LongPath() in LONG_TREE && found == map[]
  {
    LongDirectoryNotFindable();
    found := TreeEntriesAll(s => |s|, LONG_TREE, {LongPath()});
    assert forall p :: p in {LongPath()} ==> p !in found;
    assert found.Keys == {};
  }
}
