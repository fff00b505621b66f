/**
  A reader of the check store beside publishers carrying out folds.

  A publisher writes the image over `packed.shard`, then unlinks packed and dropped files one
  at a time, in any order.  It may stop for good between any two steps: a crash, a moved HEAD
  and a failed witness read are all runs in which it takes no further step.  Another fold may
  then be planned over what it left.  The reader lists the check files, reads each or skips it
  when gone, and reads the packed file last; any number of folds may pass meanwhile.
 */
module CheckProtocol {
  import opened CheckStore
  import opened CheckFold

  datatype Reader =
    | Start
    | Reading(todo: seq<string>, got: seq<Occurrence>)
    | Done(seen: seq<Occurrence>)

  /** The arguments and the plan of the fold under way, how far it has come, and the reader. */
  datatype World = World(inp: Inputs, plan: CheckPlan, published: bool, unlinked: set<string>, reader: Reader)

  ghost predicate FileAt(inp: Inputs, path: string, o: Occurrence) {
    o in inp.occs && o.kind == File && o.path == path
  }

  ghost predicate OnDisk(w: World, path: string) {
    path !in w.unlinked && exists o :: FileAt(w.inp, path, o)
  }

  predicate Distinct<T(==)>(s: seq<T>) {
    forall i, j :: 0 <= i < j < |s| ==> s[i] != s[j]
  }

  function PackedNow(w: World): seq<Occurrence> {
    if w.published then ImageLines(w.inp) else PackedOccurrences(w.inp.fmt, w.inp.packed)
  }

  /** The store as it is now: the remaining files, then the lines of the packed file. */
  function Current(w: World): seq<Occurrence> {
    FilesOf(w.inp.occs, w.unlinked) + PackedNow(w)
  }

  /** A fold the planner allows, over the store as `load_check_inventory` read it. */
  ghost predicate Fold(inp: Inputs, plan: CheckPlan) {
    && inp.Valid() && inp.Unblocked() && Plans(inp, plan)
    && inp.occs == FilesOf(inp.occs, {}) + PackedOccurrences(inp.fmt, inp.packed)
  }

  ghost predicate Publish(w: World, w': World) {
    w.plan.HasWork() && !w.published && w' == w.(published := true)
  }

  ghost predicate Unlink(w: World, w': World) {
    && w.published
    && exists p ::
         p in w.plan.packed + w.plan.dropped && p !in w.unlinked && w' == w.(unlinked := w.unlinked + {p})
  }

  /** The fold under way is given up, and the next one planned over what it left. */
  ghost predicate Replan(w: World, w': World) {
    && Fold(w'.inp, w'.plan) && w'.inp.occs == Current(w)
    && w' == World(w'.inp, w'.plan, false, {}, w.reader)
  }

  ghost predicate List(w: World, w': World) {
    && w.reader.Start? && w'.reader.Reading? && w' == w.(reader := w'.reader)
    && w'.reader.got == [] && Distinct(w'.reader.todo)
    && forall p :: p in w'.reader.todo <==> OnDisk(w, p)
  }

  ghost predicate ReadFile(w: World, w': World) {
    && w.reader.Reading? && w.reader.todo != []
    && var path, rest := w.reader.todo[0], w.reader.todo[1..];
       if OnDisk(w, path)
       then exists o :: FileAt(w.inp, path, o) && w' == w.(reader := Reading(rest, w.reader.got + [o]))
       else w' == w.(reader := Reading(rest, w.reader.got))
  }

  ghost predicate ReadPacked(w: World, w': World) {
    w.reader.Reading? && w.reader.todo == [] && w' == w.(reader := Done(w.reader.got + PackedNow(w)))
  }

  ghost predicate Next(w: World, w': World) {
    Publish(w, w') || Unlink(w, w') || Replan(w, w') || List(w, w') || ReadFile(w, w') || ReadPacked(w, w')
  }

  ghost predicate Run(inp: Inputs, plan: CheckPlan, run: seq<World>) {
    && run != [] && run[0] == World(inp, plan, false, {}, Start)
    && forall i :: 0 <= i < |run| - 1 ==> Next(run[i], run[i + 1])
  }

  /* ---- what every fold hands on ---- */

  /** `occs` says about the decision `d` what `first` said: it has only files of `first`, every
      occurrence repeats one of `first`, lines that are not of `first` can be compared, and the
      winner is still there. */
  ghost predicate Derived(first: seq<Occurrence>, occs: seq<Occurrence>, d: string) {
    && (forall o :: o in occs && o.kind == File ==> o in first)
    && (forall o :: o in occs ==> exists p :: p in first && Repeats(p, o))
    && (forall o :: o in occs && o !in first ==> o.raw.Some? && !o.raw.value.hasNaN)
    && (Best(first, d).Some? ==> exists o :: o in occs && Repeats(Best(first, d).value, o))
  }

  lemma SoundMembers(inp: Inputs, s: seq<Occurrence>)
    requires inp.Valid() && forall o :: o in s ==> o in inp.occs
    ensures AllSound(s)
  {
    forall i | 0 <= i < |s| ensures s[i].Sound() { assert s[i] in s; assert s[i] in inp.occs; }
  }

  /** The winner of the first store is that of a derived one. */
  lemma {:induction false} SameWinner(first: seq<Occurrence>, occs: seq<Occurrence>, d: string)
    requires Derived(first, occs, d) && ConflictFree(occs) && Best(first, d).Some?
    ensures Best(occs, d).Some? && Repeats(Best(first, d).value, Best(occs, d).value)
  {
    var o :| o in occs && Repeats(Best(first, d).value, o);
    BestIsHighest(first, d);
    BestIsHighest(occs, d);
    var won := Best(occs, d).value;
    var p :| p in first && Repeats(p, won);
    assert won.key == o.key;
    ConflictFreePair(occs, o, won);
  }

  lemma {:induction false} WinnerCarried(first: seq<Occurrence>, inp: Inputs, files: seq<Occurrence>, d: string)
    requires inp.Valid() && inp.Unblocked() && Sees(inp, files) && Derived(first, inp.occs, d)
    requires !inp.TerminalClean(d) && Best(first, d).Some?
    ensures exists o :: o in files + ImageLines(inp) && Repeats(Best(first, d).value, o)
  {
    SameWinner(first, inp.occs, d);
    WinnerSeen(inp, files, d);
    var o :| o in files + ImageLines(inp) && Repeats(Best(inp.occs, d).value, o);
    assert Repeats(Best(first, d).value, o);
  }

  lemma PublishedLine(first: seq<Occurrence>, inp: Inputs, l: Occurrence, d: string)
    requires inp.Valid() && Derived(first, inp.occs, d) && l in ImageLines(inp)
    ensures (exists p :: p in first && Repeats(p, l)) && l.raw.Some? && !l.raw.value.hasNaN
  {
    ImageLinesFacts(inp);
    var c :| LiveSource(inp, c, l.raw.value);
    assert l.Sound() && Repeats(c, l);
    CandidateIsSendable(inp, c);
    var p :| p in first && Repeats(p, c);
    assert Repeats(p, l);
  }

  /** However far a fold has come, the store is derived from the first one. */
  lemma CurrentDerived(first: seq<Occurrence>, w: World, d: string)
    requires Fold(w.inp, w.plan) && w.unlinked <= w.plan.packed + w.plan.dropped && (w.unlinked != {} ==> w.published)
    requires Derived(first, w.inp.occs, d) && !w.inp.TerminalClean(d)
    ensures Derived(first, Current(w), d)
  {
    FilesOfWho(w.inp.occs, w.unlinked);
    if w.published {
      forall l | l in ImageLines(w.inp)
        ensures (exists p :: p in first && Repeats(p, l)) && l.raw.Some? && !l.raw.value.hasNaN
      {
        PublishedLine(first, w.inp, l, d);
      }
      InterruptedSees(w.inp, w.plan, w.unlinked);
      if Best(first, d).Some? { WinnerCarried(first, w.inp, FilesOf(w.inp.occs, w.unlinked), d); }
    } else {
      assert w.unlinked == {};
      assert Current(w) == w.inp.occs;
    }
  }

  lemma BackConflictFree(files: seq<Occurrence>, lines: seq<Occurrence>)
    requires ConflictFree(files + lines)
    ensures ConflictFree(lines)
  {
    var all := files + lines;
    forall i, j | 0 <= i < j < |lines| && lines[i].key.Some? && lines[i].key == lines[j].key
      ensures SameBody(lines[i], lines[j])
    {
      assert all[|files| + i] == lines[i] && all[|files| + j] == lines[j];
    }
  }

  lemma ImageConflictFree(inp: Inputs)
    requires inp.Valid()
    ensures ConflictFree(ImageLines(inp))
  {
    ImageLinesFacts(inp);
  }

  lemma FormedSound(fmt: Format, lines: seq<Occurrence>)
    requires AllFormed(fmt, lines)
    ensures AllSound(lines)
  {
    forall i | 0 <= i < |lines| ensures lines[i].Sound() { assert lines[i] in lines; }
  }

  /** The packed file never holds two lines that conflict. */
  lemma PackedConflictFree(w: World)
    requires Fold(w.inp, w.plan)
    ensures ConflictFree(PackedNow(w)) && AllSound(PackedNow(w)) && forall l :: l in PackedNow(w) ==> l.kind == Line
  {
    FormedSound(w.inp.fmt, PackedNow(w));
    if w.published {
      ImageConflictFree(w.inp);
    } else {
      BackConflictFree(FilesOf(w.inp.occs, {}), PackedNow(w));
    }
  }

  /* ---- the invariant ---- */

  ghost predicate Tracks(first: seq<Occurrence>, w: World, todo: seq<string>, got: seq<Occurrence>) {
    && Distinct(todo) && Distinct(got)
    && (forall o :: o in got ==> o in first && o.kind == File && o.path !in todo)
    && forall f :: f in w.inp.occs && f.kind == File ==> f in got || f.path in todo || f.path in w.unlinked
  }

  ghost predicate Invariant(first: seq<Occurrence>, d: string, w: World) {
    && Fold(w.inp, w.plan) && Derived(first, w.inp.occs, d)
    && w.unlinked <= w.plan.packed + w.plan.dropped
    && (w.unlinked != {} ==> w.published)
    && (w.reader.Reading? ==> Tracks(first, w, w.reader.todo, w.reader.got))
    && (w.reader.Done? ==> SameChoice(first, w.reader.seen, d))
  }

  lemma ListKeeps(first: seq<Occurrence>, d: string, w: World, w': World)
    requires Invariant(first, d, w) && List(w, w')
    ensures Invariant(first, d, w')
  {
    forall f | f in w.inp.occs && f.kind == File ensures f.path in w'.reader.todo || f.path in w'.unlinked {
      assert FileAt(w.inp, f.path, f);
      assert f.path !in w.unlinked ==> OnDisk(w, f.path);
    }
  }

  lemma ReadFileKeeps(first: seq<Occurrence>, d: string, w: World, w': World)
    requires Invariant(first, d, w) && ReadFile(w, w')
    ensures Invariant(first, d, w')
  {
    var todo, got := w.reader.todo, w.reader.got;
    var path, rest := todo[0], todo[1..];
    var todo', got' := w'.reader.todo, w'.reader.got;
    assert forall p :: p in todo <==> p == path || p in rest;
    assert path !in rest;
    if OnDisk(w, path) {
      var o :| FileAt(w.inp, path, o) && w' == w.(reader := Reading(rest, got + [o]));
      assert o !in got;
      forall f | f in w.inp.occs && f.kind == File ensures f in got' || f.path in rest || f.path in w.unlinked {
        assert f.path == path ==> f == o;
      }
    } else {
      forall f | f in w.inp.occs && f.kind == File ensures f in got || f.path in rest || f.path in w.unlinked {
        assert FileAt(w.inp, f.path, f);
      }
    }
  }

  lemma ReplanKeeps(first: seq<Occurrence>, d: string, w: World, w': World)
    requires Invariant(first, d, w) && Replan(w, w') && !w.inp.TerminalClean(d)
    ensures Invariant(first, d, w')
  {
    CurrentDerived(first, w, d);
    if w.reader.Reading? {
      PackedConflictFree(w);
      FilesOfWho(w.inp.occs, w.unlinked);
      forall f | f in w'.inp.occs && f.kind == File ensures f in w.reader.got || f.path in w.reader.todo {
        assert f in FilesOf(w.inp.occs, w.unlinked);
      }
    }
  }

  /* ---- what a reader ends up with ---- */

  /** A file the reader kept and a line read later. */
  lemma FileAndLine(first: seq<Occurrence>, f: Occurrence, l: Occurrence)
    requires ConflictFree(first) && f in first && f.kind == File && f.key.Some? && f.key == l.key && l.kind == Line
    requires (exists p :: p in first && Repeats(p, l)) && (l !in first ==> l.raw.Some? && !l.raw.value.hasNaN)
    ensures SameBody(f, l)
  {
    if l in first {
      TwoOccurrences(first, f, l);
    } else {
      var p :| p in first && Repeats(p, l);
      ConflictFreePair(first, f, p);
    }
  }

  lemma SeenIsConflictFree(first: seq<Occurrence>, got: seq<Occurrence>, lines: seq<Occurrence>)
    requires ConflictFree(first) && ConflictFree(lines) && Distinct(got)
    requires forall o :: o in got ==> o in first && o.kind == File
    requires forall l :: l in lines ==> l.kind == Line && exists p :: p in first && Repeats(p, l)
    requires forall l :: l in lines && l !in first ==> l.raw.Some? && !l.raw.value.hasNaN
    ensures ConflictFree(got + lines)
  {
    var seen := got + lines;
    forall i, j | 0 <= i < j < |seen| && seen[i].key.Some? && seen[i].key == seen[j].key
      ensures SameBody(seen[i], seen[j])
    {
      if i >= |got| {
        assert seen[i] == lines[i - |got|] && seen[j] == lines[j - |got|];
      } else if j < |got| {
        assert seen[i] in got && seen[j] in got;
        TwoOccurrences(first, seen[i], seen[j]);
      } else {
        assert seen[i] in got && seen[j] in lines;
        FileAndLine(first, seen[i], seen[j]);
      }
    }
  }

  /** Every file still there, other files of the first store, and the packed lines. */
  lemma SeenChoice(first: seq<Occurrence>, files: seq<Occurrence>, got: seq<Occurrence>, lines: seq<Occurrence>,
      d: string)
    requires AllSound(first) && ConflictFree(first) && AllSound(lines) && ConflictFree(lines) && Distinct(got)
    requires Derived(first, files + lines, d) && forall l :: l in lines ==> l.kind == Line
    requires (forall f :: f in files ==> f in got) && forall o :: o in got ==> o in first && o.kind == File
    ensures SameChoice(first, got + lines, d)
  {
    var seen, all := got + lines, files + lines;
    assert forall l :: l in lines ==> l in all;
    SeenIsConflictFree(first, got, lines);
    forall i | 0 <= i < |seen| ensures seen[i].Sound() {
      if i < |got| {
        assert seen[i] in got;
        var k :| 0 <= k < |first| && first[k] == seen[i];
      } else {
        assert seen[i] == lines[i - |got|];
      }
    }
    assert forall o :: Repeats(o, o);
    forall o | o in seen ensures exists p :: p in first && Repeats(p, o) {
      assert o in got || o in all;
    }
    if Best(first, d).Some? {
      var o :| o in all && Repeats(Best(first, d).value, o);
      assert o in seen;
    }
    AgreeOnBest(first, seen, d);
  }

  lemma ReadPackedKeeps(inp: Inputs, d: string, w: World, w': World)
    requires inp.Valid() && ConflictFree(inp.occs) && Invariant(inp.occs, d, w) && ReadPacked(w, w')
      && !w.inp.TerminalClean(d)
    ensures Invariant(inp.occs, d, w')
  {
    var files := FilesOf(w.inp.occs, w.unlinked);
    CurrentDerived(inp.occs, w, d);
    PackedConflictFree(w);
    FilesOfWho(w.inp.occs, w.unlinked);
    SoundMembers(inp, inp.occs);
    SeenChoice(inp.occs, files, w.reader.got, PackedNow(w), d);
  }

  lemma StepKeeps(inp: Inputs, d: string, w: World, w': World)
    requires inp.Valid() && ConflictFree(inp.occs) && Invariant(inp.occs, d, w) && Next(w, w')
      && !w.inp.TerminalClean(d)
    ensures Invariant(inp.occs, d, w')
  {
    if List(w, w') { ListKeeps(inp.occs, d, w, w'); }
    else if ReadFile(w, w') { ReadFileKeeps(inp.occs, d, w, w'); }
    else if ReadPacked(w, w') { ReadPackedKeeps(inp, d, w, w'); }
    else if Replan(w, w') { ReplanKeeps(inp.occs, d, w, w'); }
  }

  lemma DerivedFromItself(first: seq<Occurrence>, d: string)
    ensures Derived(first, first, d)
  {
    forall o | o in first ensures exists p :: p in first && Repeats(p, o) { assert Repeats(o, o); }
    if Best(first, d).Some? { assert Repeats(Best(first, d).value, Best(first, d).value); }
  }

  lemma StartKeeps(inp: Inputs, plan: CheckPlan, d: string)
    requires Fold(inp, plan)
    ensures Invariant(inp.occs, d, World(inp, plan, false, {}, Start))
  {
    DerivedFromItself(inp.occs, d);
  }

  lemma {:induction false} RunKeeps(inp: Inputs, plan: CheckPlan, run: seq<World>, n: nat, d: string)
    requires Fold(inp, plan) && Run(inp, plan, run) && n < |run|
    requires forall i :: 0 <= i < n ==> !run[i].inp.TerminalClean(d)
    ensures Invariant(inp.occs, d, run[n])
  {
    if n == 0 {
      StartKeeps(inp, plan, d);
    } else {
      RunKeeps(inp, plan, run, n - 1, d);
      assert Next(run[n - 1], run[n - 1 + 1]);
      StepKeeps(inp, d, run[n - 1], run[n]);
    }
  }

  /** MAIN RESULT.  In every interleaving of a reader with any number of folds, each planned
      over what the one before left, wherever each stops, a reader that finishes chooses as
      before the first fold for every decision that none of them found terminal-and-clean. */
  lemma ReaderNeverMisled(inp: Inputs, plan: CheckPlan, run: seq<World>, n: nat, d: string)
    requires Fold(inp, plan) && Run(inp, plan, run) && n < |run| && run[n].reader.Done?
    requires forall i :: 0 <= i < n ==> !run[i].inp.TerminalClean(d)
    ensures SameChoice(inp.occs, run[n].reader.seen, d)
  {
    RunKeeps(inp, plan, run, n, d);
  }

  /* ---- recovering an interrupted fold ---- */

  /** The planner's arguments over the store a publisher left behind when it stopped
      after publishing and unlinking `gone`. */
  ghost predicate Interrupted(inp: Inputs, plan: CheckPlan, gone: set<string>, next: Inputs) {
    && gone <= plan.packed + plan.dropped
    && next.Valid() && next.fmt == inp.fmt && next.dirty.Some? && next.problem.None?
    && next.occs == FilesOf(inp.occs, gone) + ImageLines(inp)
  }

  lemma LineIsGood(inp: Inputs, l: Occurrence)
    requires inp.Valid() && l in ImageLines(inp)
    ensures inp.GoodLine(l)
  {
    ImageLinesFacts(inp);
    var i :| 0 <= i < |ImageLines(inp)| && ImageLines(inp)[i] == l;
  }

  lemma {:induction false} InterruptedSees(inp: Inputs, plan: CheckPlan, gone: set<string>)
    requires Fold(inp, plan) && gone <= plan.packed + plan.dropped
    ensures Sees(inp, FilesOf(inp.occs, gone))
  {
    FilesOfMembers(inp.occs, gone);
  }

  lemma InterruptedUnblocked(inp: Inputs, plan: CheckPlan, gone: set<string>, next: Inputs)
    requires Fold(inp, plan) && Interrupted(inp, plan, gone, next)
    ensures next.Unblocked()
  {
    InterruptedSees(inp, plan, gone);
    SeenConflictFree(inp, FilesOf(inp.occs, gone));
    FilesOfMembers(inp.occs, gone);
    forall o | o in next.occs ensures !next.Blocking(o) {
      if o.kind == Line { LineIsGood(inp, o); }
    }
  }

  /** An interrupted fold can always be planned again, whatever is dirty or terminal by
      then, and carrying that out keeps the choice of the original store. */
  lemma InterruptedFoldRecovers(inp: Inputs, plan: CheckPlan, gone: set<string>, next: Inputs, again: CheckPlan,
      d: string)
    requires Fold(inp, plan) && Interrupted(inp, plan, gone, next)
    requires !inp.TerminalClean(d) && !next.TerminalClean(d)
    ensures next.Unblocked()
    ensures Plans(next, again) ==> SameChoice(inp.occs, After(next, again), d)
  {
    InterruptedUnblocked(inp, plan, gone, next);
    InterruptedSees(inp, plan, gone);
    FoldPreservesChoice(inp, FilesOf(inp.occs, gone), d);
    if Plans(next, again) {
      FoldPreservesMeaning(next, again, d);
      SameChoiceTransitive(inp.occs, next.occs, After(next, again), d);
    }
  }
}
