/** Planning again over a folded store. */
module CheckFixpoint {
  import opened Wrappers
  import opened CheckStore
  import opened CheckFold
  import CheckFormat

  /** `next` are the planner's arguments once `plan` was carried out: the surviving files
      and the image's lines, the same decisions, and the same dirty set except perhaps for
      what the fold itself touched: the shard, and the unlinked files, which Git lists as
      deleted until the deletion is committed. */
  ghost predicate Refolds(inp: Inputs, plan: CheckPlan, next: Inputs) {
    && next.fmt == inp.fmt && next.storeRel == inp.storeRel && next.decisions == inp.decisions
    && next.dirty.Some? && next.problem.None? && next.packed == Some(plan.image)
    && next.occs == FilesOf(inp.occs, plan.packed + plan.dropped) + ImageLines(inp)
    && forall p :: p != PACKED_PATH && p !in plan.packed + plan.dropped ==> next.IsDirty(p) == inp.IsDirty(p)
  }

  /** The arguments of a carried-out fold and the planner's next arguments. */
  ghost predicate Folded(inp: Inputs, plan: CheckPlan, next: Inputs) {
    inp.Valid() && inp.Unblocked() && Plans(inp, plan) && Refolds(inp, plan, next)
  }

  lemma SomeMember<T>(s: seq<T>)
    requires s != []
    ensures exists x :: x in s
  {
    assert s[0] in s;
  }

  lemma NextMembers(inp: Inputs, plan: CheckPlan, next: Inputs)
    requires Folded(inp, plan, next)
    ensures forall o :: o in next.occs && o.kind == File ==>
      o in inp.occs && o in FilesOf(inp.occs, plan.packed + plan.dropped)
    ensures forall o :: o in next.occs && o.kind == Line ==> o in ImageLines(inp)
  {
    FilesOfMembers(inp.occs, plan.packed + plan.dropped);
  }

  lemma FilesFirst(files: seq<Occurrence>, lines: seq<Occurrence>)
    requires forall l :: l in lines ==> l.kind == Line
    requires forall i, j :: 0 <= i < j < |files| ==> files[i] != files[j]
    ensures var all := files + lines;
      forall i, j :: 0 <= i < j < |all| && all[i].kind == File && all[j].kind == File ==> all[i] != all[j]
  {
    var all := files + lines;
    assert forall k :: |files| <= k < |all| ==> all[k] == lines[k - |files|] && all[k] in lines;
  }

  lemma RefoldValid(inp: Inputs, plan: CheckPlan, next: Inputs)
    requires Folded(inp, plan, next)
    ensures next.Valid() && ConflictFree(next.occs)
  {
    NextMembers(inp, plan, next);
    SurvivorsSeen(inp, plan);
    SeenConflictFree(inp, FilesOf(inp.occs, plan.packed + plan.dropped));
    forall o | o in next.occs ensures o.Formed(next.fmt) { assert o.kind == File || o.kind == Line; }
    FilesOfMembers(inp.occs, plan.packed + plan.dropped);
    FilesFirst(FilesOf(inp.occs, plan.packed + plan.dropped), ImageLines(inp));
  }

  /** What the planner's next arguments look like: no eligible file, and as lines
      exactly `lines`, all good, of distinct keys and of no terminal-and-clean decision. */
  ghost predicate Settled(next: Inputs, lines: seq<Occurrence>) {
    && (forall o :: o in next.occs && o.kind == File ==> !next.Eligible(o))
    && (forall o :: o in next.occs && o.kind == Line ==> o in lines)
    && (forall l :: l in lines ==>
          && l in next.occs && l.kind == Line && next.GoodLine(l)
          && l.decision.Some? && !next.TerminalClean(l.decision.value))
    && (forall a, b :: a in lines && b in lines && a.key == b.key ==> a == b)
  }

  lemma SurvivorIneligible(inp: Inputs, packed: set<string>, dropped: set<string>, f: Occurrence)
    requires (forall path :: path in packed <==> Packs(inp, path))
      && (forall path :: path in dropped <==> Drops(inp, path))
    requires f in inp.occs && f.path !in packed + dropped
    ensures !inp.Eligible(f)
  {
    if inp.Dead(f) {
      assert inp.Eligible(f) ==> Drops(inp, f.path);
    } else {
      assert inp.Eligible(f) ==> Packs(inp, f.path);
    }
  }

  lemma SameReason(inp: Inputs, next: Inputs, f: Occurrence)
    requires next.fmt == inp.fmt && next.decisions == inp.decisions && next.IsDirty(f.path) == inp.IsDirty(f.path)
    ensures next.Eligible(f) == inp.Eligible(f)
  {
  }

  lemma SurvivorStays(inp: Inputs, plan: CheckPlan, next: Inputs, f: Occurrence)
    requires Folded(inp, plan, next) && f in FilesOf(inp.occs, plan.packed + plan.dropped)
    ensures f.kind == File && !next.Eligible(f)
  {
    FilesOfMembers(inp.occs, plan.packed + plan.dropped);
    SurvivorIneligible(inp, plan.packed, plan.dropped, f);
    SameReason(inp, next, f);
  }

  lemma LineStays(inp: Inputs, plan: CheckPlan, next: Inputs, l: Occurrence)
    requires Folded(inp, plan, next) && l in ImageLines(inp)
    ensures l.kind == Line && next.GoodLine(l) && l.decision.Some? && !next.TerminalClean(l.decision.value)
    ensures l.raw.Some? && exists c :: LiveSource(inp, c, l.raw.value)
  {
    ImageLinesFacts(inp);
    var c :| LiveSource(inp, c, l.raw.value);
    assert l.Sound() && !inp.Dead(c);
    var d := l.decision.value;
    forall p | p in plan.packed + plan.dropped ensures !inp.IsDirty(p) {
      assert Packs(inp, p) || Drops(inp, p);
    }
    assert next.TerminalClean(d) ==> inp.TerminalClean(d);
  }

  lemma LineKeys(inp: Inputs, a: Occurrence, b: Occurrence)
    requires inp.Valid() && a in ImageLines(inp) && b in ImageLines(inp) && a.key == b.key
    ensures a == b
  {
    ImageLinesFacts(inp);
    var lines := ImageLines(inp);
    var i :| 0 <= i < |lines| && lines[i] == a;
    var j :| 0 <= j < |lines| && lines[j] == b;
    assert i == j;
  }

  lemma RefoldSettled(inp: Inputs, plan: CheckPlan, next: Inputs)
    requires Folded(inp, plan, next)
    ensures Settled(next, ImageLines(inp))
  {
    var files, lines := FilesOf(inp.occs, plan.packed + plan.dropped), ImageLines(inp);
    forall o | o in next.occs ensures o.kind == File ==> !next.Eligible(o) ensures o.kind == Line ==> o in lines {
      if o in files { SurvivorStays(inp, plan, next, o); } else { assert o in lines; }
    }
    forall l | l in lines
      ensures l in next.occs && l.kind == Line && next.GoodLine(l) && l.decision.Some?
        && !next.TerminalClean(l.decision.value)
    {
      LineStays(inp, plan, next, l);
    }
    forall a, b | a in lines && b in lines && a.key == b.key ensures a == b { LineKeys(inp, a, b); }
  }

  lemma {:induction false} SettledCandidates(next: Inputs, lines: seq<Occurrence>)
    requires Settled(next, lines)
    ensures next.EligibleOf(next.occs) == []
    ensures forall o :: o in next.Candidates() <==> o in lines
    ensures forall o :: o in next.occs ==> !next.Blocking(o)
  {
    CandidateMembers(next, next.occs);
    var e := next.EligibleOf(next.occs);
    if e != [] { SomeMember(e); }
  }

  lemma SettledWork(next: Inputs, lines: seq<Occurrence>, again: CheckPlan)
    requires Settled(next, lines) && Plans(next, again)
    ensures again.HasWork() <==> exists l :: l in lines && next.Dead(l)
  {
    assert again.packed == {} && again.dropped == {};
    if l :| l in lines && next.Dead(l) {
      assert DropsLine(next, l.key.value);
    }
    if again.droppedLines != {} {
      var k :| k in again.droppedLines;
      assert DropsLine(next, k);
    }
  }

  lemma {:induction false} SettledBodies(next: Inputs, lines: seq<Occurrence>)
    requires Settled(next, lines) && forall l :: l in lines ==> !next.Dead(l)
    ensures Spells(lines, FirstBodies(next, next.Candidates()))
  {
    var bodies := FirstBodies(next, next.Candidates());
    SettledCandidates(next, lines);
    FirstBodiesMembers(next, next.Candidates());
    forall k | k in bodies ensures exists l :: l in lines && l.key == Some(k) && l.raw == Some(bodies[k]) {
      var o :| o in next.Candidates() && !next.Dead(o) && o.key == Some(k) && o.raw == Some(bodies[k]);
    }
  }

  lemma {:induction false} BodyHasLine(inp: Inputs, k: Key)
    requires inp.Valid() && k in FirstBodies(inp, inp.Candidates())
    ensures exists l :: l in ImageLines(inp) && l.key == Some(k) && l.raw == Some(FirstBodies(inp, inp.Candidates())[k])
  {
    var body := FirstBodies(inp, inp.Candidates())[k];
    LiveBodies(inp);
    SortedBodiesSorted(FirstBodies(inp, inp.Candidates()));
    ImageLinesFacts(inp);
    var i :| 0 <= i < |Image(inp)| && Image(inp)[i] == body;
    assert ImageLines(inp)[i] in ImageLines(inp);
  }

  lemma {:induction false} LineHasBody(inp: Inputs, l: Occurrence)
    requires inp.Valid() && l in ImageLines(inp)
    ensures var bodies := FirstBodies(inp, inp.Candidates());
      l.key.Some? && l.key.value in bodies && l.raw == Some(bodies[l.key.value])
  {
    LiveBodies(inp);
    SortedBodiesSorted(FirstBodies(inp, inp.Candidates()));
    ImageLinesFacts(inp);
    var i :| 0 <= i < |ImageLines(inp)| && ImageLines(inp)[i] == l;
    assert Image(inp)[i] in Image(inp);
  }

  /** `bodies` is what the lines say, key by key. */
  ghost predicate Spells(lines: seq<Occurrence>, bodies: map<Key, Body>) {
    && (forall k :: k in bodies ==> exists l :: l in lines && l.key == Some(k) && l.raw == Some(bodies[k]))
    && (forall l :: l in lines ==> l.key.Some? && l.key.value in bodies && l.raw == Some(bodies[l.key.value]))
  }

  lemma SpellsOnce(lines: seq<Occurrence>, a: map<Key, Body>, b: map<Key, Body>)
    requires Spells(lines, a) && Spells(lines, b)
    ensures a == b
  {
    assert a.Keys == b.Keys;
  }

  lemma {:induction false} ImageSpelled(inp: Inputs)
    requires inp.Valid()
    ensures Spells(ImageLines(inp), FirstBodies(inp, inp.Candidates()))
  {
    var bodies, lines := FirstBodies(inp, inp.Candidates()), ImageLines(inp);
    forall k | k in bodies
      ensures exists l :: l in lines && l.key == Some(k) && l.raw == Some(bodies[k])
    {
      BodyHasLine(inp, k);
    }
    forall l | l in lines
      ensures l.key.Some? && l.key.value in bodies && l.raw == Some(bodies[l.key.value])
    {
      LineHasBody(inp, l);
    }
  }

  /** Without dead lines, planning again renders the same bytes. */
  lemma RefoldImage(inp: Inputs, next: Inputs)
    requires inp.Valid() && next.fmt == inp.fmt && Settled(next, ImageLines(inp))
    requires forall l :: l in ImageLines(inp) ==> !next.Dead(l)
    ensures ImageBytes(next) == ImageBytes(inp)
  {
    SettledBodies(next, ImageLines(inp));
    ImageSpelled(inp);
    SpellsOnce(ImageLines(inp), FirstBodies(inp, inp.Candidates()), FirstBodies(next, next.Candidates()));
  }

  lemma UncommittedNothingDead(next: Inputs, lines: seq<Occurrence>)
    requires Settled(next, lines) && next.IsDirty(PACKED_PATH)
    ensures forall l :: l in lines ==> !next.Dead(l)
  {
    SettledCandidates(next, lines);
  }

  /** While the shard is uncommitted, planning again has no work and the same image. */
  lemma RefoldUncommitted(inp: Inputs, plan: CheckPlan, next: Inputs, again: CheckPlan)
    requires Folded(inp, plan, next) && next.IsDirty(PACKED_PATH)
    ensures next.Valid() && next.Unblocked()
    ensures Plans(next, again) ==> !again.HasWork() && again.image == plan.image
  {
    RefoldValid(inp, plan, next);
    RefoldSettled(inp, plan, next);
    SettledCandidates(next, ImageLines(inp));
    UncommittedNothingDead(next, ImageLines(inp));
    if Plans(next, again) {
      RefoldImage(inp, next);
      SettledWork(next, ImageLines(inp), again);
    }
  }

  ghost predicate TwoOfOneDecision(lines: seq<Occurrence>) {
    exists a, b :: a in lines && b in lines && a != b && a.decision == b.decision
  }

  lemma DeadLineHasRival(next: Inputs, lines: seq<Occurrence>, l: Occurrence)
    requires Settled(next, lines) && l in lines && next.Dead(l)
    ensures TwoOfOneDecision(lines)
  {
    SettledCandidates(next, lines);
    TopIsHighest(next.Superseders(), l.decision.value);
    var o :| o in next.Superseders() && o.key == Some(next.Top(l.decision.value)) && o.decision == l.decision;
    assert o in next.Candidates();
  }

  lemma {:induction false} RivalHighest(next: Inputs, above: seq<Occurrence>, a: Occurrence, b: Occurrence)
    requires a in above && b in above && a.decision.Some? && a.decision == b.decision
    requires a.key.Some? && b.key.Some? && a.key != b.key
    ensures TopKey(above, a.decision.value) > a.key.value || TopKey(above, b.decision.value) > b.key.value
  {
    TopIsHighest(above, a.decision.value);
  }

  lemma RivalIsDead(next: Inputs, lines: seq<Occurrence>, a: Occurrence, b: Occurrence)
    requires Settled(next, lines) && !next.IsDirty(PACKED_PATH)
    requires a in lines && b in lines && a != b && a.decision == b.decision
    ensures next.Dead(a) || next.Dead(b)
  {
    SettledCandidates(next, lines);
    RivalHighest(next, next.Superseders(), a, b);
  }

  lemma CommittedDeadLines(next: Inputs, lines: seq<Occurrence>)
    requires Settled(next, lines) && !next.IsDirty(PACKED_PATH)
    ensures (exists l :: l in lines && next.Dead(l)) <==> TwoOfOneDecision(lines)
  {
    if l :| l in lines && next.Dead(l) { DeadLineHasRival(next, lines, l); }
    if a, b :| a in lines && b in lines && a != b && a.decision == b.decision { RivalIsDead(next, lines, a, b); }
  }

  lemma LineSource(inp: Inputs, l: Occurrence) returns (c: Occurrence)
    requires inp.Valid() && l in ImageLines(inp)
    ensures Candidate(inp, c) && !inp.Dead(c) && c.key == l.key && c.decision == l.decision && l.key.Some?
      && l.decision.Some?
  {
    ImageLinesFacts(inp);
    c :| LiveSource(inp, c, l.raw.value);
    assert l.Sound();
  }

  lemma LiveCandidatesAgree(inp: Inputs, c: Occurrence, d: Occurrence)
    requires !inp.IsDirty(PACKED_PATH) && Candidate(inp, c) && Candidate(inp, d) && !inp.Dead(c) && !inp.Dead(d)
    requires c.key.Some? && c.decision.Some? && d.key.Some? && c.decision == d.decision
    ensures c.key == d.key
  {
    CandidateMembers(inp, inp.occs);
    assert c in inp.Superseders() && d in inp.Superseders();
    TopIsHighest(inp.Superseders(), c.decision.value);
  }

  /** A plan made on a committed shard never leaves two lines of one decision. */
  lemma CommittedShardOneLine(inp: Inputs)
    requires inp.Valid() && !inp.IsDirty(PACKED_PATH)
    ensures !TwoOfOneDecision(ImageLines(inp))
  {
    forall a, b | a in ImageLines(inp) && b in ImageLines(inp) && a.decision == b.decision ensures a == b {
      var ca := LineSource(inp, a);
      var cb := LineSource(inp, b);
      LiveCandidatesAgree(inp, ca, cb);
      LineKeys(inp, a, b);
    }
  }

  /** Two good checks of one decision of which neither is dead: the lines of an uncommitted
      shard supersede nothing, so only an eligible file above the older one would drop it. */
  predicate LivePair(inp: Inputs, c: Occurrence, l: Occurrence) {
    && Candidate(inp, c) && Candidate(inp, l) && c.decision == l.decision
    && c.key.Some? && l.key.Some? && c.key.value < l.key.value
    && c.decision.Some? && !inp.TerminalClean(c.decision.value)
    && forall f :: f in inp.occs && inp.Eligible(f) && f.decision == c.decision ==>
      f.key.Some? && f.key.value <= c.key.value
  }

  /** What a caller can see before the first plan: the shard is uncommitted and such a pair is there. */
  predicate LeavesTwo(inp: Inputs) {
    inp.IsDirty(PACKED_PATH) && exists c, l :: c in inp.occs && l in inp.occs && LivePair(inp, c, l)
  }

  lemma EligibleTop(inp: Inputs, d: string)
    requires inp.IsDirty(PACKED_PATH)
    ensures forall f :: f in inp.occs && inp.Eligible(f) && f.key.Some? && f.decision == Some(d) ==>
      f.key.value <= inp.Top(d)
    ensures inp.Top(d) >= 0 ==>
      exists f :: f in inp.occs && inp.Eligible(f) && f.key == Some(inp.Top(d)) && f.decision == Some(d)
  {
    CandidateMembers(inp, inp.occs);
    TopIsHighest(inp.Superseders(), d);
  }

  lemma LivePairLives(inp: Inputs, c: Occurrence, l: Occurrence)
    requires inp.Valid() && inp.IsDirty(PACKED_PATH) && LivePair(inp, c, l)
    ensures !inp.Dead(c) && !inp.Dead(l)
  {
    EligibleTop(inp, c.decision.value);
  }

  /** The line of a live candidate. */
  lemma CandidateLine(inp: Inputs, c: Occurrence) returns (l: Occurrence)
    requires inp.Valid() && ConflictFree(inp.occs) && Candidate(inp, c) && !inp.Dead(c)
    ensures l in ImageLines(inp) && l.key == c.key && l.decision == c.decision
  {
    LiveCandidateInImage(inp, c);
    CandidateIsSendable(inp, c);
    ImageLinesFacts(inp);
    var i :| 0 <= i < |Image(inp)| && Image(inp)[i] == c.raw.value;
    l := ImageLines(inp)[i];
  }

  lemma LivesArePair(inp: Inputs, c: Occurrence, l: Occurrence)
    requires inp.Valid() && inp.IsDirty(PACKED_PATH) && Candidate(inp, c) && Candidate(inp, l) && !inp.Dead(c)
    requires c.decision == l.decision && c.decision.Some?
    requires c.key.Some? && l.key.Some? && c.key.value < l.key.value
    ensures LivePair(inp, c, l)
  {
    EligibleTop(inp, c.decision.value);
  }

  lemma LinesGivePair(inp: Inputs, a: Occurrence, b: Occurrence)
    requires inp.Valid() && inp.IsDirty(PACKED_PATH)
    requires a in ImageLines(inp) && b in ImageLines(inp) && a != b && a.decision == b.decision
    ensures LeavesTwo(inp)
  {
    if a.key == b.key { LineKeys(inp, a, b); }
    var c := LineSource(inp, a);
    var l := LineSource(inp, b);
    if c.key.value < l.key.value { LivesArePair(inp, c, l); } else { LivesArePair(inp, l, c); }
  }

  /** The image holds two lines of one decision exactly when the planner's arguments say so. */
  lemma TwoLinesExactly(inp: Inputs)
    requires inp.Valid() && ConflictFree(inp.occs)
    ensures TwoOfOneDecision(ImageLines(inp)) <==> LeavesTwo(inp)
  {
    if TwoOfOneDecision(ImageLines(inp)) {
      var a, b :| a in ImageLines(inp) && b in ImageLines(inp) && a != b && a.decision == b.decision;
      if !inp.IsDirty(PACKED_PATH) { CommittedShardOneLine(inp); }
      LinesGivePair(inp, a, b);
    }
    if LeavesTwo(inp) {
      var c, l :| c in inp.occs && l in inp.occs && LivePair(inp, c, l);
      LivePairLives(inp, c, l);
      var a := CandidateLine(inp, c);
      var b := CandidateLine(inp, l);
      assert a != b;
    }
  }

  /** Once the folded shard is committed, planning again has work exactly when the first plan
      was made over an uncommitted shard with two live checks of one decision. */
  lemma RefoldCommitted(inp: Inputs, plan: CheckPlan, next: Inputs, again: CheckPlan)
    requires Folded(inp, plan, next) && !next.IsDirty(PACKED_PATH) && Plans(next, again)
    ensures again.HasWork() <==> LeavesTwo(inp)
  {
    RefoldSettled(inp, plan, next);
    SettledWork(next, ImageLines(inp), again);
    CommittedDeadLines(next, ImageLines(inp));
    TwoLinesExactly(inp);
  }

  /** If the first plan ran on a committed shard, planning again after the folded shard
      is committed has no work either. */
  lemma RefoldCommittedFixpoint(inp: Inputs, plan: CheckPlan, next: Inputs, again: CheckPlan)
    requires Folded(inp, plan, next) && !inp.IsDirty(PACKED_PATH) && !next.IsDirty(PACKED_PATH)
    ensures next.Valid() && next.Unblocked()
    ensures Plans(next, again) ==> !again.HasWork()
  {
    RefoldValid(inp, plan, next);
    RefoldSettled(inp, plan, next);
    SettledCandidates(next, ImageLines(inp));
    CommittedShardOneLine(inp);
    if Plans(next, again) { RefoldCommitted(inp, plan, next, again); }
  }

  /* ---- a shard that needs a second fold ---- */

  const OLDER := Body(Some(1), Some("decision"), true, true, false, "")
  const NEWER := Body(Some(2), Some("decision"), true, true, false, "")
  const CLOSED := Body(Some(3), Some("closed"), true, true, false, "")

  /** An uncommitted shard of three good lines: two of one decision, one of a terminal one. */
  function DirtyShard(fmt: Format): Inputs
    requires Lawful(fmt)
  {
    var packed := Some(Render(fmt, [OLDER, NEWER, CLOSED]));
    Inputs(fmt, PackedOccurrences(fmt, packed), Some({PACKED_PATH}), "", map["closed" := DecisionState(true, [])],
      packed, None, {})
  }

  lemma DirtyShardLines(fmt: Format)
    requires Lawful(fmt)
    ensures var occs := DirtyShard(fmt).occs;
      && |occs| == 3 && (forall o :: o in occs ==> o.kind == Line && o.Formed(fmt))
      && occs[0].raw == Some(OLDER) && occs[1].raw == Some(NEWER) && occs[2].raw == Some(CLOSED)
  {
    var bodies := [OLDER, NEWER, CLOSED];
    RenderReadsBack(fmt, bodies, 1);
  }

  lemma DirtyShardUnblocked(fmt: Format)
    requires Lawful(fmt)
    ensures var inp := DirtyShard(fmt);
      && inp.Valid() && inp.Unblocked() && LeavesTwo(inp) && DropsLine(inp, 3)
      && forall o :: o in inp.occs ==> o.kind == Line
  {
    var inp := DirtyShard(fmt);
    DirtyShardLines(fmt);
    var a, b, c := inp.occs[0], inp.occs[1], inp.occs[2];
    assert inp.occs == [a, b, c];
    assert a in inp.occs && b in inp.occs && c in inp.occs;
    PackableMeans(fmt, OLDER);
    PackableMeans(fmt, NEWER);
    PackableMeans(fmt, CLOSED);
    assert inp.GoodLine(a) && inp.GoodLine(b) && inp.GoodLine(c);
    assert LivePair(inp, a, b);
    assert inp.Dead(c);
  }

  /** The plan over a store without check files. */
  lemma FilelessPlan(inp: Inputs) returns (plan: CheckPlan)
    requires inp.Valid() && inp.skipped == {} && forall o :: o in inp.occs ==> o.kind == Line
    ensures Plans(inp, plan) && plan.packed == plan.dropped == {}
  {
    var keys := set o | o in inp.occs && inp.Dead(o) && o.key.Some? :: o.key.value;
    plan := CheckPlan(inp.packed, ImageBytes(inp), {}, {}, keys, {}, None, map[]);
    assert KeptFiles(inp) == {};
    forall k ensures k in keys <==> DropsLine(inp, k) {
    }
  }

  /** The planner's arguments once a fold that unlinks nothing was carried out and committed. */
  function Committed(inp: Inputs, plan: CheckPlan): Inputs {
    inp.(occs := FilesOf(inp.occs, {}) + ImageLines(inp), dirty := Some({}), packed := Some(plan.image))
  }

  lemma CommittedFolds(inp: Inputs, plan: CheckPlan)
    requires inp.Valid() && inp.Unblocked() && Plans(inp, plan) && plan.packed == plan.dropped == {}
    requires inp.dirty == Some({PACKED_PATH}) && inp.storeRel == "" && inp.skipped == {}
    requires forall o :: o in inp.occs ==> o.kind == Line
    ensures Folded(inp, plan, Committed(inp, plan))
    ensures forall o :: o in Committed(inp, plan).occs ==> o.kind == Line
  {
    var next := Committed(inp, plan);
    FilesOfWho(inp.occs, {});
    assert plan.packed + plan.dropped == {};
    forall p | p != PACKED_PATH ensures next.IsDirty(p) == inp.IsDirty(p) {
      assert p !in {PACKED_PATH};
    }
    assert Refolds(inp, plan, next);
  }

  /** Folding that shard, committing the result and planning again finds work. */
  lemma DirtyShardFoldsTwice(fmt: Format) returns (plan: CheckPlan, again: CheckPlan)
    requires Lawful(fmt)
    ensures Folded(DirtyShard(fmt), plan, Committed(DirtyShard(fmt), plan)) && plan.HasWork()
    ensures !Committed(DirtyShard(fmt), plan).IsDirty(PACKED_PATH)
    ensures Plans(Committed(DirtyShard(fmt), plan), again) && again.HasWork()
  {
    DirtyShardUnblocked(fmt);
    plan := FilelessPlan(DirtyShard(fmt));
    CommittedFolds(DirtyShard(fmt), plan);
    var next := Committed(DirtyShard(fmt), plan);
    RefoldValid(DirtyShard(fmt), plan, next);
    again := FilelessPlan(next);
    RefoldCommitted(DirtyShard(fmt), plan, next, again);
  }

  /** Such a store exists. */
  lemma SomeShardFoldsTwice() returns (inp: Inputs, plan: CheckPlan, next: Inputs, again: CheckPlan)
    ensures Folded(inp, plan, next) && plan.HasWork() && !next.IsDirty(PACKED_PATH)
    ensures Plans(next, again) && again.HasWork()
  {
    CheckFormat.PlainIsLawful();
    inp := DirtyShard(CheckFormat.Plain());
    plan, again := DirtyShardFoldsTwice(CheckFormat.Plain());
    next := Committed(inp, plan);
  }
}
