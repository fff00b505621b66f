/**
  The drift-check fold planner: which check files pack into the shard, which are
  dropped as dead, which stay, and the exact image to publish.

  Python's sorted lists of distinct paths or keys are sets here; the image keeps
  its order, because readers parse its bytes.
 */
module CheckFold {
  import opened Wrappers
  import opened CheckStore

  datatype DecisionState = DecisionState(terminal: bool, paths: seq<string>)

  datatype Reason =
    | OutsideGit | NotAFile | Dirty | Unselectable | Invalid | IdDiffers | NotPackable | DecisionMissing

  datatype Blocked = PackedProblem(problem: string) | ConflictingChecks(keys: set<Key>)
    | DamagedLine(path: string, lineNo: nat)

  datatype CheckPlan = CheckPlan(
    current: Option<Bytes>, image: Bytes, packed: set<string>, dropped: set<string>,
    droppedLines: set<Key>, kept: set<(string, Reason)>, blocked: Option<Blocked>, read: map<string, Bytes>)
  {
    predicate HasWork() {
      blocked.None? && (packed != {} || dropped != {} || droppedLines != {})
    }
  }

  /** The arguments of `plan_check_fold`, with the format the bytes are written in. */
  datatype Inputs = Inputs(
    fmt: Format, occs: seq<Occurrence>, dirty: Option<set<string>>, storeRel: string,
    decisions: map<string, DecisionState>, packed: Option<Bytes>, problem: Option<string>, skipped: set<string>)
  {
    predicate IsDirty(path: string) {
      dirty.Some? && (if storeRel != "" then storeRel + "/" + path else path) in dirty.value
    }

    /** Why a check file stays; None when it is eligible. */
    function FileReason(o: Occurrence): Option<Reason> {
      if IsDirty(o.path) then Some(Dirty)
      else if o.key.None? || o.raw.None? then Some(Unselectable)
      else if !o.raw.value.valid then Some(Invalid)
      else if o.raw.value.id != o.key then Some(IdDiffers)
      else if !Packable(fmt, o.raw.value) then Some(NotPackable)
      else if o.decision.None? || o.decision.value !in decisions then Some(DecisionMissing)
      else None
    }

    predicate Eligible(o: Occurrence) {
      o.kind == File && FileReason(o).None?
    }

    predicate GoodLine(o: Occurrence) {
      o.kind == Line && o.key.Some? && o.raw.Some? && o.raw.value.valid && Packable(fmt, o.raw.value)
    }

    predicate Damaged(o: Occurrence) {
      o.kind == Line && !GoodLine(o)
    }

    /** The effective record is terminal and no occurrence of it is dirty. */
    predicate TerminalClean(d: string) {
      d in decisions && decisions[d].terminal && forall p :: p in decisions[d].paths ==> !IsDirty(p)
    }

    function EligibleOf(s: seq<Occurrence>): seq<Occurrence> {
      if s == [] then []
      else EligibleOf(s[..|s| - 1]) + if Eligible(s[|s| - 1]) then [s[|s| - 1]] else []
    }

    function GoodLinesOf(s: seq<Occurrence>): seq<Occurrence> {
      if s == [] then []
      else GoodLinesOf(s[..|s| - 1]) + if GoodLine(s[|s| - 1]) then [s[|s| - 1]] else []
    }

    function Candidates(): seq<Occurrence> {
      EligibleOf(occs) + GoodLinesOf(occs)
    }

    /** Only committed check data makes another check dead. */
    function Superseders(): seq<Occurrence> {
      if IsDirty(PACKED_PATH) then EligibleOf(occs) else Candidates()
    }

    function Top(d: string): int {
      TopKey(Superseders(), d)
    }

    predicate Dead(o: Occurrence) {
      o.key.Some? && o.decision.Some? && (TerminalClean(o.decision.value) || Top(o.decision.value) > o.key.value)
    }

    predicate Blocking(o: Occurrence) {
      Damaged(o) && !Dead(o)
    }

    /** Well-formed arguments: occurrences come from `fmt`, one file per path, and the
        shard is neither a check file nor a decision's record. */
    ghost predicate Valid() {
      && Lawful(fmt)
      && (forall o :: o in occs && o.kind == File ==> o.path != PACKED_PATH)
      && (forall d :: d in decisions ==> PACKED_PATH !in decisions[d].paths)
      && AllFormed(fmt, occs)
      && (forall o, p :: o in occs && p in occs && o.kind == File && p.kind == File && o.path == p.path ==> o == p)
      && (forall i, j :: 0 <= i < j < |occs| && occs[i].kind == File && occs[j].kind == File ==> occs[i] != occs[j])
    }

    /** The fold goes ahead: inside Git, no packed problem, no conflict, no damaged live line. */
    predicate Unblocked() {
      dirty.Some? && problem.None? && ConflictFree(occs) && forall o :: o in occs ==> !Blocking(o)
    }
  }

  /** The highest key of `d` in `s`; -1 stands for Python's `""`, below every key. */
  function TopKey(s: seq<Occurrence>, d: string): (top: int)
    ensures top >= -1
  {
    if s == [] then -1
    else
      var rest := TopKey(s[..|s| - 1], d);
      var o := s[|s| - 1];
      if o.key.Some? && o.decision == Some(d) && o.key.value > rest then o.key.value else rest
  }

  /** `setdefault` over the live candidates: the first body of each key. */
  function FirstBodies(inp: Inputs, s: seq<Occurrence>): map<Key, Body> {
    if s == [] then map[]
    else
      var rest := FirstBodies(inp, s[..|s| - 1]);
      var o := s[|s| - 1];
      if inp.Dead(o) || o.key.None? || o.raw.None? || o.key.value in rest then rest
      else rest[o.key.value := o.raw.value]
  }

  lemma MinExists(s: set<Key>)
    requires s != {}
    ensures exists k :: k in s && forall j :: j in s ==> k <= j
  {
    var k :| k in s;
    if s != {k} {
      var rest := s - {k};
      MinExists(rest);
      var m :| m in rest && forall j :: j in rest ==> m <= j;
      var least := if k <= m then k else m;
      assert forall j :: j in s ==> j == k || j in rest;
      assert least in s && forall j :: j in s ==> least <= j;
    }
  }

  function MinKey(s: set<Key>): (k: Key)
    requires s != {}
    ensures k in s && forall j :: j in s ==> k <= j
  {
    MinExists(s);
    var k :| k in s && forall j :: j in s ==> k <= j;
    k
  }

  /** `sorted` on a set of keys. */
  function SortedKeys(s: set<Key>): (keys: seq<Key>)
    ensures forall k :: k in keys <==> k in s
    ensures forall i, j :: 0 <= i < j < |keys| ==> keys[i] < keys[j]
  {
    if s == {} then []
    else
      var k := MinKey(s);
      var rest := SortedKeys(s - {k});
      [k] + rest
  }

  /** The bodies of an image in increasing key order. */
  function SortedBodies(m: map<Key, Body>): (bodies: seq<Body>)
  {
    var keys := SortedKeys(m.Keys);
    seq(|keys|, i requires 0 <= i < |keys| => m[keys[i]])
  }

  /* ---- facts about the pieces ---- */

  lemma {:induction false} CandidateMembers(inp: Inputs, s: seq<Occurrence>)
    ensures forall o :: o in inp.EligibleOf(s) <==> o in s && inp.Eligible(o)
    ensures forall o :: o in inp.GoodLinesOf(s) <==> o in s && inp.GoodLine(o)
  {
    if s != [] {
      CandidateMembers(inp, s[..|s| - 1]);
      assert s == s[..|s| - 1] + [s[|s| - 1]];
    }
  }

  lemma {:induction false} TopIsHighest(s: seq<Occurrence>, d: string)
    ensures forall o :: o in s && o.key.Some? && o.decision == Some(d) ==> o.key.value <= TopKey(s, d)
    ensures TopKey(s, d) >= 0 ==> exists o :: o in s && o.key == Some(TopKey(s, d)) && o.decision == Some(d)
  {
    if s != [] {
      TopIsHighest(s[..|s| - 1], d);
      assert s == s[..|s| - 1] + [s[|s| - 1]];
      var o := s[|s| - 1];
      assert o in s;
    }
  }

  lemma {:induction false} FirstBodiesMembers(inp: Inputs, s: seq<Occurrence>)
    ensures forall k :: k in FirstBodies(inp, s) ==>
              exists o :: o in s && !inp.Dead(o) && o.key == Some(k) && o.raw == Some(FirstBodies(inp, s)[k])
    ensures forall o :: o in s && !inp.Dead(o) && o.key.Some? && o.raw.Some? ==> o.key.value in FirstBodies(inp, s)
  {
    if s != [] {
      FirstBodiesMembers(inp, s[..|s| - 1]);
      assert s == s[..|s| - 1] + [s[|s| - 1]];
    }
  }

  predicate Increasing(bodies: seq<Body>) {
    && (forall i :: 0 <= i < |bodies| ==> bodies[i].id.Some?)
    && forall i, j :: 0 <= i < j < |bodies| ==> bodies[i].id.value < bodies[j].id.value
  }

  lemma SortedBodiesSorted(m: map<Key, Body>)
    requires forall k :: k in m ==> m[k].id == Some(k)
    ensures Increasing(SortedBodies(m))
    ensures forall b :: b in SortedBodies(m) ==> b.id.Some? && b.id.value in m && m[b.id.value] == b
    ensures forall k :: k in m ==> m[k] in SortedBodies(m)
  {
    var keys := SortedKeys(m.Keys);
    var bodies := SortedBodies(m);
    forall k | k in m ensures m[k] in bodies {
      assert k in keys;
      var i :| 0 <= i < |keys| && keys[i] == k;
      assert bodies[i] == m[k];
    }
  }

  /* ---- the plan ---- */

  function Image(inp: Inputs): seq<Body> {
    SortedBodies(FirstBodies(inp, inp.Candidates()))
  }

  /** Total version of `encode_body` over the image: the planner only packs encodable bodies. */
  function ImageBytes(inp: Inputs): Bytes {
    if forall b :: b in Image(inp) ==> inp.fmt.encode(b).Some? then Render(inp.fmt, Image(inp)) else []
  }

  function KeptFiles(inp: Inputs): set<(string, Reason)> {
    (set o | o in inp.occs && o.kind == File && inp.FileReason(o).Some? :: (o.path, inp.FileReason(o).value))
    + (set rel | rel in inp.skipped :: (rel, NotAFile))
  }

  ghost predicate Packs(inp: Inputs, path: string) {
    exists o :: o in inp.occs && inp.Eligible(o) && !inp.Dead(o) && o.path == path
  }

  ghost predicate Drops(inp: Inputs, path: string) {
    exists o :: o in inp.occs && inp.Eligible(o) && inp.Dead(o) && o.path == path
  }

  ghost predicate DropsLine(inp: Inputs, k: Key) {
    exists o :: o in inp.occs && o.kind == Line && inp.Dead(o) && o.key == Some(k)
  }

  /** What an unblocked plan holds. */
  ghost predicate Plans(inp: Inputs, plan: CheckPlan) {
    && plan.blocked == None
    && plan.current == inp.packed
    && plan.image == ImageBytes(inp)
    && (forall path :: path in plan.packed <==> Packs(inp, path))
    && (forall path :: path in plan.dropped <==> Drops(inp, path))
    && (forall k :: k in plan.droppedLines <==> DropsLine(inp, k))
    && plan.kept == KeptFiles(inp)
    && plan.read.Keys == plan.packed + plan.dropped
    && (forall o :: o in inp.occs && o.kind == File && o.path in plan.read ==> plan.read[o.path] == o.data)
  }

  lemma PackableMeans(fmt: Format, b: Body)
    requires Lawful(fmt)
    ensures Packable(fmt, b) <==> b.encodable && !b.hasNaN
  {
  }

  predicate Sendable(b: Body) {
    b.encodable && !b.hasNaN && b.valid && b.id.Some? && b.decision.Some?
  }

  predicate Candidate(inp: Inputs, o: Occurrence) {
    o in inp.occs && (inp.Eligible(o) || inp.GoodLine(o))
  }

  predicate LiveSource(inp: Inputs, c: Occurrence, b: Body) {
    Candidate(inp, c) && !inp.Dead(c) && c.raw == Some(b) && c.key == b.id && c.decision == b.decision
  }

  lemma CandidateIsSendable(inp: Inputs, c: Occurrence)
    requires inp.Valid() && Candidate(inp, c)
    ensures c.raw.Some? && Sendable(c.raw.value) && c.key == c.raw.value.id && c.decision == c.raw.value.decision
  {
    assert c.Formed(inp.fmt);
    PackableMeans(inp.fmt, c.raw.value);
  }

  lemma {:induction false} LiveBodies(inp: Inputs)
    requires inp.Valid()
    ensures var bodies := FirstBodies(inp, inp.Candidates());
            forall k :: k in bodies ==>
              && bodies[k].id == Some(k) && Sendable(bodies[k])
              && exists c :: LiveSource(inp, c, bodies[k])
  {
    var cands := inp.Candidates();
    var bodies := FirstBodies(inp, cands);
    CandidateMembers(inp, inp.occs);
    FirstBodiesMembers(inp, cands);
    forall k | k in bodies
      ensures bodies[k].id == Some(k) && Sendable(bodies[k]) && exists c :: LiveSource(inp, c, bodies[k])
    {
      var o :| o in cands && !inp.Dead(o) && o.key == Some(k) && o.raw == Some(bodies[k]);
      CandidateIsSendable(inp, o);
      assert LiveSource(inp, o, bodies[k]);
    }
  }

  lemma LiveCandidateInImage(inp: Inputs, c: Occurrence)
    requires inp.Valid() && ConflictFree(inp.occs) && Candidate(inp, c) && !inp.Dead(c)
    ensures c.raw.Some? && c.raw.value in Image(inp)
  {
    var cands := inp.Candidates();
    CandidateMembers(inp, inp.occs);
    FirstBodiesMembers(inp, cands);
    CandidateIsSendable(inp, c);
    LiveBodies(inp);
    var bodies := FirstBodies(inp, cands);
    SortedBodiesSorted(bodies);
    assert c in cands;
    var k := c.key.value;
    assert k in bodies;
    var o :| o in cands && !inp.Dead(o) && o.key == Some(k) && o.raw == Some(bodies[k]);
    ConflictFreePair(inp.occs, o, c);
  }

  /** The image is in strict key order, and holds exactly the valid, packable bodies of
      the live candidates. */
  lemma ImageFacts(inp: Inputs)
    requires inp.Valid()
    ensures Increasing(Image(inp))
    ensures forall b :: b in Image(inp) ==> Sendable(b) && exists c :: LiveSource(inp, c, b)
    ensures (forall b :: b in Image(inp) ==> inp.fmt.encode(b).Some?) && ImageBytes(inp) == Render(inp.fmt, Image(inp))
  {
    LiveBodies(inp);
    SortedBodiesSorted(FirstBodies(inp, inp.Candidates()));
  }

  /** The lines a reader finds in the published image. */
  function ImageLines(inp: Inputs): (lines: seq<Occurrence>)
    ensures AllFormed(inp.fmt, lines)
    ensures forall o :: o in lines ==> o.kind == Line
  {
    PackedOccurrences(inp.fmt, Some(ImageBytes(inp)))
  }

  lemma ImageLinesFacts(inp: Inputs)
    requires inp.Valid()
    ensures var lines := ImageLines(inp); var image := Image(inp);
            && |lines| == |image|
            && forall i :: 0 <= i < |lines| ==>
                 && lines[i].raw == Some(image[i]) && lines[i].key == image[i].id
                 && lines[i].decision == image[i].decision && inp.GoodLine(lines[i])
    ensures forall i, j :: 0 <= i < j < |ImageLines(inp)| ==> ImageLines(inp)[i].key != ImageLines(inp)[j].key
    ensures forall l :: l in ImageLines(inp) ==> exists c :: LiveSource(inp, c, l.raw.value)
  {
    ImageFacts(inp);
    var image, lines := Image(inp), ImageLines(inp);
    RenderReadsBack(inp.fmt, image, 1);
    forall i | 0 <= i < |lines|
      ensures lines[i].raw == Some(image[i]) && lines[i].key == image[i].id && lines[i].decision == image[i].decision
      ensures inp.GoodLine(lines[i]) && exists c :: LiveSource(inp, c, image[i])
    {
      assert lines[i] in lines && image[i] in image;
      assert Sendable(image[i]);
      PackableMeans(inp.fmt, image[i]);
    }
  }

  /* ---- a fold preserves every live choice ---- */

  /** What a reader can see of the fold once its image is published: some of the
      store's files, each once, with every unseen file packed or dropped by the
      plan, and then the image's lines. */
  ghost predicate Sees(inp: Inputs, files: seq<Occurrence>) {
    && (forall f :: f in files ==> f in inp.occs && f.kind == File)
    && (forall i, j :: 0 <= i < j < |files| ==> files[i] != files[j])
    && (forall f :: f in inp.occs && f.kind == File && f !in files ==> Packs(inp, f.path) || Drops(inp, f.path))
  }

  lemma SeenConflictFree(inp: Inputs, files: seq<Occurrence>)
    requires inp.Valid() && ConflictFree(inp.occs) && Sees(inp, files)
    ensures AllSound(files + ImageLines(inp)) && ConflictFree(files + ImageLines(inp))
  {
    var lines := ImageLines(inp);
    var seen := files + lines;
    ImageLinesFacts(inp);
    assert forall i :: |files| <= i < |seen| ==> seen[i] == lines[i - |files|];
    forall i | 0 <= i < |seen| ensures seen[i].Sound() {
      if i < |files| { assert seen[i] in inp.occs; } else { assert seen[i] in lines; }
    }
    forall i, j | 0 <= i < j < |seen| && seen[i].key.Some? && seen[i].key == seen[j].key
      ensures SameBody(seen[i], seen[j])
    {
      if j < |files| {
        assert seen[i] in files && seen[j] in files && seen[i] != seen[j];
        TwoOccurrences(inp.occs, seen[i], seen[j]);
      } else if i < |files| {
        assert seen[i] in files && seen[j] in lines;
        var c :| LiveSource(inp, c, seen[j].raw.value);
        CandidateIsSendable(inp, c);
        ConflictFreePair(inp.occs, c, seen[i]);
      }
    }
  }

  lemma TwoOccurrences(occs: seq<Occurrence>, a: Occurrence, b: Occurrence)
    requires ConflictFree(occs) && a in occs && b in occs && a != b && a.key.Some? && a.key == b.key
    ensures SameBody(a, b)
  {
    var i :| 0 <= i < |occs| && occs[i] == a;
    var j :| 0 <= j < |occs| && occs[j] == b;
    if i < j { assert SameBody(occs[i], occs[j]); } else { assert SameBody(occs[j], occs[i]); }
  }

  /** The winner of a decision that is not terminal-and-clean is never dead. */
  lemma {:induction false} WinnerIsLive(inp: Inputs, d: string)
    requires inp.Valid() && !inp.TerminalClean(d) && Best(inp.occs, d).Some?
    ensures !inp.Dead(Best(inp.occs, d).value)
  {
    BestIsHighest(inp.occs, d);
    CandidateMembers(inp, inp.occs);
    TopIsHighest(inp.Superseders(), d);
  }

  /** The winner stays visible: as a file that was kept, or as a line of the image. */
  lemma {:induction false} WinnerSeen(inp: Inputs, files: seq<Occurrence>, d: string)
    requires inp.Valid() && inp.Unblocked() && Sees(inp, files) && !inp.TerminalClean(d) && Best(inp.occs, d).Some?
    ensures exists o :: o in files + ImageLines(inp) && Repeats(Best(inp.occs, d).value, o)
  {
    var w := Best(inp.occs, d).value;
    WinnerIsLive(inp, d);
    if w !in files {
      assert Candidate(inp, w) by {
        if w.kind == Line { assert !inp.Blocking(w); }
      }
      LiveCandidateInImage(inp, w);
      CandidateIsSendable(inp, w);
      ImageLinesFacts(inp);
      var image, lines := Image(inp), ImageLines(inp);
      var i :| 0 <= i < |image| && image[i] == w.raw.value;
      assert Repeats(w, lines[i]) && lines[i] in lines;
    } else {
      assert w in files + ImageLines(inp);
    }
  }

  /** MAIN RESULT.  However much of the fold a reader sees, it chooses, for every
      decision that is not terminal-and-clean, the same key with the same body, the
      same conflict verdict and the same validation outcome as before the fold. */
  lemma FoldPreservesChoice(inp: Inputs, files: seq<Occurrence>, d: string)
    requires inp.Valid() && inp.Unblocked() && Sees(inp, files) && !inp.TerminalClean(d)
    ensures SameChoice(inp.occs, files + ImageLines(inp), d)
  {
    var seen := files + ImageLines(inp);
    SeenConflictFree(inp, files);
    ImageLinesFacts(inp);
    assert AllSound(inp.occs) by {
      forall i | 0 <= i < |inp.occs| ensures inp.occs[i].Sound() { assert inp.occs[i] in inp.occs; }
    }
    forall o | o in seen ensures exists p :: p in inp.occs && Repeats(p, o) {
      if o in files {
        assert Repeats(o, o);
      } else {
        var c :| LiveSource(inp, c, o.raw.value);
        assert o in ImageLines(inp) && o.Sound();
        assert Repeats(c, o);
      }
    }
    if Best(inp.occs, d).Some? { WinnerSeen(inp, files, d); }
    AgreeOnBest(inp.occs, seen, d);
  }

  /* ---- the store after the fold ---- */

  function FilesOf(occs: seq<Occurrence>, gone: set<string>): seq<Occurrence> {
    if occs == [] then []
    else
      var o := occs[|occs| - 1];
      FilesOf(occs[..|occs| - 1], gone) + if o.kind == File && o.path !in gone then [o] else []
  }

  lemma {:induction false} FilesOfStep(front: seq<Occurrence>, o: Occurrence, gone: set<string>)
    ensures FilesOf(front + [o], gone) == FilesOf(front, gone) + if o.kind == File && o.path !in gone then [o] else []
  {
    assert (front + [o])[..|front|] == front;
  }

  lemma {:induction false} FilesOfWho(occs: seq<Occurrence>, gone: set<string>)
    ensures forall o :: o in FilesOf(occs, gone) <==> o in occs && o.kind == File && o.path !in gone
  {
    if occs != [] {
      var front, o := occs[..|occs| - 1], occs[|occs| - 1];
      FilesOfWho(front, gone);
      assert occs == front + [o];
      FilesOfStep(front, o, gone);
    }
  }

  lemma {:induction false} FilesOfMembers(occs: seq<Occurrence>, gone: set<string>)
    requires forall i, j :: 0 <= i < j < |occs| && occs[i].kind == File && occs[j].kind == File ==> occs[i] != occs[j]
    ensures forall o :: o in FilesOf(occs, gone) <==> o in occs && o.kind == File && o.path !in gone
    ensures var fs := FilesOf(occs, gone); forall i, j :: 0 <= i < j < |fs| ==> fs[i] != fs[j]
  {
    FilesOfWho(occs, gone);
    if occs != [] {
      var front, o := occs[..|occs| - 1], occs[|occs| - 1];
      FilesOfMembers(front, gone);
      assert occs == front + [o];
      FilesOfStep(front, o, gone);
      var ff := FilesOf(front, gone);
      if o.kind == File && o.path !in gone {
        assert forall i :: 0 <= i < |front| && front[i].kind == File ==> occs[i] != occs[|occs| - 1];
        assert o !in ff;
        AppendDistinct(ff, o);
      } else {
        assert ff + [] == ff;
      }
    }
  }

  lemma AppendDistinct(os: seq<Occurrence>, o: Occurrence)
    requires (forall i, j :: 0 <= i < j < |os| ==> os[i] != os[j]) && o !in os
    ensures forall i, j :: 0 <= i < j < |os + [o]| ==> (os + [o])[i] != (os + [o])[j]
  {
  }

  /** The inventory after the publisher carried out `plan`: nothing changes without
      work, else the surviving files and the image's lines. */
  function After(inp: Inputs, plan: CheckPlan): seq<Occurrence> {
    if plan.HasWork() then FilesOf(inp.occs, plan.packed + plan.dropped) + ImageLines(inp) else inp.occs
  }

  lemma SurvivorsSeen(inp: Inputs, plan: CheckPlan)
    requires inp.Valid() && Plans(inp, plan)
    ensures Sees(inp, FilesOf(inp.occs, plan.packed + plan.dropped))
  {
    FilesOfMembers(inp.occs, plan.packed + plan.dropped);
  }

  /** An unblocked fold, carried out in full, preserves meaning. */
  lemma FoldPreservesMeaning(inp: Inputs, plan: CheckPlan, d: string)
    requires inp.Valid() && inp.Unblocked() && Plans(inp, plan) && !inp.TerminalClean(d)
    ensures SameChoice(inp.occs, After(inp, plan), d)
  {
    if plan.HasWork() {
      SurvivorsSeen(inp, plan);
      FoldPreservesChoice(inp, FilesOf(inp.occs, plan.packed + plan.dropped), d);
    }
  }
}
