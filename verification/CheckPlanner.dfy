/** The planner as the source runs it: loops filling lists and dictionaries. */
module CheckPlanner {
  import opened Wrappers
  import opened CheckStore
  import opened CheckFold

  /** Which files may be packed or dropped, and why the others stay. */
  method SortFiles(inp: Inputs) returns (eligible: seq<Occurrence>, kept: set<(string, Reason)>)
    ensures eligible == inp.EligibleOf(inp.occs)
    ensures kept == KeptFiles(inp)
  {
    kept := set rel | rel in inp.skipped :: (rel, NotAFile);
    eligible := [];
    for n := 0 to |inp.occs|
      invariant eligible == inp.EligibleOf(inp.occs[..n])
      invariant kept ==
        (set o | o in inp.occs[..n] && o.kind == File && inp.FileReason(o).Some? :: (o.path, inp.FileReason(o).value))
        + (set rel | rel in inp.skipped :: (rel, NotAFile))
    {
      var occ := inp.occs[n];
      assert inp.occs[..n + 1] == inp.occs[..n] + [occ];
      if occ.kind == File {
        var reason := inp.FileReason(occ);
        if reason.None? {
          eligible := eligible + [occ];
        } else {
          kept := kept + {(occ.path, reason.value)};
        }
      }
    }
    assert inp.occs[..|inp.occs|] == inp.occs;
  }

  method GoodLines(inp: Inputs) returns (good: seq<Occurrence>)
    ensures good == inp.GoodLinesOf(inp.occs)
  {
    good := [];
    for n := 0 to |inp.occs|
      invariant good == inp.GoodLinesOf(inp.occs[..n])
    {
      assert inp.occs[..n + 1] == inp.occs[..n] + [inp.occs[n]];
      if inp.GoodLine(inp.occs[n]) { good := good + [inp.occs[n]]; }
    }
    assert inp.occs[..|inp.occs|] == inp.occs;
  }

  /** The highest superseding key per decision. */
  method TopKeys(s: seq<Occurrence>) returns (top: map<string, Key>)
    requires AllSound(s)
    ensures forall d :: TopKey(s, d) == if d in top then top[d] else -1
  {
    top := map[];
    for n := 0 to |s|
      invariant forall d :: TopKey(s[..n], d) == if d in top then top[d] else -1
    {
      assert s[..n + 1][..n] == s[..n];
      var occ := s[n];
      if occ.key.Some? {
        var d := occ.decision.value;
        if d !in top || occ.key.value > top[d] { top := top[d := occ.key.value]; }
      }
    }
    assert s[..|s|] == s;
  }

  predicate DeadBy(inp: Inputs, top: map<string, Key>, o: Occurrence) {
    o.key.Some? && o.decision.Some? &&
    (inp.TerminalClean(o.decision.value) || (o.decision.value in top && top[o.decision.value] > o.key.value))
  }

  ghost predicate KnowsDead(inp: Inputs, top: map<string, Key>) {
    forall o :: DeadBy(inp, top, o) <==> inp.Dead(o)
  }

  /** The paths of the dead (or the live) files of `s`. */
  function FilePaths(inp: Inputs, s: seq<Occurrence>, dead: bool): set<string> {
    if s == [] then {}
    else
      var o := s[|s| - 1];
      FilePaths(inp, s[..|s| - 1], dead) + if o.kind == File && inp.Dead(o) == dead then {o.path} else {}
  }

  function FileBytes(s: seq<Occurrence>): map<string, Bytes> {
    if s == [] then map[]
    else
      var o := s[|s| - 1];
      var rest := FileBytes(s[..|s| - 1]);
      if o.kind == File then rest[o.path := o.data] else rest
  }

  lemma {:induction false} FilePathsMembers(inp: Inputs, s: seq<Occurrence>, dead: bool)
    ensures forall path :: path in FilePaths(inp, s, dead) <==>
      exists o :: o in s && o.kind == File && inp.Dead(o) == dead && o.path == path
  {
    if s != [] {
      FilePathsMembers(inp, s[..|s| - 1], dead);
      assert s == s[..|s| - 1] + [s[|s| - 1]];
    }
  }

  lemma {:induction false} FileBytesMembers(inp: Inputs, s: seq<Occurrence>)
    ensures FileBytes(s).Keys == FilePaths(inp, s, true) + FilePaths(inp, s, false)
    ensures forall path :: path in FileBytes(s) ==>
      exists o :: o in s && o.kind == File && o.path == path && o.data == FileBytes(s)[path]
  {
    if s != [] {
      FileBytesMembers(inp, s[..|s| - 1]);
      assert s == s[..|s| - 1] + [s[|s| - 1]];
    }
  }

  /** The image, the packed and dropped files, and the bytes each must still have. */
  method Collect(inp: Inputs, cands: seq<Occurrence>, top: map<string, Key>)
    returns (image: map<Key, Body>, packed: set<string>, dropped: set<string>, read: map<string, Bytes>)
    requires KnowsDead(inp, top)
    requires forall c :: c in cands ==> c.key.Some? && c.raw.Some?
    ensures image == FirstBodies(inp, cands)
    ensures packed == FilePaths(inp, cands, false) && dropped == FilePaths(inp, cands, true)
    ensures read == FileBytes(cands)
  {
    image, packed, dropped, read := map[], {}, {}, map[];
    for n := 0 to |cands|
      invariant image == FirstBodies(inp, cands[..n])
      invariant packed == FilePaths(inp, cands[..n], false) && dropped == FilePaths(inp, cands[..n], true)
      invariant read == FileBytes(cands[..n])
    {
      var occ := cands[n];
      assert cands[..n + 1][..n] == cands[..n];
      assert occ in cands;
      if DeadBy(inp, top, occ) {
        if occ.kind == File {
          dropped := dropped + {occ.path};
          read := read[occ.path := occ.data];
        }
      } else {
        if occ.key.value !in image { image := image[occ.key.value := occ.raw.value]; }
        if occ.kind == File {
          packed := packed + {occ.path};
          read := read[occ.path := occ.data];
        }
      }
    }
    assert cands[..|cands|] == cands;
  }

  lemma {:induction false} CollectedIsPlanned(inp: Inputs, plan: CheckPlan)
    requires inp.Valid()
    requires var cands := inp.Candidates();
      plan.packed == FilePaths(inp, cands, false) && plan.dropped == FilePaths(inp, cands, true)
        && plan.read == FileBytes(cands)
    ensures forall path :: path in plan.packed <==> Packs(inp, path)
    ensures forall path :: path in plan.dropped <==> Drops(inp, path)
    ensures plan.read.Keys == plan.packed + plan.dropped
    ensures forall o :: o in inp.occs && o.kind == File && o.path in plan.read ==> plan.read[o.path] == o.data
  {
    var cands := inp.Candidates();
    CandidateMembers(inp, inp.occs);
    FilePathsMembers(inp, cands, false);
    FilePathsMembers(inp, cands, true);
    FileBytesMembers(inp, cands);
    assert forall o :: o in cands && o.kind == File <==> o in inp.occs && inp.Eligible(o);
  }

  lemma {:induction false} SoundParts(inp: Inputs)
    requires inp.Valid()
    ensures AllSound(inp.occs) && AllSound(inp.EligibleOf(inp.occs)) && AllSound(inp.Candidates())
    ensures forall c: Occurrence :: c in inp.Candidates() ==> c.key.Some? && c.raw.Some?
  {
    CandidateMembers(inp, inp.occs);
    var cands := inp.Candidates();
    forall i | 0 <= i < |inp.occs| ensures inp.occs[i].Sound() { assert inp.occs[i] in inp.occs; }
    forall i | 0 <= i < |cands| ensures cands[i].Sound() { assert cands[i] in cands; assert cands[i] in inp.occs; }
    var el := inp.EligibleOf(inp.occs);
    forall i | 0 <= i < |el| ensures el[i].Sound() { assert el[i] in el; assert el[i] in inp.occs; }
  }

  /** The first damaged line that is not dead. */
  predicate FirstBlockingAt(inp: Inputs, n: nat) {
    n < |inp.occs| && inp.Blocking(inp.occs[n]) && forall i :: 0 <= i < n ==> !inp.Blocking(inp.occs[i])
  }

  ghost predicate NamesFirst(inp: Inputs, blocked: Option<Blocked>) {
    exists n: nat :: FirstBlockingAt(inp, n) && blocked == Some(DamagedLine(inp.occs[n].path, inp.occs[n].lineNo))
  }

  method FirstBlocking(inp: Inputs, top: map<string, Key>) returns (found: Option<Occurrence>)
    requires KnowsDead(inp, top)
    ensures found.None? <==> forall o :: o in inp.occs ==> !inp.Blocking(o)
    ensures found.Some? ==> exists n: nat :: FirstBlockingAt(inp, n) && found.value == inp.occs[n]
  {
    for n := 0 to |inp.occs|
      invariant forall i :: 0 <= i < n ==> !inp.Blocking(inp.occs[i])
    {
      if inp.Damaged(inp.occs[n]) && !DeadBy(inp, top, inp.occs[n]) {
        assert FirstBlockingAt(inp, n);
        return Some(inp.occs[n]);
      }
    }
    return None;
  }

  /** The part of `plan_check_fold` after the conflict test. */
  method PlanImage(inp: Inputs, eligible: seq<Occurrence>, base: CheckPlan) returns (plan: CheckPlan)
    requires inp.Valid() && inp.dirty.Some? && inp.problem.None? && ConflictFree(inp.occs)
    requires eligible == inp.EligibleOf(inp.occs)
    requires base == CheckPlan(inp.packed, base.image, {}, {}, {}, KeptFiles(inp), None, map[])
    ensures plan.blocked.None? <==> inp.Unblocked()
    ensures plan.blocked.None? ==> Plans(inp, plan)
    ensures plan.blocked.Some? ==> NamesFirst(inp, plan.blocked) && plan == base.(blocked := plan.blocked)
  {
    SoundParts(inp);
    var good := GoodLines(inp);
    var cands := eligible + good;
    assert cands == inp.Candidates();
    var top := TopKeys(if inp.IsDirty(PACKED_PATH) then eligible else cands);
    assert KnowsDead(inp, top);
    var blocking := FirstBlocking(inp, top);
    if blocking.Some? {
      return base.(blocked := Some(DamagedLine(blocking.value.path, blocking.value.lineNo)));
    }
    var lines := set o | o in inp.occs && o.kind == Line && DeadBy(inp, top, o) && o.key.Some? :: o.key.value;
    var image, packed, dropped, read := Collect(inp, cands, top);
    ImageFacts(inp);
    plan := CheckPlan(inp.packed, Render(inp.fmt, SortedBodies(image)), packed, dropped, lines, base.kept, None, read);
    CollectedIsPlanned(inp, plan);
    assert forall k :: k in lines <==> DropsLine(inp, k);
  }

  /** `plan_check_fold`.  Outside Git nothing is judged; a packed problem, a key
      conflict or a damaged live line blocks the fold; otherwise the plan is the one
      `Plans` describes. */
  method PlanCheckFold(inp: Inputs) returns (plan: CheckPlan)
    requires inp.Valid()
    ensures inp.dirty.None? ==> plan.blocked.None? && !plan.HasWork() && plan.packed == plan.dropped == {}
    ensures inp.dirty.None? ==>
      plan.kept == (set o | o in inp.occs && o.kind == File :: (o.path, OutsideGit))
        + (set rel | rel in inp.skipped :: (rel, OutsideGit))
    ensures inp.dirty.Some? ==> (plan.blocked.None? <==> inp.Unblocked())
    ensures inp.Unblocked() ==> Plans(inp, plan)
    ensures plan.blocked.Some? ==> !plan.HasWork() && plan.packed == {} && plan.dropped == {} && plan.droppedLines == {}
    ensures inp.dirty.Some? && inp.problem.Some? ==> plan.blocked == Some(PackedProblem(inp.problem.value))
    ensures inp.dirty.Some? && inp.problem.None? && !ConflictFree(inp.occs) ==>
      && plan.blocked.Some? && plan.blocked.value.ConflictingChecks?
      && forall k :: k in plan.blocked.value.keys <==> Conflicting(inp.occs, k)
    ensures inp.dirty.Some? && inp.problem.None? && ConflictFree(inp.occs) && plan.blocked.Some? ==>
      NamesFirst(inp, plan.blocked)
  {
    var untouched := if inp.packed.Some? then inp.packed.value else [];
    plan := CheckPlan(inp.packed, untouched, {}, {}, {}, {}, None, map[]);
    if inp.dirty.None? {
      var kept := (set o | o in inp.occs && o.kind == File :: (o.path, OutsideGit))
        + (set rel | rel in inp.skipped :: (rel, OutsideGit));
      return plan.(kept := kept);
    }
    if inp.problem.Some? {
      return plan.(blocked := Some(PackedProblem(inp.problem.value)));
    }
    var eligible, kept := SortFiles(inp);
    plan := plan.(kept := kept);
    SoundParts(inp);
    var conflicts := ConflictingKeys(inp.occs);
    if conflicts != {} {
      return plan.(blocked := Some(ConflictingChecks(conflicts)));
    }
    plan := PlanImage(inp, eligible, plan);
  }
}
