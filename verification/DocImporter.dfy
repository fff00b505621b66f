/** The importer as it runs: one store, one report, and in a dry run only a memory. */
module DocImporter {
  import opened Wrappers
  import opened DocStore
  import opened DocImport
  import opened DocRuns
  import opened DocDryRun

  datatype Report = Report(imported: nat, superseded: nat, skippedExisting: nat, skippedUnanchorable: nat,
    skippedPending: nat)

  const EMPTY := Report(0, 0, 0, 0, 0)

  function Tally(r: Report, action: Action): Report {
    match action
    case Written => r.(imported := r.imported + 1)
    case SupersededAction => r.(superseded := r.superseded + 1)
    case SkippedExisting => r.(skippedExisting := r.skippedExisting + 1)
    case SkippedUnanchorable => r.(skippedUnanchorable := r.skippedUnanchorable + 1)
    case SkippedPending => r.(skippedPending := r.skippedPending + 1)
  }

  function TallyAll(actions: seq<Action>): Report {
    if actions == [] then EMPTY else Tally(TallyAll(actions[..|actions| - 1]), actions[|actions| - 1])
  }

  function TallyDone(actions: seq<Option<Action>>): Report {
    if actions == [] then EMPTY
    else
      var before := TallyDone(actions[..|actions| - 1]);
      var last := actions[|actions| - 1];
      if last.Some? then Tally(before, last.value) else before
  }

  /** What a write that goes through consists of. */
  lemma WriteSteps(s: seq<Decision>, bound: set<Id>, req: Request)
    requires Write(s, bound, req).Ok?
    ensures var disp := Classify(s, bound, req, RecordsAt(s, req.ref)); var out := Write(s, bound, req).value;
      && out.action == disp.action
      && (disp.action == SkippedExisting ==>
            && disp.matched.Some? && out.decisions == s
            && out.bound == if req.anchored || req.tagged then bound + {disp.matched.value.id} else bound)
      && (disp.action != SkippedExisting && !Writes(disp.action) ==> out.decisions == s && out.bound == bound)
      && (Writes(disp.action) ==>
            var dropped := if disp.pending.Some? then Drop(s, disp.pending.value.id) else Ok(s);
            && dropped.Ok? && AddDecision(dropped.value, BuildDecision(req, disp, |s|)) == Ok(out.decisions)
            && out.bound == bound + {|s|}
            && (!req.anchored ==> disp.inherit.Some?))
  {
  }

  class Importer {
    var decisions: seq<Decision>
    /** Records with any binding, and with one that is not a tag. */
    var bound: set<Id>
    var anchoredRecords: set<Id>
    var wouldBe: map<string, seq<Decision>>
    var next: Id
    var report: Report

    ghost predicate Valid()
      reads this
    {
      Inv(decisions) && anchoredRecords <= bound
    }

    constructor (decisions: seq<Decision>, bound: set<Id>, anchoredRecords: set<Id>)
      requires Inv(decisions) && anchoredRecords <= bound
      ensures Valid() && this.decisions == decisions && this.bound == bound
      ensures wouldBe == map[] && next == |decisions| && report == EMPTY
    {
      this.decisions, this.bound, this.anchoredRecords := decisions, bound, anchoredRecords;
      wouldBe, next, report := map[], |decisions|, EMPTY;
    }

    /** `_apply_doc_state` on the records at the document's reference. */
    method ApplyDocState(req: Request) returns (action: Action)
      requires Valid() && req.Valid()
      modifies `decisions, `bound, `anchoredRecords
      ensures Valid()
      ensures var r := Write(old(decisions), old(bound), req);
        r.Ok? && decisions == r.value.decisions && bound == r.value.bound && action == r.value.action
    {
      WriteReplaces(decisions, bound, req);
      WriteKeepsInv(decisions, bound, req);
      WriteSteps(decisions, bound, req);
      ghost var out := Write(decisions, bound, req).value;
      var disp := Classify(decisions, bound, req, RecordsAt(decisions, req.ref));
      action := disp.action;
      if action == SkippedExisting {
        if req.anchored || req.tagged {
          bound := bound + {disp.matched.value.id};
        }
        if req.anchored {
          anchoredRecords := anchoredRecords + {disp.matched.value.id};
        }
        return;
      }
      if !Writes(action) { return; }
      var id := |decisions|;
      if disp.pending.Some? {
        var dropped := Drop(decisions, disp.pending.value.id);
        decisions := dropped.value;
      }
      var added := AddDecision(decisions, BuildDecision(req, disp, id));
      decisions := added.value;
      assert decisions == out.decisions;
      bound := bound + {id};
      if req.anchored || disp.inherit.value in anchoredRecords { anchoredRecords := anchoredRecords + {id}; }
    }

    /** `_import_one_record` under the manual policy. */
    method ImportOneRecord(req: Request, dryRun: bool) returns (action: Action)
      requires Valid() && req.Valid()
      modifies this
      ensures Valid() && report == Tally(old(report), action)
      ensures dryRun ==>
        && decisions == old(decisions) && bound == old(bound)
        && (Shadow(wouldBe, next), action) == DryStep(old(decisions), old(bound), Shadow(old(wouldBe), old(next)), req)
      ensures !dryRun ==>
        && wouldBe == old(wouldBe) && next == old(next)
        && var r := Write(old(decisions), old(bound), req);
           r.Ok? && decisions == r.value.decisions && bound == r.value.bound && action == r.value.action
    {
      var existing := if dryRun then Existing(decisions, Shadow(wouldBe, next), req.ref)
        else RecordsAt(decisions, req.ref);
      var preflight := Classify(decisions, bound, req.(anchored := false), existing);
      if preflight.action == SkippedExisting && preflight.matched.value.id in anchoredRecords {
        action := SkippedExisting;
        assert bound + {preflight.matched.value.id} == bound;
      } else if dryRun {
        var disp := Classify(decisions, bound, req, existing);
        action := disp.action;
        if Writes(action) {
          wouldBe := wouldBe[req.ref := RecordsAfterWrite(existing, disp.pending, BuildDecision(req, disp, next))];
          next := next + 1;
        }
      } else {
        action := ApplyDocState(req);
      }
      report := Tally(report, action);
    }

    /** The loop of `import_docs` over documents already read and parsed. */
    method ImportDocs(docs: seq<Request>, dryRun: bool)
      requires Valid() && forall k :: 0 <= k < |docs| ==> docs[k].Valid()
      requires wouldBe == map[] && next == |decisions| && report == EMPTY
      modifies this
      ensures Valid()
      ensures dryRun ==>
        && decisions == old(decisions)
        && DryOf(old(decisions), old(bound), docs).shadow == Shadow(wouldBe, next)
        && report == TallyAll(DryOf(old(decisions), old(bound), docs).actions)
      ensures !dryRun ==>
        && wouldBe == map[]
        && decisions == RealOf(old(decisions), old(bound), docs).decisions
        && report == TallyDone(RealOf(old(decisions), old(bound), docs).actions)
    {
      ghost var s, b := decisions, bound;
      assert docs[..0] == [];
      for n := 0 to |docs|
        invariant Valid()
        invariant dryRun ==>
          && decisions == s && bound == b
          && DryOf(s, b, docs[..n]).shadow == Shadow(wouldBe, next)
          && report == TallyAll(DryOf(s, b, docs[..n]).actions)
        invariant !dryRun ==>
          && wouldBe == map[]
          && decisions == RealOf(s, b, docs[..n]).decisions && bound == RealOf(s, b, docs[..n]).bound
          && report == TallyDone(RealOf(s, b, docs[..n]).actions)
      {
        assert docs[..n + 1][..n] == docs[..n];
        var action := ImportOneRecord(docs[n], dryRun);
      }
      assert docs[..|docs|] == docs;
    }
  }

  /** The dry run's report counts are the real run's. */
  lemma {:induction false} SameReport(dry: seq<Action>, done: seq<Option<Action>>)
    requires SameActions(dry, done)
    ensures TallyAll(dry) == TallyDone(done)
  {
    if dry != [] { SameReport(dry[..|dry| - 1], done[..|done| - 1]); }
  }
}
