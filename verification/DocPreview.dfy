/** Exactly when the dry run of document import can be trusted, told from the store it starts from. */
module DocPreview {
  import opened Wrappers
  import opened DocStore
  import opened DocImport
  import opened DocRuns
  import opened DocDryRun

  /* ---- accepted and proposed documents ---- */

  /** No stored record has this text. */
  predicate Unseen(s: seq<Decision>, c: Content) {
    forall i :: 0 <= i < |s| ==> s[i].content != c
  }

  /** At a contested reference both records are unique, and the proposal is the accepted
      record's only pending successor. */
  lemma ContestedPair(s: seq<Decision>, ref: string)
    requires Inv(s) && Contested(s, ref)
    ensures AcceptedId(s, ref).Some? && PendingId(s, ref).Some?
    ensures var a, p := AcceptedId(s, ref).value, PendingId(s, ref).value;
      && a < |s| && p < |s| && s[a].status == Accepted && s[p].status == Proposed
      && s[a].ref == Some(ref) && s[p].ref == Some(ref) && s[p].supersedes == Some(a)
      && forall i :: 0 <= i < |s| && s[i].status == Proposed && s[i].supersedes == Some(a) ==> i == p
  {
    TheOnly(s, ref, Accepted);
    TheOnly(s, ref, Proposed);
    var i :| 0 <= i < |s| && s[i].ref == Some(ref) && s[i].status == Accepted;
    var j :| 0 <= j < |s| && s[j].ref == Some(ref) && s[j].status == Proposed;
    ViewMembers(s, ref, {});
    assert s[i] in RecordsAt(s, ref) && s[j] in RecordsAt(s, ref);
    assert FreshPending(s);
    assert s[j].supersedes.Some?;
  }

  /** A real write of a new text at a contested reference always goes through. */
  lemma ContestedWrites(s: seq<Decision>, bound: set<Id>, req: Request)
    requires Inv(s) && Contested(s, req.ref) && req.anchored && req.status == Proposed && Unseen(s, req.content)
    ensures Classify(s, bound, req, RecordsAt(s, req.ref)).action == SupersededAction
  {
    ContestedPair(s, req.ref);
    ViewMembers(s, req.ref, {});
    assert s[AcceptedId(s, req.ref).value] in RecordsAt(s, req.ref);
    ClassifyAnchored(s, bound, req, RecordsAt(s, req.ref));
  }

  lemma WrittenStaysContested(s: seq<Decision>, bound: set<Id>, req: Request)
    requires Inv(s) && Contested(s, req.ref) && req.anchored && req.status == Proposed && Unseen(s, req.content)
    ensures Write(s, bound, req).Ok? && Write(s, bound, req).value.action == SupersededAction
    ensures var t := Write(s, bound, req).value.decisions;
      && Inv(t) && Contested(t, req.ref)
      && forall c :: Unseen(s, c) && c != req.content ==> Unseen(t, c)
  {
    ContestedWrites(s, bound, req);
    ContestedPair(s, req.ref);
    WriteReplaces(s, bound, req);
    WriteKeepsInv(s, bound, req);
    var t := Write(s, bound, req).value.decisions;
    var d, p := NewRecord(s, req), PendingId(s, req.ref);
    var a := AcceptedId(s, req.ref).value;
    assert t[a] == Replaced(s, p, d, a) == s[a];
    assert t[|s|] == d;
    forall c | Unseen(s, c) && c != req.content ensures Unseen(t, c) {
      forall i | 0 <= i < |t| ensures t[i].content != c {
        assert i < |s| ==> t[i] == Replaced(s, p, d, i);
      }
    }
  }

  /** The dry run's memory after its first write at a contested reference. */
  lemma ShadowAfterFirst(s: seq<Decision>, bound: set<Id>, req: Request)
    requires Inv(s) && Contested(s, req.ref) && req.anchored && req.status == Proposed && Unseen(s, req.content)
    ensures var (sh, action) := DryStep(s, bound, Shadow(map[], |s|), req);
      && action == SupersededAction && req.ref in sh.wouldBe && PendingId(s, req.ref).Some?
      && sh.wouldBe[req.ref] == Without(RecordsAt(s, req.ref), {PendingId(s, req.ref).value}) + [NewRecord(s, req)]
  {
    ContestedWrites(s, bound, req);
    ContestedPair(s, req.ref);
    ClassifyWrites(s, bound, req);
    assert {PendingId(s, req.ref).value} + {} == {PendingId(s, req.ref).value};
  }

  lemma {:induction false} WithoutMembers(ds: seq<Decision>, gone: set<Id>)
    ensures forall x :: x in Without(ds, gone) <==> x in ds && x.id !in gone
  {
    if ds != [] {
      WithoutMembers(ds[..|ds| - 1], gone);
      assert ds == ds[..|ds| - 1] + [ds[|ds| - 1]];
    }
  }

  /** What that memory holds: the accepted record, the new proposal, and nothing of a
      text neither the store nor the proposal has. */
  lemma {:induction false} MemoryAfterFirst(s: seq<Decision>, ref: string, d: Decision, c: Content)
    requires Inv(s) && Contested(s, ref) && d.status == Proposed && Unseen(s, c) && d.content != c
    ensures AcceptedId(s, ref).Some? && PendingId(s, ref).Some? && AcceptedId(s, ref).value < |s|
    ensures var ds := Without(RecordsAt(s, ref), {PendingId(s, ref).value}) + [d];
      && FirstOf(ds, Accepted) == Some(s[AcceptedId(s, ref).value])
      && FirstOf(ds, Proposed) == Some(d)
      && FirstMatch(ds, c, false).None? && forall x :: x in ds ==> WriteStatus(x.status)
  {
    ContestedPair(s, ref);
    ViewMembers(s, ref, {});
    var a, p := AcceptedId(s, ref).value, PendingId(s, ref).value;
    var kept := Without(RecordsAt(s, ref), {p});
    WithoutMembers(RecordsAt(s, ref), {p});
    var ds := kept + [d];
    assert s[a] in RecordsAt(s, ref);
    assert forall x :: x in ds <==> x in kept || x == d;
    assert s[a] in ds && d in ds;
    forall x | x in kept ensures x.status != Proposed && (x.status == Accepted ==> x == s[a]) && x.content != c {
      assert s[x.id] == x;
      TheOnly(s, ref, Accepted);
      TheOnly(s, ref, Proposed);
    }
  }

  /** It then refuses the second document, which the real run writes. */
  lemma SecondRefused(s: seq<Decision>, bound: set<Id>, first: Request, second: Request)
    requires Inv(s) && Contested(s, first.ref) && first.anchored && first.status == Proposed
    requires second.ref == first.ref && second.anchored && second.status == Proposed
    requires Unseen(s, first.content) && Unseen(s, second.content) && first.content != second.content
    ensures DryStep(s, bound, DryStep(s, bound, Shadow(map[], |s|), first).0, second).1 == SkippedPending
  {
    ContestedPair(s, first.ref);
    ShadowAfterFirst(s, bound, first);
    var d := NewRecord(s, first);
    MemoryAfterFirst(s, first.ref, d, second.content);
    var a := AcceptedId(s, first.ref).value;
    assert PendingSuccessor(s, a, Some(d.id)).Some?;
    ClassifyAnchored(s, bound, second, Without(RecordsAt(s, first.ref), {PendingId(s, first.ref).value}) + [d]);
  }

  /** A dry run of two documents, step by step. */
  lemma {:induction false} DryPair(s: seq<Decision>, bound: set<Id>, first: Request, second: Request)
    ensures var (sh, action) := DryStep(s, bound, Shadow(map[], |s|), first);
      DryOf(s, bound, [first, second]).actions == [action, DryStep(s, bound, sh, second).1]
  {
    assert [first, second][..1] == [first] && [first][..0] == [];
    assert DryOf(s, bound, []) == DryRun(Shadow(map[], |s|), []);
    var (sh, action) := DryStep(s, bound, Shadow(map[], |s|), first);
    assert DryOf(s, bound, [first]) == DryRun(sh, [action]);
  }

  lemma {:induction false} RealPair(s: seq<Decision>, bound: set<Id>, first: Request, second: Request)
    requires Write(s, bound, first).Ok?
    requires var r := Write(s, bound, first).value; Write(r.decisions, r.bound, second).Ok?
    ensures var r := Write(s, bound, first).value;
      RealOf(s, bound, [first, second]).actions
        == [Some(r.action), Some(Write(r.decisions, r.bound, second).value.action)]
  {
    assert [first, second][..1] == [first] && [first][..0] == [];
    assert RealOf(s, bound, []) == RealRun(s, bound, {}, []);
    var r := Write(s, bound, first).value;
    var one := RealOf(s, bound, [first]);
    assert one.decisions == r.decisions && one.bound == r.bound && one.actions == [Some(r.action)];
  }

  /** COUNTEREXAMPLE.  At any contested reference, two proposed documents of new text are
      both written by the real run, while the dry run refuses the second: it asks the
      unchanged store for pending successors. */
  lemma {:induction false} ContestedMisleads(s: seq<Decision>, bound: set<Id>, first: Request, second: Request)
    requires Inv(s) && Contested(s, first.ref) && first.anchored && first.status == Proposed
    requires second.ref == first.ref && second.anchored && second.status == Proposed
    requires Unseen(s, first.content) && Unseen(s, second.content) && first.content != second.content
    ensures DryOf(s, bound, [first, second]).actions == [SupersededAction, SkippedPending]
    ensures RealOf(s, bound, [first, second]).actions == [Some(SupersededAction), Some(SupersededAction)]
  {
    DryPair(s, bound, first, second);
    ShadowAfterFirst(s, bound, first);
    SecondRefused(s, bound, first, second);
    WrittenStaysContested(s, bound, first);
    var r := Write(s, bound, first).value;
    WrittenStaysContested(r.decisions, r.bound, second);
    RealPair(s, bound, first, second);
  }

  function TitleBound(s: seq<Decision>): (n: nat)
    ensures forall i :: 0 <= i < |s| ==> |s[i].content.title| < n
  {
    if s == [] then 0
    else
      var rest := TitleBound(s[..|s| - 1]);
      var len := |s[|s| - 1].content.title|;
      assert forall i :: 0 <= i < |s| - 1 ==> s[..|s| - 1][i] == s[i];
      if len < rest then rest else len + 1
  }

  function NewText(n: nat): Content {
    Content(seq(n, i => 'x'), "", "", None, None)
  }

  predicate AllAt(docs: seq<Request>, ref: string) {
    forall k :: 0 <= k < |docs| ==> docs[k].ref == ref
  }

  lemma {:induction false} LongTextUnseen(s: seq<Decision>, n: nat)
    requires n >= TitleBound(s)
    ensures Unseen(s, NewText(n))
  {
  }

  lemma Disagree(dry: seq<Action>, done: seq<Option<Action>>)
    requires dry == [SupersededAction, SkippedPending] && done == [Some(SupersededAction), Some(SupersededAction)]
    ensures !SameActions(dry, done)
  {
    assert done[1] != Some(dry[1]);
  }

  lemma ContestedWitness(s: seq<Decision>, bound: set<Id>, ref: string) returns (docs: seq<Request>)
    requires Inv(s) && Contested(s, ref)
    ensures OwnAnchored(docs) && AllAt(docs, ref)
    ensures !SameActions(DryOf(s, bound, docs).actions, RealOf(s, bound, docs).actions)
  {
    var n := TitleBound(s);
    var first := Request(ref, NewText(n), Proposed, true, false);
    var second := Request(ref, NewText(n + 1), Proposed, true, false);
    LongTextUnseen(s, n);
    LongTextUnseen(s, n + 1);
    assert |first.content.title| != |second.content.title|;
    ContestedMisleads(s, bound, first, second);
    docs := [first, second];
    Disagree(DryOf(s, bound, docs).actions, RealOf(s, bound, docs).actions);
  }

  /** MAIN RESULT.  The dry run tells the truth about every sequence of such documents at
      a reference if and only if the store does not hold both an accepted record and a
      pending proposal there. */
  lemma DryRunExact(s: seq<Decision>, bound: set<Id>, ref: string)
    requires Inv(s)
    ensures (forall docs :: OwnAnchored(docs) && AllAt(docs, ref) ==>
               SameActions(DryOf(s, bound, docs).actions, RealOf(s, bound, docs).actions))
            <==> !Contested(s, ref)
  {
    if Contested(s, ref) {
      var docs := ContestedWitness(s, bound, ref);
    } else {
      forall docs | OwnAnchored(docs) && AllAt(docs, ref)
        ensures SameActions(DryOf(s, bound, docs).actions, RealOf(s, bound, docs).actions)
      {
        DryRunSimulates(s, bound, docs);
      }
    }
  }
}
