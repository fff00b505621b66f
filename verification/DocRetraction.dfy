/** Previewing rejected documents: when the dry run forgets a proposal the real run dropped. */
module DocRetraction {
  import opened Wrappers
  import opened DocStore
  import opened DocImport
  import opened DocRuns
  import opened DocDryRun
  import opened DocPreview

  /* ---- writing a new proposal ---- */

  /** No pending record but that of the reference supersedes its accepted record. */
  predicate Free(s: seq<Decision>, ref: string) {
    AcceptedId(s, ref).Some? ==> PendingSuccessor(s, AcceptedId(s, ref).value, PendingId(s, ref)).None?
  }

  predicate NewProposal(s: seq<Decision>, req: Request) {
    req.anchored && req.status == Proposed && Unseen(s, req.content)
  }

  /** `t` is `s` with the pending record dropped and the proposal of `req` added. */
  ghost predicate Adds(s: seq<Decision>, req: Request, t: seq<Decision>) {
    && |t| == |s| + 1 && t[|s|] == NewRecord(s, req)
    && forall i :: 0 <= i < |s| ==> t[i] == Replaced(s, PendingId(s, req.ref), NewRecord(s, req), i)
  }

  lemma {:induction false} ProposalWrites(s: seq<Decision>, bound: set<Id>, req: Request)
    requires Inv(s) && NewProposal(s, req) && Free(s, req.ref)
    ensures var r := Write(s, bound, req);
      r.Ok? && Writes(r.value.action) && Adds(s, req, r.value.decisions) && Inv(r.value.decisions)
  {
    ViewMembers(s, req.ref, {});
    ClassifyAnchored(s, bound, req, RecordsAt(s, req.ref));
    WriteReplaces(s, bound, req);
    WriteKeepsInv(s, bound, req);
  }

  lemma {:induction false} ProposalIsPending(s: seq<Decision>, req: Request, t: seq<Decision>)
    requires Inv(s) && Inv(t) && NewProposal(s, req) && Adds(s, req, t)
    ensures PendingId(t, req.ref) == Some(|s|)
  {
    TheOnly(t, req.ref, Proposed);
  }

  lemma {:induction false} ProposalStaysFree(s: seq<Decision>, req: Request, t: seq<Decision>)
    requires Inv(s) && Inv(t) && NewProposal(s, req) && Free(s, req.ref) && Adds(s, req, t)
    ensures Free(t, req.ref)
  {
    TheOnly(s, req.ref, Accepted);
    TheOnly(t, req.ref, Accepted);
    ProposalIsPending(s, req, t);
  }

  lemma StillUnseen(s: seq<Decision>, req: Request, t: seq<Decision>, c: Content)
    requires Adds(s, req, t) && Unseen(s, c) && c != req.content
    ensures Unseen(t, c)
  {
  }

  /* ---- two proposals and the retraction of the first ---- */

  /** One more new proposal in a real run. */
  lemma {:induction false} ProposalRuns(s: seq<Decision>, bound: set<Id>, docs: seq<Request>, req: Request)
    requires var t := RealOf(s, bound, docs).decisions; Inv(t) && NewProposal(t, req) && Free(t, req.ref)
    ensures var before, after := RealOf(s, bound, docs), RealOf(s, bound, docs + [req]);
      && Inv(after.decisions) && Adds(before.decisions, req, after.decisions)
      && after.gone == before.gone + DroppedSet(PendingId(before.decisions, req.ref))
  {
    var before := RealOf(s, bound, docs);
    assert (docs + [req])[..|docs|] == docs;
    ProposalWrites(before.decisions, before.bound, req);
    assert before.gone + {} == before.gone;
  }

  /** A document that repeats the text of a rejected record the run dropped, the only one of its text. */
  lemma RepeatMisses(t: seq<Decision>, gone: set<Id>, req: Request, dropped: Id)
    requires dropped < |t| && dropped in gone && req.status == Rejected
    requires t[dropped].ref == Some(req.ref) && t[dropped].status == Rejected && t[dropped].content == req.content
    requires forall i :: 0 <= i < |t| && i != dropped && t[i].ref == Some(req.ref) && t[i].content == req.content ==>
      !WriteStatus(t[i].status)
    ensures Forgets(t, gone, req)
  {
  }

  /** The second of two new proposals leaves the first as a rejected record of its text. */
  lemma {:induction false} SecondDrops(s: seq<Decision>, first: Request, t: seq<Decision>, second: Request,
      u: seq<Decision>)
    requires Inv(s) && Inv(t) && NewProposal(s, first) && Adds(s, first, t) && Adds(t, second, u)
    requires second.ref == first.ref && second.content != first.content
    ensures PendingId(t, first.ref) == Some(|s|) && |u| == |s| + 2
    ensures u[|s|].ref == Some(first.ref) && u[|s|].status == Rejected && u[|s|].content == first.content
    ensures forall i :: 0 <= i < |u| && i != |s| ==> u[i].content != first.content
  {
    ProposalIsPending(s, first, t);
    assert u[|s|] == Replaced(t, Some(|s|), NewRecord(t, second), |s|);
    forall i | 0 <= i < |u| && i != |s| ensures u[i].content != first.content {
      if i < |s| { assert u[i].content == t[i].content == s[i].content; }
    }
  }

  lemma {:induction false} TwoProposals(s: seq<Decision>, bound: set<Id>, first: Request, second: Request)
    requires Inv(s) && NewProposal(s, first) && NewProposal(s, second) && Free(s, first.ref)
    requires second.ref == first.ref && second.content != first.content
    ensures var t, done := RealOf(s, bound, [first]).decisions, RealOf(s, bound, [first, second]);
      Inv(t) && Adds(s, first, t) && Adds(t, second, done.decisions) && |s| in done.gone
  {
    assert RealOf(s, bound, []) == RealRun(s, bound, {}, []);
    assert [] + [first] == [first] && [first] + [second] == [first, second];
    ProposalRuns(s, bound, [], first);
    var t := RealOf(s, bound, [first]).decisions;
    ProposalStaysFree(s, first, t);
    StillUnseen(s, first, t, second.content);
    ProposalRuns(s, bound, [first], second);
    ProposalIsPending(s, first, t);
  }

  lemma {:induction false} RetractionMisses(s: seq<Decision>, bound: set<Id>, first: Request, second: Request,
      third: Request)
    requires Inv(s) && NewProposal(s, first) && NewProposal(s, second) && Free(s, first.ref)
    requires second.ref == first.ref && second.content != first.content
    requires third.ref == first.ref && third.content == first.content && third.status == Rejected
    ensures MissesAt(s, bound, [first, second, third], 2)
  {
    var t, done := RealOf(s, bound, [first]).decisions, RealOf(s, bound, [first, second]);
    TwoProposals(s, bound, first, second);
    SecondDrops(s, first, t, second, done.decisions);
    RepeatMisses(done.decisions, done.gone, third, |s|);
    assert [first, second, third][..2] == [first, second];
  }

  /** COUNTEREXAMPLE.  At any uncontested, free reference: two proposals of new text, then a
      document that rejects the first.  The real run skips it as existing; the dry run does not. */
  lemma {:induction false} RetractionMisleads(s: seq<Decision>, bound: set<Id>, first: Request, second: Request,
      third: Request)
    requires Inv(s) && NewProposal(s, first) && NewProposal(s, second) && Free(s, first.ref) && !Contested(s, first.ref)
    requires second.ref == first.ref && second.content != first.content
    requires third.ref == first.ref && third.content == first.content && third.status == Rejected && third.anchored
    ensures var docs := [first, second, third];
      !SameActions(DryOf(s, bound, docs).actions, RealOf(s, bound, docs).actions)
  {
    RetractionMisses(s, bound, first, second, third);
    DryRunExactly(s, bound, [first, second, third]);
  }

  /* ---- any documents with their own anchors ---- */

  /** At a reference that is not free, nothing is ever written. */
  lemma {:induction false} HeldWritesNothing(s: seq<Decision>, bound: set<Id>, ref: string, docs: seq<Request>)
    requires Inv(s) && Anchored(docs) && AllAt(docs, ref) && !Free(s, ref)
    ensures RealOf(s, bound, docs).decisions == s && RealOf(s, bound, docs).gone == {}
  {
    if docs != [] {
      var n := |docs| - 1;
      HeldWritesNothing(s, bound, ref, docs[..n]);
      var before := RealOf(s, bound, docs[..n]);
      ViewMembers(s, ref, {});
      ClassifyAnchored(s, before.bound, docs[n], RecordsAt(s, ref));
      WriteReplaces(s, before.bound, docs[n]);
    }
  }

  lemma ContestedIsFree(s: seq<Decision>, ref: string)
    requires Inv(s) && Contested(s, ref)
    ensures Free(s, ref)
  {
    ContestedPair(s, ref);
  }

  lemma {:induction false} HeldIsTrusted(s: seq<Decision>, bound: set<Id>, ref: string, docs: seq<Request>)
    requires Inv(s) && Anchored(docs) && AllAt(docs, ref) && !Free(s, ref)
    ensures SameActions(DryOf(s, bound, docs).actions, RealOf(s, bound, docs).actions)
  {
    if Contested(s, ref) { ContestedIsFree(s, ref); }
    forall k: nat | k < |docs| ensures !MissesAt(s, bound, docs, k) {
      HeldWritesNothing(s, bound, ref, docs[..k]);
    }
    DryRunExactly(s, bound, docs);
  }

  function Proposal(ref: string, n: nat): Request {
    Request(ref, NewText(n), Proposed, true, false)
  }

  lemma {:induction false} NewProposals(s: seq<Decision>, ref: string, n: nat)
    requires n >= TitleBound(s)
    ensures NewProposal(s, Proposal(ref, n))
  {
    LongTextUnseen(s, n);
  }

  /** Two proposals and the retraction of the first. */
  function Retraction(ref: string, n: nat): seq<Request> {
    [Proposal(ref, n), Proposal(ref, n + 1), Proposal(ref, n).(status := Rejected)]
  }

  lemma {:induction false} RetractionWitness(s: seq<Decision>, bound: set<Id>, ref: string, n: nat)
    requires Inv(s) && Free(s, ref) && !Contested(s, ref) && n >= TitleBound(s)
    ensures !SameActions(DryOf(s, bound, Retraction(ref, n)).actions, RealOf(s, bound, Retraction(ref, n)).actions)
  {
    NewProposals(s, ref, n);
    NewProposals(s, ref, n + 1);
    assert |NewText(n).title| != |NewText(n + 1).title|;
    RetractionMisleads(s, bound, Proposal(ref, n), Proposal(ref, n + 1), Proposal(ref, n).(status := Rejected));
  }

  lemma RetractionIsAnchored(ref: string, n: nat)
    ensures Anchored(Retraction(ref, n)) && AllAt(Retraction(ref, n), ref)
  {
  }

  lemma OwnIsAnchored(docs: seq<Request>)
    requires OwnAnchored(docs)
    ensures Anchored(docs)
  {
  }

  lemma FreeWitness(s: seq<Decision>, bound: set<Id>, ref: string) returns (docs: seq<Request>)
    requires Inv(s) && Free(s, ref)
    ensures Anchored(docs) && AllAt(docs, ref)
    ensures !SameActions(DryOf(s, bound, docs).actions, RealOf(s, bound, docs).actions)
  {
    if Contested(s, ref) {
      docs := ContestedWitness(s, bound, ref);
      OwnIsAnchored(docs);
    } else {
      RetractionIsAnchored(ref, TitleBound(s));
      RetractionWitness(s, bound, ref, TitleBound(s));
      docs := Retraction(ref, TitleBound(s));
    }
  }

  /** MAIN RESULT.  Every sequence of documents of any status with their own anchors is
      previewed right if and only if nothing can be written there: a pending record outside
      the reference supersedes its accepted record. */
  lemma PreviewsAllExactly(s: seq<Decision>, bound: set<Id>, ref: string)
    requires Inv(s)
    ensures (forall docs :: Anchored(docs) && AllAt(docs, ref) ==>
               SameActions(DryOf(s, bound, docs).actions, RealOf(s, bound, docs).actions))
            <==> !Free(s, ref)
  {
    if Free(s, ref) {
      var docs := FreeWitness(s, bound, ref);
    } else {
      forall docs | Anchored(docs) && AllAt(docs, ref)
        ensures SameActions(DryOf(s, bound, docs).actions, RealOf(s, bound, docs).actions)
      {
        HeldIsTrusted(s, bound, ref, docs);
      }
    }
  }

  /* ---- documents that take nothing back ---- */

  predicate StoredAs(s: seq<Decision>, ref: string, c: Content, st: Status) {
    exists i :: 0 <= i < |s| && s[i].ref == Some(ref) && s[i].content == c && s[i].status == st
  }

  predicate ProposedIn(docs: seq<Request>, ref: string, c: Content) {
    exists j :: 0 <= j < |docs| && docs[j].ref == ref && docs[j].content == c && docs[j].status == Proposed
  }

  /** Where a proposal the run drops can come from. */
  predicate Origin(s: seq<Decision>, docs: seq<Request>, ref: string, c: Content) {
    StoredAs(s, ref, c, Proposed) || ProposedIn(docs, ref, c)
  }

  /** What a real run over `docs` makes of the store `s`, as far as dropped proposals go. */
  ghost predicate Traced(s: seq<Decision>, docs: seq<Request>, t: seq<Decision>, gone: set<Id>) {
    && |s| <= |t|
    && (forall i :: 0 <= i < |s| ==>
          && t[i].ref == s[i].ref && t[i].content == s[i].content
          && (s[i].status == Rejected ==> t[i].status == Rejected)
            && (t[i].status == Proposed ==> s[i].status == Proposed))
    && (forall i :: i in gone ==> i < |t| && (i < |s| ==> s[i].status == Proposed))
    && (forall i :: 0 <= i < |t| && t[i].ref.Some? && (t[i].status == Proposed || i in gone) ==>
          Origin(s, docs, t[i].ref.value, t[i].content))
  }

  lemma OriginGrows(s: seq<Decision>, docs: seq<Request>, req: Request, ref: string, c: Content)
    ensures Origin(s, docs, ref, c) ==> Origin(s, docs + [req], ref, c)
    ensures req.status == Proposed ==> Origin(s, docs + [req], req.ref, req.content)
  {
    assert (docs + [req])[|docs|] == req;
    if j :| 0 <= j < |docs| && docs[j].ref == ref && docs[j].content == c && docs[j].status == Proposed {
      assert (docs + [req])[j] == docs[j];
    }
  }

  lemma TracedSkip(s: seq<Decision>, docs: seq<Request>, t: seq<Decision>, gone: set<Id>, req: Request)
    requires Traced(s, docs, t, gone)
    ensures Traced(s, docs + [req], t, gone)
  {
    forall i | 0 <= i < |t| && t[i].ref.Some? && (t[i].status == Proposed || i in gone)
      ensures Origin(s, docs + [req], t[i].ref.value, t[i].content)
    {
      OriginGrows(s, docs, req, t[i].ref.value, t[i].content);
    }
  }

  lemma TracedWrite(s: seq<Decision>, docs: seq<Request>, t: seq<Decision>, gone: set<Id>, req: Request,
      pend: Option<Id>, d: Decision)
    requires Traced(s, docs, t, gone) && Replaceable(t, pend, d)
    requires d.ref == Some(req.ref) && d.content == req.content && d.status == req.status
    ensures Traced(s, docs + [req], Replace(t, pend, d), gone + DroppedSet(pend))
  {
    var u := Replace(t, pend, d);
    assert forall i :: 0 <= i < |t| ==> u[i] == Replaced(t, pend, d, i);
    forall i | 0 <= i < |u| && u[i].ref.Some? && (u[i].status == Proposed || i in gone + DroppedSet(pend))
      ensures Origin(s, docs + [req], u[i].ref.value, u[i].content)
    {
      OriginGrows(s, docs, req, u[i].ref.value, u[i].content);
    }
  }

  lemma {:induction false} TracedRun(s: seq<Decision>, bound: set<Id>, docs: seq<Request>)
    requires Inv(s) && AllValid(docs)
    ensures var done := RealOf(s, bound, docs); Inv(done.decisions) && Traced(s, docs, done.decisions, done.gone)
  {
    if docs == [] {
      forall i | 0 <= i < |s| && s[i].ref.Some? && s[i].status == Proposed
        ensures Origin(s, docs, s[i].ref.value, s[i].content)
      {
        assert StoredAs(s, s[i].ref.value, s[i].content, Proposed);
      }
    } else {
      var n := |docs| - 1;
      TracedRun(s, bound, docs[..n]);
      TracedNext(s, bound, docs[..n], docs[n]);
      assert docs[..n] + [docs[n]] == docs;
    }
  }

  lemma {:induction false} TracedNext(s: seq<Decision>, bound: set<Id>, docs: seq<Request>, req: Request)
    requires var done := RealOf(s, bound, docs); Inv(done.decisions) && Traced(s, docs, done.decisions, done.gone)
    requires req.Valid()
    ensures var done := RealOf(s, bound, docs + [req]);
      Inv(done.decisions) && Traced(s, docs + [req], done.decisions, done.gone)
  {
    var before := RealOf(s, bound, docs);
    var t, r := before.decisions, Write(before.decisions, before.bound, req);
    assert (docs + [req])[..|docs|] == docs;
    WriteReplaces(t, before.bound, req);
    WriteKeepsInv(t, before.bound, req);
    var after := RealOf(s, bound, docs + [req]);
    assert after.decisions == r.value.decisions;
    if Writes(r.value.action) {
      var pend, d := PendingId(t, req.ref), NewRecord(t, req);
      TracedWrite(s, docs, t, before.gone, req, pend, d);
      assert before.gone + {} == before.gone;
      assert after.gone == before.gone + DroppedSet(pend);
    } else {
      TracedSkip(s, docs, t, before.gone, req);
    }
  }

  lemma TracedNoMiss(s: seq<Decision>, docs: seq<Request>, t: seq<Decision>, gone: set<Id>, req: Request)
    requires Traced(s, docs, t, gone)
    requires StoredAs(s, req.ref, req.content, Rejected) || !Origin(s, docs, req.ref, req.content)
    ensures !Forgets(t, gone, req)
  {
    if StoredAs(s, req.ref, req.content, Rejected) {
      var j :| 0 <= j < |s| && s[j].ref == Some(req.ref) && s[j].content == req.content && s[j].status == Rejected;
      assert t[j].status == Rejected && j !in gone;
    }
  }

  /** No rejected document repeats a proposal stored at the start or made earlier in the run,
      unless a rejected record of its text was stored at the start. */
  predicate Remembered(s: seq<Decision>, docs: seq<Request>) {
    forall k :: 0 <= k < |docs| && docs[k].status == Rejected ==>
      StoredAs(s, docs[k].ref, docs[k].content, Rejected) || !Origin(s, docs[..k], docs[k].ref, docs[k].content)
  }

  /* ---- documents whose anchors were stored before ---- */

  predicate Refers(docs: seq<Request>, ref: string) {
    exists j :: 0 <= j < |docs| && docs[j].ref == ref
  }

  /** A document without an anchor of its own is the first of the run at its reference. */
  predicate InheritsStored(docs: seq<Request>) {
    forall k :: 0 <= k < |docs| && !docs[k].anchored ==> !Refers(docs[..k], docs[k].ref)
  }

  lemma RefersGrows(docs: seq<Request>, req: Request, ref: string)
    ensures Refers(docs + [req], ref) <==> Refers(docs, ref) || req.ref == ref
  {
    assert (docs + [req])[|docs|] == req;
    if j :| 0 <= j < |docs| && docs[j].ref == ref {
      assert (docs + [req])[j] == docs[j];
    }
  }

  lemma BoundAfter(t: seq<Decision>, bound: set<Id>, req: Request, bound': set<Id>)
    requires Write(t, bound, req).Ok? && bound' == Write(t, bound, req).value.bound
    ensures bound' == bound || bound' == bound + {|t|}
            || exists d :: d in RecordsAt(t, req.ref) && bound' == bound + {d.id}
  {
    var disp := Classify(t, bound, req, RecordsAt(t, req.ref));
    if disp.action == SkippedExisting { assert disp.matched.value in RecordsAt(t, req.ref); }
  }

  /** A write binds only the new record, or a record at the reference. */
  lemma {:induction false} BindsHere(t: seq<Decision>, bound: set<Id>, req: Request, i: nat)
    requires Numbered(t) && Write(t, bound, req).Ok? && i < |t| && t[i].ref != Some(req.ref)
    ensures i in Write(t, bound, req).value.bound <==> i in bound
  {
    BoundAfter(t, bound, req, Write(t, bound, req).value.bound);
    ViewMembers(t, req.ref, {});
  }

  /** A real run leaves the bindings of other references alone, a dry run forms no memory of them. */
  ghost predicate Elsewhere(s: seq<Decision>, bound: set<Id>, docs: seq<Request>) {
    var dry, done := DryOf(s, bound, docs), RealOf(s, bound, docs);
    && (forall ref :: ref in dry.shadow.wouldBe ==> Refers(docs, ref))
    && (forall i :: 0 <= i < |s| && s[i].ref.Some? && !Refers(docs, s[i].ref.value) ==>
          (i in done.bound <==> i in bound))
  }

  lemma ElsewhereStart(s: seq<Decision>, bound: set<Id>)
    ensures Elsewhere(s, bound, [])
  {
  }

  lemma {:induction false} ElsewhereRun(s: seq<Decision>, bound: set<Id>, docs: seq<Request>)
    requires Inv(s) && AllValid(docs)
    ensures Elsewhere(s, bound, docs)
  {
    if docs == [] {
      ElsewhereStart(s, bound);
    } else {
      var front, last := docs[..|docs| - 1], docs[|docs| - 1];
      assert docs == front + [last];
      ElsewhereRun(s, bound, front);
      TracedRun(s, bound, front);
      ElsewhereNext(s, bound, front, last);
    }
  }

  lemma {:induction false} ElsewhereNext(s: seq<Decision>, bound: set<Id>, docs: seq<Request>, req: Request)
    requires Elsewhere(s, bound, docs) && req.Valid()
    requires var done := RealOf(s, bound, docs); Inv(done.decisions) && Traced(s, docs, done.decisions, done.gone)
    ensures Elsewhere(s, bound, docs + [req])
  {
    var dry, done := DryOf(s, bound, docs), RealOf(s, bound, docs);
    var t := done.decisions;
    assert (docs + [req])[..|docs|] == docs;
    WriteReplaces(t, done.bound, req);
    forall ref | ref in DryOf(s, bound, docs + [req]).shadow.wouldBe ensures Refers(docs + [req], ref) {
      RefersGrows(docs, req, ref);
    }
    forall i | 0 <= i < |s| && s[i].ref.Some? && !Refers(docs + [req], s[i].ref.value)
      ensures i in RealOf(s, bound, docs + [req]).bound <==> i in bound
    {
      RefersGrows(docs, req, s[i].ref.value);
      BindsHere(t, done.bound, req, i);
    }
  }

  /** At a reference the run has not touched both runs still see the stored records. */
  lemma {:induction false} UntouchedViews(s: seq<Decision>, sh: Shadow, t: seq<Decision>, gone: set<Id>, ref: string)
    requires Inv(s) && Inv(t) && Simulates(s, sh, t, gone) && ref !in sh.wouldBe
    ensures View(t, ref, gone) == RecordsAt(t, ref) == RecordsAt(s, ref)
  {
    forall i | 0 <= i < |s| && s[i].ref == Some(ref) ensures t[i] == s[i] {
      assert t[i].ref == s[i].ref;
    }
    ViewUntouched(s, t, ref, gone);
    ViewUntouched(s, t, ref, {});
  }

  lemma {:induction false} SameDonor(s: seq<Decision>, bs: set<Id>, bt: set<Id>, req: Request)
    requires Inv(s) && forall i :: 0 <= i < |s| && s[i].ref == Some(req.ref) ==> (i in bt <==> i in bs)
    ensures Inherits(bs, req, RecordsAt(s, req.ref)) == Inherits(bt, req, RecordsAt(s, req.ref))
  {
    ViewMembers(s, req.ref, {});
  }

  lemma {:induction false} FirstIsAnchoredAlike(s: seq<Decision>, bound: set<Id>, docs: seq<Request>, req: Request)
    requires Inv(s) && AllValid(docs) && Simulated(s, bound, docs) && !Refers(docs, req.ref)
    ensures var done := RealOf(s, bound, docs); !Misanchors(bound, done.decisions, done.bound, done.gone, req)
  {
    var dry, done := DryOf(s, bound, docs), RealOf(s, bound, docs);
    ElsewhereRun(s, bound, docs);
    UntouchedViews(s, dry.shadow, done.decisions, done.gone, req.ref);
    SameDonor(s, bound, done.bound, req);
  }

  lemma NotMissedInFront(s: seq<Decision>, bound: set<Id>, docs: seq<Request>, n: nat, k: nat)
    requires k < n <= |docs| && NeverMisses(s, bound, docs[..n])
    ensures !MissesAt(s, bound, docs, k)
  {
    SameInFront(s, bound, docs, n, k);
    var front := docs[..n];
    assert !MissesAt(s, bound, front, k);
  }

  lemma NotMissedAt(s: seq<Decision>, bound: set<Id>, docs: seq<Request>, n: nat, k: nat)
    requires k < |docs| == n + 1 && NeverMisses(s, bound, docs[..n]) && (k == n ==> !MissesAt(s, bound, docs, k))
    ensures !MissesAt(s, bound, docs, k)
  {
    if k != n { NotMissedInFront(s, bound, docs, n, k); }
  }

  lemma OneMoreNotMissed(s: seq<Decision>, bound: set<Id>, docs: seq<Request>, n: nat)
    requires |docs| == n + 1 && NeverMisses(s, bound, docs[..n]) && !MissesAt(s, bound, docs, n)
    ensures NeverMisses(s, bound, docs)
  {
    forall k: nat | k < |docs| ensures !MissesAt(s, bound, docs, k) {
      NotMissedAt(s, bound, docs, n, k);
    }
  }

  lemma {:induction false} RememberedNeverMisses(s: seq<Decision>, bound: set<Id>, docs: seq<Request>)
    requires Inv(s) && AllValid(docs) && Uncontested(s, docs) && Remembered(s, docs) && InheritsStored(docs)
    ensures NeverMisses(s, bound, docs)
  {
    if docs != [] {
      var n := |docs| - 1;
      RememberedFront(s, docs, n);
      RememberedNeverMisses(s, bound, docs[..n]);
      RememberedLast(s, bound, docs, n);
      OneMoreNotMissed(s, bound, docs, n);
    }
  }

  lemma RememberedLast(s: seq<Decision>, bound: set<Id>, docs: seq<Request>, n: nat)
    requires Inv(s) && AllValid(docs) && Uncontested(s, docs) && Remembered(s, docs) && InheritsStored(docs)
    requires |docs| == n + 1 && NeverMisses(s, bound, docs[..n])
    ensures !MissesAt(s, bound, docs, n)
  {
    DryRunSimulates(s, bound, docs[..n]);
    TracedRun(s, bound, docs[..n]);
    LastNotMissed(s, bound, docs[..n], docs[n]);
  }

  lemma RememberedFront(s: seq<Decision>, docs: seq<Request>, n: nat)
    requires n <= |docs| && Remembered(s, docs) && InheritsStored(docs)
    ensures Remembered(s, docs[..n]) && InheritsStored(docs[..n])
  {
    forall k | 0 <= k < n ensures docs[..n][..k] == docs[..k] && docs[..n][k] == docs[k] {
    }
  }

  lemma {:induction false} LastNotMissed(s: seq<Decision>, bound: set<Id>, docs: seq<Request>, req: Request)
    requires Inv(s) && AllValid(docs) && Simulated(s, bound, docs)
    requires var done := RealOf(s, bound, docs); Traced(s, docs, done.decisions, done.gone)
    requires req.status == Rejected ==>
      StoredAs(s, req.ref, req.content, Rejected) || !Origin(s, docs, req.ref, req.content)
    requires !req.anchored ==> !Refers(docs, req.ref)
    ensures var done := RealOf(s, bound, docs); !Misses(bound, done.decisions, done.bound, done.gone, req)
  {
    var done := RealOf(s, bound, docs);
    if req.status == Rejected { TracedNoMiss(s, docs, done.decisions, done.gone, req); }
    if !req.anchored { FirstIsAnchoredAlike(s, bound, docs, req); }
  }

  /** MAIN RESULT.  The same, from conditions that can be read off the store and the documents. */
  lemma PreviewsRemembered(s: seq<Decision>, bound: set<Id>, docs: seq<Request>)
    requires Inv(s) && AllValid(docs) && Uncontested(s, docs) && Remembered(s, docs) && InheritsStored(docs)
    ensures Simulated(s, bound, docs)
  {
    RememberedNeverMisses(s, bound, docs);
    DryRunSimulates(s, bound, docs);
  }

  /** No rejected document repeats a proposal made earlier in the run. */
  predicate TakesNothingBack(docs: seq<Request>) {
    forall k :: 0 <= k < |docs| && docs[k].status == Rejected ==> !ProposedIn(docs[..k], docs[k].ref, docs[k].content)
  }

  /** A pending record is stored at the reference, and no rejected one of its text. */
  predicate Forgettable(s: seq<Decision>, ref: string) {
    exists i :: 0 <= i < |s| && s[i].ref == Some(ref) && s[i].status == Proposed
      && !StoredAs(s, ref, s[i].content, Rejected)
  }

  lemma {:induction false} PendingAlone(s: seq<Decision>, ref: string, i: nat)
    requires Inv(s) && !Contested(s, ref) && i < |s| && s[i].ref == Some(ref) && s[i].status == Proposed
    ensures PendingId(s, ref) == Some(i) && AcceptedId(s, ref).None?
    ensures forall j :: 0 <= j < |s| && j != i && s[j].ref == Some(ref) ==>
      s[j].status != Accepted && s[j].status != Proposed
  {
    TheOnly(s, ref, Proposed);
    TheOnly(s, ref, Accepted);
    assert HasStatusAt(s, ref, Proposed) && !HasStatusAt(s, ref, Accepted);
  }

  /** A new proposal and then the rejection of the pending record it dropped. */
  lemma {:induction false} ForgottenMisses(s: seq<Decision>, bound: set<Id>, first: Request, second: Request, i: nat)
    requires Inv(s) && !Contested(s, first.ref) && NewProposal(s, first)
    requires i < |s| && s[i].ref == Some(first.ref) && s[i].status == Proposed
      && !StoredAs(s, first.ref, s[i].content, Rejected)
    requires second.ref == first.ref && second.content == s[i].content && second.status == Rejected
    ensures MissesAt(s, bound, [first, second], 1)
  {
    PendingAlone(s, first.ref, i);
    assert RealOf(s, bound, []) == RealRun(s, bound, {}, []);
    assert [] + [first] == [first] && [first, second][..1] == [first];
    ProposalRuns(s, bound, [], first);
    var done := RealOf(s, bound, [first]);
    var t := done.decisions;
    forall j | 0 <= j < |t| && j != i && t[j].ref == Some(first.ref) && t[j].content == second.content
      ensures !WriteStatus(t[j].status)
    {
      if j < |s| { assert t[j] == s[j]; }
    }
    RepeatMisses(t, done.gone, second, i);
  }

  /** A new proposal and a document that rejects `c`. */
  function Rejection(ref: string, n: nat, c: Content): seq<Request> {
    [Proposal(ref, n), Request(ref, c, Rejected, true, false)]
  }

  lemma RejectionKeeps(ref: string, n: nat, c: Content)
    requires c != NewText(n)
    ensures Anchored(Rejection(ref, n, c)) && AllAt(Rejection(ref, n, c), ref) && TakesNothingBack(Rejection(ref, n, c))
  {
    assert Rejection(ref, n, c)[..1] == [Proposal(ref, n)];
  }

  lemma {:induction false} RejectionMisleads(s: seq<Decision>, bound: set<Id>, ref: string, n: nat, i: nat)
    requires Inv(s) && !Contested(s, ref) && n >= TitleBound(s)
    requires i < |s| && s[i].ref == Some(ref) && s[i].status == Proposed && !StoredAs(s, ref, s[i].content, Rejected)
    ensures var docs := Rejection(ref, n, s[i].content);
      !SameActions(DryOf(s, bound, docs).actions, RealOf(s, bound, docs).actions)
  {
    NewProposals(s, ref, n);
    ForgottenMisses(s, bound, Proposal(ref, n), Request(ref, s[i].content, Rejected, true, false), i);
    DryRunExactly(s, bound, Rejection(ref, n, s[i].content));
  }

  lemma ForgottenWitness(s: seq<Decision>, bound: set<Id>, ref: string) returns (docs: seq<Request>)
    requires Inv(s) && !Contested(s, ref) && Forgettable(s, ref)
    ensures Anchored(docs) && AllAt(docs, ref) && TakesNothingBack(docs)
    ensures !SameActions(DryOf(s, bound, docs).actions, RealOf(s, bound, docs).actions)
  {
    var i :| 0 <= i < |s| && s[i].ref == Some(ref) && s[i].status == Proposed
      && !StoredAs(s, ref, s[i].content, Rejected);
    var n := TitleBound(s);
    docs := Rejection(ref, n, s[i].content);
    LongTextUnseen(s, n);
    RejectionKeeps(ref, n, s[i].content);
    RejectionMisleads(s, bound, ref, n, i);
  }

  /** MAIN RESULT.  Every sequence of documents with their own anchors that takes back no
      proposal of its own is previewed right if and only if the reference is not contested and
      holds no pending record the dry run could forget. */
  lemma PreviewsKeepingExactly(s: seq<Decision>, bound: set<Id>, ref: string)
    requires Inv(s)
    ensures (forall docs :: Anchored(docs) && AllAt(docs, ref) && TakesNothingBack(docs) ==>
               SameActions(DryOf(s, bound, docs).actions, RealOf(s, bound, docs).actions))
            <==> !Contested(s, ref) && !Forgettable(s, ref)
  {
    if Contested(s, ref) {
      var docs := ContestedWitness(s, bound, ref);
    } else if Forgettable(s, ref) {
      var docs := ForgottenWitness(s, bound, ref);
    } else {
      forall docs: seq<Request> | Anchored(docs) && AllAt(docs, ref) && TakesNothingBack(docs)
        ensures SameActions(DryOf(s, bound, docs).actions, RealOf(s, bound, docs).actions)
      {
        KeepingRemembered(s, ref, docs);
        PreviewsRemembered(s, bound, docs);
      }
    }
  }

  lemma KeepingRemembered(s: seq<Decision>, ref: string, docs: seq<Request>)
    requires AllAt(docs, ref) && TakesNothingBack(docs) && !Forgettable(s, ref)
    ensures Remembered(s, docs)
  {
    forall c | StoredAs(s, ref, c, Proposed) ensures StoredAs(s, ref, c, Rejected) {
      var i :| 0 <= i < |s| && s[i].ref == Some(ref) && s[i].content == c && s[i].status == Proposed;
    }
  }

  /* ---- documents that inherit their anchors ---- */

  lemma {:induction false} OnlyOpenMatch(ds: seq<Decision>, d: Decision)
    requires d in ds && d.status == Proposed && forall x :: x in ds && x.content == d.content ==> x == d
    ensures FirstMatch(ds, d.content, false) == Some(d) && PreferredMatch(ds, d.content) == Some(d)
  {
  }

  /** What the dry run holds after a new proposal. */
  lemma {:induction false} DryProposal(s: seq<Decision>, bound: set<Id>, req: Request)
    requires Inv(s) && NewProposal(s, req) && Free(s, req.ref)
    ensures var sh := DryStep(s, bound, Shadow(map[], |s|), req).0;
      && req.ref in sh.wouldBe && NewRecord(s, req) in sh.wouldBe[req.ref]
      && forall x :: x in sh.wouldBe[req.ref] && x.content == req.content ==> x == NewRecord(s, req)
  {
    ViewMembers(s, req.ref, {});
    ClassifyAnchored(s, bound, req, RecordsAt(s, req.ref));
    ClassifyWrites(s, bound, req);
    var disp, d := Classify(s, bound, req, RecordsAt(s, req.ref)), NewRecord(s, req);
    var gone := DroppedSet(if disp.pending.Some? then Some(disp.pending.value.id) else None) + ClosedSet(d);
    WithoutMembers(RecordsAt(s, req.ref), gone);
    var ds := RecordsAfterWrite(RecordsAt(s, req.ref), disp.pending, d);
    assert ds == Without(RecordsAt(s, req.ref), gone) + [d];
    assert ds[|ds| - 1] == d;
  }

  lemma {:induction false} InheritsOrNot(s: seq<Decision>, bound: set<Id>, req: Request, ds: seq<Decision>, d: Decision)
    requires !req.anchored && req.status == Rejected && PreferredMatch(ds, req.content) == Some(d)
      && d.status == Proposed
    ensures Classify(s, bound, req, ds).action == SkippedUnanchorable <==> d.id !in bound
  {
  }

  lemma {:induction false} DryInherits(s: seq<Decision>, bound: set<Id>, first: Request, second: Request)
    requires Inv(s) && (forall i :: i in bound ==> i < |s|) && NewProposal(s, first) && Free(s, first.ref)
    requires second == first.(status := Rejected, anchored := false)
    ensures DryStep(s, bound, DryStep(s, bound, Shadow(map[], |s|), first).0, second).1 == SkippedUnanchorable
  {
    var sh, d := DryStep(s, bound, Shadow(map[], |s|), first).0, NewRecord(s, first);
    DryProposal(s, bound, first);
    OnlyOpenMatch(sh.wouldBe[first.ref], d);
    InheritsOrNot(s, bound, second, sh.wouldBe[first.ref], d);
  }

  lemma WriteBinds(s: seq<Decision>, bound: set<Id>, req: Request)
    requires Write(s, bound, req).Ok? && Writes(Write(s, bound, req).value.action)
    ensures |s| in Write(s, bound, req).value.bound
  {
  }

  lemma {:induction false} AddedAlone(s: seq<Decision>, req: Request, t: seq<Decision>)
    requires Inv(s) && Inv(t) && NewProposal(s, req) && Adds(s, req, t)
    ensures PreferredMatch(RecordsAt(t, req.ref), req.content) == Some(NewRecord(s, req))
  {
    var ds, d := RecordsAt(t, req.ref), NewRecord(s, req);
    ViewMembers(t, req.ref, {});
    assert t[|s|] == d && d in ds;
    forall x | x in ds && x.content == d.content ensures x == d {
      assert t[x.id] == x;
    }
    OnlyOpenMatch(ds, d);
  }

  lemma BoundInherits(t: seq<Decision>, bound: set<Id>, req: Request, d: Decision)
    requires Inv(t) && !req.anchored && req.status == Rejected && d.status == Proposed && d.id in bound
    requires PreferredMatch(RecordsAt(t, req.ref), req.content) == Some(d)
    ensures Write(t, bound, req).Ok? && Write(t, bound, req).value.action != SkippedUnanchorable
  {
    InheritsOrNot(t, bound, req, RecordsAt(t, req.ref), d);
    WriteReplaces(t, bound, req);
  }

  lemma {:induction false} RealInherits(s: seq<Decision>, bound: set<Id>, first: Request, second: Request)
    requires Inv(s) && NewProposal(s, first) && Free(s, first.ref)
      && second == first.(status := Rejected, anchored := false)
    ensures Write(s, bound, first).Ok?
    ensures var r := Write(s, bound, first).value; var again := Write(r.decisions, r.bound, second);
      again.Ok? && again.value.action != SkippedUnanchorable
  {
    ProposalWrites(s, bound, first);
    WriteBinds(s, bound, first);
    AddedAlone(s, first, Write(s, bound, first).value.decisions);
    BoundInherits(Write(s, bound, first).value.decisions, Write(s, bound, first).value.bound, second,
      NewRecord(s, first));
  }

  /** COUNTEREXAMPLE.  A document that rejects the proposal written just before it and has no
      anchor of its own would inherit that record's: the real run finds it bound, the dry run,
      which binds nothing, calls the document unanchorable. */
  lemma {:induction false} InheritedMisleads(s: seq<Decision>, bound: set<Id>, first: Request, second: Request)
    requires Inv(s) && (forall i :: i in bound ==> i < |s|) && NewProposal(s, first) && Free(s, first.ref)
    requires second == first.(status := Rejected, anchored := false)
    ensures var dry, done := DryOf(s, bound, [first, second]).actions, RealOf(s, bound, [first, second]).actions;
      |dry| == |done| == 2 && dry[1] == SkippedUnanchorable && done[1] != Some(SkippedUnanchorable)
  {
    DryInherits(s, bound, first, second);
    RealInherits(s, bound, first, second);
    DryPair(s, bound, first, second);
    RealPair(s, bound, first, second);
  }
}
