/**
  The dry run of document import: it writes nothing, and classifies a reference met
  again against its own memory of what a real run would hold there by now.
 */
module DocDryRun {
  import opened Wrappers
  import opened DocStore
  import opened DocImport
  import opened DocRuns

  /** `would_be`, and the id the next would-be record takes. */
  datatype Shadow = Shadow(wouldBe: map<string, seq<Decision>>, next: Id)

  function Without(ds: seq<Decision>, gone: set<Id>): seq<Decision> {
    if ds == [] then []
    else
      var n := |ds| - 1;
      Without(ds[..n], gone) + if ds[n].id in gone then [] else [ds[n]]
  }

  function DroppedSet(pend: Option<Id>): set<Id> {
    if pend.Some? then {pend.value} else {}
  }

  function ClosedSet(d: Decision): set<Id> {
    if d.supersedes.Some? && d.status != Proposed then {d.supersedes.value} else {}
  }

  /** `_records_after_write`: the dropped proposal and a closed predecessor leave, the new
      record joins. */
  function RecordsAfterWrite(ds: seq<Decision>, pending: Option<Decision>, d: Decision): seq<Decision> {
    Without(ds, DroppedSet(if pending.Some? then Some(pending.value.id) else None) + ClosedSet(d)) + [d]
  }

  /** `_doc_existing` in a dry run. */
  function Existing(s: seq<Decision>, sh: Shadow, ref: string): seq<Decision> {
    if ref in sh.wouldBe then sh.wouldBe[ref] else RecordsAt(s, ref)
  }

  /** One document of a dry run over the unchanged store `s`. */
  function DryStep(s: seq<Decision>, bound: set<Id>, sh: Shadow, req: Request): (Shadow, Action) {
    var ds := Existing(s, sh, req.ref);
    var disp := Classify(s, bound, req, ds);
    if Writes(disp.action) then
      var d := BuildDecision(req, disp, sh.next);
      (Shadow(sh.wouldBe[req.ref := RecordsAfterWrite(ds, disp.pending, d)], sh.next + 1), disp.action)
    else (sh, disp.action)
  }

  datatype DryRun = DryRun(shadow: Shadow, actions: seq<Action>)

  function DryOf(s: seq<Decision>, bound: set<Id>, docs: seq<Request>): DryRun {
    if docs == [] then DryRun(Shadow(map[], |s|), [])
    else
      var before := DryOf(s, bound, docs[..|docs| - 1]);
      var (sh, action) := DryStep(s, bound, before.shadow, docs[|docs| - 1]);
      DryRun(sh, before.actions + [action])
  }

  /** The real run: the store, and per document its action (None if the store refused it).
      `gone` collects the proposals this run dropped. */
  datatype RealRun = RealRun(decisions: seq<Decision>, bound: set<Id>, gone: set<Id>, actions: seq<Option<Action>>)

  function GoneAfter(t: seq<Decision>, gone: set<Id>, ref: string, action: Action): set<Id> {
    var pend := PendingId(t, ref);
    if Writes(action) && pend.Some? then gone + {pend.value} else gone
  }

  function RealOf(s: seq<Decision>, bound: set<Id>, docs: seq<Request>): RealRun {
    if docs == [] then RealRun(s, bound, {}, [])
    else
      var before := RealOf(s, bound, docs[..|docs| - 1]);
      var req := docs[|docs| - 1];
      var r := Write(before.decisions, before.bound, req);
      if r.Err? then before.(actions := before.actions + [None])
      else
        RealRun(r.value.decisions, r.value.bound,
          GoneAfter(before.decisions, before.gone, req.ref, r.value.action), before.actions + [Some(r.value.action)])
  }

  /** Documents of the manual policy: accepted or proposed, each with its own anchor. */
  predicate OwnAnchored(docs: seq<Request>) {
    forall k :: 0 <= k < |docs| ==> docs[k].anchored && (docs[k].status == Accepted || docs[k].status == Proposed)
  }

  predicate SameActions(dry: seq<Action>, done: seq<Option<Action>>) {
    |dry| == |done| && forall k :: 0 <= k < |dry| ==> done[k] == Some(dry[k])
  }

  predicate HasStatusAt(s: seq<Decision>, ref: string, st: Status) {
    exists i :: 0 <= i < |s| && s[i].ref == Some(ref) && s[i].status == st
  }

  /** A reference that holds an accepted record and a pending proposal. */
  predicate Contested(s: seq<Decision>, ref: string) {
    HasStatusAt(s, ref, Accepted) && HasStatusAt(s, ref, Proposed)
  }

  /* ---- the simulation ---- */

  /** The shadow remembers, per reference it wrote, the store's records minus `gone`. */
  ghost predicate Remembers(wouldBe: map<string, seq<Decision>>, t: seq<Decision>, gone: set<Id>) {
    forall ref :: ref in wouldBe ==> wouldBe[ref] == View(t, ref, gone)
  }

  /** Outside the references `written`, the real run's store `t` is the store `s` it
      started from; `gone` are proposals it dropped. */
  ghost predicate Follows(s: seq<Decision>, t: seq<Decision>, written: set<string>, gone: set<Id>) {
    && |s| <= |t|
    && (forall i :: 0 <= i < |t| && (t[i].ref.None? || t[i].ref.value !in written) ==> i < |s| && t[i] == s[i])
    && (forall i :: 0 <= i < |s| ==> t[i].ref == s[i].ref && t[i].supersedes == s[i].supersedes)
    && (forall i :: i in gone ==> i < |t| && t[i].status == Rejected && t[i].ref.Some? && t[i].ref.value in written)
  }

  /** The dry run's shadow beside the real run's store `t`, started from `s`. */
  ghost predicate Simulates(s: seq<Decision>, sh: Shadow, t: seq<Decision>, gone: set<Id>) {
    sh.next == |t| && Remembers(sh.wouldBe, t, gone) && Follows(s, t, sh.wouldBe.Keys, gone)
  }

  lemma {:induction false} WithoutSnoc(ds: seq<Decision>, d: Decision, gone: set<Id>)
    ensures Without(ds + [d], gone) == Without(ds, gone) + if d.id in gone then [] else [d]
  {
    assert (ds + [d])[..|ds|] == ds;
  }

  lemma {:induction false} ViewUntouched(s: seq<Decision>, t: seq<Decision>, ref: string, gone: set<Id>)
    requires |s| <= |t|
    requires forall i :: 0 <= i < |t| ==> t[i].id == i
    requires forall i :: 0 <= i < |t| && t[i].ref == Some(ref) ==> i < |s| && t[i] == s[i] && i !in gone
    requires forall i :: 0 <= i < |s| && s[i].ref == Some(ref) ==> t[i] == s[i]
    ensures View(t, ref, gone) == View(s, ref, {})
  {
    if t != [] {
      var n := |t| - 1;
      var s' := if |s| == |t| then s[..n] else s;
      assert forall i :: 0 <= i < n ==> t[..n][i] == t[i];
      assert forall i :: 0 <= i < |s'| ==> s'[i] == s[i];
      ViewUntouched(s', t[..n], ref, gone);
    }
  }

  lemma {:induction false} ViewWithout(t: seq<Decision>, ref: string, gone: set<Id>)
    ensures View(t, ref, gone) == Without(View(t, ref, {}), gone)
  {
    if t != [] {
      var n := |t| - 1;
      ViewWithout(t[..n], ref, gone);
      var front := View(t[..n], ref, {});
      WithoutSnoc(front, t[n], gone);
      assert front + [] == front;
    }
  }

  predicate Shown(d: Decision, ref: string, gone: set<Id>) {
    d.ref == Some(ref) && WriteStatus(d.status) && d.id !in gone
  }

  /** If position by position `t` shows what `s` shows except for the ids in `cut`, so does its view. */
  lemma {:induction false} ViewCut(s: seq<Decision>, t: seq<Decision>, ref: string, gone: set<Id>, after: set<Id>,
      cut: set<Id>)
    requires |s| == |t|
    requires forall i :: 0 <= i < |s| ==> (Shown(t[i], ref, after) <==> Shown(s[i], ref, gone) && s[i].id !in cut)
    requires forall i :: 0 <= i < |s| && Shown(t[i], ref, after) ==> t[i] == s[i]
    ensures View(t, ref, after) == Without(View(s, ref, gone), cut)
  {
    if s != [] {
      var n := |s| - 1;
      ViewCut(s[..n], t[..n], ref, gone, after, cut);
      var front := View(s[..n], ref, gone);
      WithoutSnoc(front, s[n], cut);
      assert front + [] == front;
    }
  }

  lemma ShownAfter(s: seq<Decision>, pend: Option<Id>, d: Decision, ref: string, gone: set<Id>, i: nat)
    requires Numbered(s) && i < |s|
    ensures Shown(Replaced(s, pend, d, i), ref, gone + DroppedSet(pend))
        <==> Shown(s[i], ref, gone) && s[i].id !in DroppedSet(pend) + ClosedSet(d)
    ensures Shown(Replaced(s, pend, d, i), ref, gone + DroppedSet(pend)) ==> Replaced(s, pend, d, i) == s[i]
  {
  }

  lemma {:induction false} ViewWritten(s: seq<Decision>, pend: Option<Id>, d: Decision, ref: string, gone: set<Id>)
    requires Numbered(s) && Replaceable(s, pend, d) && d.ref == Some(ref) && (forall i :: i in gone ==> i < |s|)
    ensures View(Replace(s, pend, d), ref, gone + DroppedSet(pend))
         == Without(View(s, ref, gone), DroppedSet(pend) + ClosedSet(d)) + [d]
  {
    var t := Replace(s, pend, d);
    var t' := t[..|s|];
    forall i | 0 <= i < |s|
      ensures Shown(t'[i], ref, gone + DroppedSet(pend)) <==>
        Shown(s[i], ref, gone) && s[i].id !in DroppedSet(pend) + ClosedSet(d)
      ensures Shown(t'[i], ref, gone + DroppedSet(pend)) ==> t'[i] == s[i]
    {
      assert t'[i] == t[i] == Replaced(s, pend, d, i);
      ShownAfter(s, pend, d, ref, gone, i);
    }
    ViewCut(s, t', ref, gone, gone + DroppedSet(pend), DroppedSet(pend) + ClosedSet(d));
    assert t == t' + [d];
  }

  /** Views at other references do not change. */
  lemma {:induction false} ViewElsewhere(s: seq<Decision>, t: seq<Decision>, ref: string, gone: set<Id>, more: set<Id>)
    requires |s| <= |t| && (forall i :: 0 <= i < |s| ==> s[i].id == i) && (forall i :: 0 <= i < |t| ==> t[i].id == i)
    requires forall i :: 0 <= i < |t| && t[i].ref == Some(ref) ==> i < |s| && t[i] == s[i] && i !in more
    requires forall i :: 0 <= i < |s| && s[i].ref == Some(ref) ==> t[i] == s[i]
    ensures View(t, ref, gone + more) == View(s, ref, gone)
  {
    if t != [] {
      var n := |t| - 1;
      var s' := if |s| == |t| then s[..n] else s;
      assert forall i :: 0 <= i < n ==> t[..n][i] == t[i];
      assert forall i :: 0 <= i < |s'| ==> s'[i] == s[i];
      ViewElsewhere(s', t[..n], ref, gone, more);
    }
  }

  /* ---- one document ---- */

  lemma {:induction false} SameFirst(a: seq<Decision>, b: seq<Decision>, st: Status)
    requires forall x :: x in b && x.status == st ==> x in a
    requires forall x :: x in a && x.status == st ==> x in b
    requires forall x, y :: x in a && y in a && x.status == st && y.status == st ==> x == y
    ensures FirstOf(a, st) == FirstOf(b, st)
  {
  }

  /** What classification of an anchored document depends on. */
  lemma {:induction false} ClassifyAnchored(s: seq<Decision>, bound: set<Id>, req: Request, ds: seq<Decision>)
    requires req.anchored && forall x :: x in ds ==> WriteStatus(x.status)
    ensures Classify(s, bound, req, ds).action == AnchoredAction(s, req, FirstMatch(ds, req.content, false).Some?,
      FirstMatch(ds, req.content, true).Some?, FirstOf(ds, Accepted), FirstOf(ds, Proposed),
        FirstSupersedable(ds).Some?)
  {
  }

  function AnchoredAction(s: seq<Decision>, req: Request, open: bool, rejected: bool, acc: Option<Decision>,
      pend: Option<Decision>, older: bool): Action
  {
    if Skips(req, open, rejected) then SkippedExisting
    else if req.status == Rejected && open && acc.None? then SkippedPending
    else if acc.Some? && PendingSuccessor(s, acc.value.id, if pend.Some? then Some(pend.value.id) else None).Some?
      then SkippedPending
    else if older then SupersededAction
    else Written
  }

  predicate Skips(req: Request, open: bool, rejected: bool) {
    if req.status == Rejected then !open && rejected else open
  }

  /** Whether a document without an anchor of its own finds a record to inherit from. */
  predicate Inherits(bound: set<Id>, req: Request, ds: seq<Decision>) {
    Donor(req, ds).Some? && Donor(req, ds).value.id in bound
  }

  /** What classification of any document depends on. */
  lemma {:induction false} ClassifyAny(s: seq<Decision>, bound: set<Id>, req: Request, ds: seq<Decision>)
    requires forall x :: x in ds ==> WriteStatus(x.status)
    ensures var open, rejected := FirstMatch(ds, req.content, false).Some?, FirstMatch(ds, req.content, true).Some?;
      var acc, pend, older := FirstOf(ds, Accepted), FirstOf(ds, Proposed), FirstSupersedable(ds).Some?;
      Classify(s, bound, req, ds).action ==
        if !Skips(req, open, rejected) && !req.anchored && !Inherits(bound, req, ds) then SkippedUnanchorable
        else AnchoredAction(s, req, open, rejected, acc, pend, older)
  {
  }

  /** The dry run's records at a reference are the store's, minus the dropped proposals. */
  lemma {:induction false} ExistingIsView(s: seq<Decision>, sh: Shadow, t: seq<Decision>, gone: set<Id>, ref: string)
    requires Inv(s) && Inv(t) && Simulates(s, sh, t, gone)
    ensures Existing(s, sh, ref) == View(t, ref, gone)
  {
    if ref !in sh.wouldBe {
      forall i | 0 <= i < |s| && s[i].ref == Some(ref) ensures t[i] == s[i] {
        assert t[i].ref == s[i].ref;
      }
      ViewUntouched(s, t, ref, gone);
    }
  }

  lemma {:induction false} ShadowLists(t: seq<Decision>, ref: string, gone: set<Id>)
    requires Inv(t) && forall i :: i in gone ==> i < |t| && t[i].status == Rejected
    ensures var a, b := RecordsAt(t, ref), View(t, ref, gone);
      && FirstOf(a, Accepted) == FirstOf(b, Accepted) && FirstOf(a, Proposed) == FirstOf(b, Proposed)
      && (forall x :: x in a && x.status != Rejected <==> x in b && x.status != Rejected)
      && (forall x :: x in a ==> WriteStatus(x.status)) && (forall x :: x in b ==> x in a)
  {
    var a, b := RecordsAt(t, ref), View(t, ref, gone);
    ViewMembers(t, ref, {});
    ViewMembers(t, ref, gone);
    TheOnly(t, ref, Accepted);
    TheOnly(t, ref, Proposed);
    SameFirst(a, b, Accepted);
    SameFirst(a, b, Proposed);
  }

  /** Whether another pending successor exists is the same in the store at the start
      and in the real run's store. */
  lemma {:induction false} SamePendingSuccessor(s: seq<Decision>, sh: Shadow, t: seq<Decision>, gone: set<Id>,
      ref: string)
    requires Inv(s) && Inv(t) && Simulates(s, sh, t, gone) && !Contested(s, ref) && AcceptedId(t, ref).Some?
    ensures PendingSuccessor(s, AcceptedId(t, ref).value, PendingId(t, ref)).Some?
        <==> PendingSuccessor(t, AcceptedId(t, ref).value, PendingId(t, ref)).Some?
  {
    TheOnly(t, ref, Accepted);
    TheOnly(t, ref, Proposed);
    var a, p := AcceptedId(t, ref).value, PendingId(t, ref);
    forall x | 0 <= x < |t| && t[x].status == Proposed && t[x].supersedes == Some(a) && p != Some(t[x].id)
      ensures x < |s| && s[x] == t[x]
    {
      assert t[x].ref.None?;
    }
    forall x | 0 <= x < |s| && s[x].status == Proposed && s[x].supersedes == Some(a)
      ensures s[x] == t[x]
    {
      assert t[a].ref == s[a].ref;
    }
  }

  predicate OpenMatch(t: seq<Decision>, ref: string, c: Content) {
    exists i :: 0 <= i < |t| && t[i].ref == Some(ref) && t[i].content == c
      && (t[i].status == Accepted || t[i].status == Proposed)
  }

  predicate RejectedMatch(t: seq<Decision>, ref: string, c: Content, gone: set<Id>) {
    exists i :: 0 <= i < |t| && t[i].ref == Some(ref) && t[i].content == c && t[i].status == Rejected && i !in gone
  }

  /** A rejected document repeats a proposal that this run dropped: the store still holds it as
      a rejected record, the dry run has forgotten it. */
  predicate Forgets(t: seq<Decision>, gone: set<Id>, req: Request) {
    && req.status == Rejected && !OpenMatch(t, req.ref, req.content)
    && RejectedMatch(t, req.ref, req.content, {}) && !RejectedMatch(t, req.ref, req.content, gone)
  }

  /** A document without an anchor of its own finds one to inherit in one of the runs only. */
  predicate Misanchors(bs: set<Id>, t: seq<Decision>, bt: set<Id>, gone: set<Id>, req: Request) {
    && !req.anchored
    && !Skips(req, OpenMatch(t, req.ref, req.content), RejectedMatch(t, req.ref, req.content, {}))
    && Inherits(bs, req, View(t, req.ref, gone)) != Inherits(bt, req, RecordsAt(t, req.ref))
  }

  predicate Misses(bs: set<Id>, t: seq<Decision>, bt: set<Id>, gone: set<Id>, req: Request) {
    Forgets(t, gone, req) || Misanchors(bs, t, bt, gone, req)
  }

  lemma {:induction false} MatchesFound(t: seq<Decision>, ref: string, c: Content, gone: set<Id>)
    requires Numbered(t) && forall i :: i in gone ==> i < |t| && t[i].status == Rejected
    ensures FirstMatch(View(t, ref, gone), c, false).Some? <==> OpenMatch(t, ref, c)
    ensures FirstMatch(View(t, ref, gone), c, true).Some? <==> RejectedMatch(t, ref, c, gone)
  {
    ViewMembers(t, ref, gone);
    if OpenMatch(t, ref, c) {
      var i :| 0 <= i < |t| && t[i].ref == Some(ref) && t[i].content == c
        && (t[i].status == Accepted || t[i].status == Proposed);
      assert t[i] in View(t, ref, gone);
    }
    if i :| 0 <= i < |t| && t[i].ref == Some(ref) && t[i].content == c && t[i].status == Rejected && i !in gone {
      assert t[i] in View(t, ref, gone);
    }
  }

  lemma {:induction false} SameSupersedable(a: seq<Decision>, b: seq<Decision>)
    requires forall x :: x in a && x.status != Rejected <==> x in b && x.status != Rejected
    ensures FirstSupersedable(a).Some? == FirstSupersedable(b).Some?
  {
  }

  /** The dry run classifies a document as the real run does, exactly unless it misses it. */
  lemma {:induction false} SameClassification(s: seq<Decision>, bs: set<Id>, sh: Shadow, t: seq<Decision>, bt: set<Id>,
      gone: set<Id>, req: Request)
    requires Inv(s) && Inv(t) && Simulates(s, sh, t, gone) && !Contested(s, req.ref)
    ensures Classify(s, bs, req, Existing(s, sh, req.ref)).action == Classify(t, bt, req, RecordsAt(t, req.ref)).action
        <==> !Misses(bs, t, bt, gone, req)
  {
    var a, b := RecordsAt(t, req.ref), View(t, req.ref, gone);
    ExistingIsView(s, sh, t, gone, req.ref);
    ShadowLists(t, req.ref, gone);
    SameSupersedable(a, b);
    MatchesFound(t, req.ref, req.content, {});
    MatchesFound(t, req.ref, req.content, gone);
    ClassifyAny(s, bs, req, b);
    ClassifyAny(t, bt, req, a);
    if AcceptedId(t, req.ref).Some? { SamePendingSuccessor(s, sh, t, gone, req.ref); }
  }

  /** The dry run builds the very record the real run appends. */
  lemma SameRecord(s: seq<Decision>, bs: set<Id>, sh: Shadow, t: seq<Decision>, gone: set<Id>, req: Request)
    requires Inv(s) && Inv(t) && Simulates(s, sh, t, gone)
    requires Writes(Classify(s, bs, req, Existing(s, sh, req.ref)).action)
    ensures var disp := Classify(s, bs, req, Existing(s, sh, req.ref));
      && BuildDecision(req, disp, sh.next) == NewRecord(t, req)
      && (disp.pending.Some? <==> PendingId(t, req.ref).Some?)
      && (disp.pending.Some? ==> disp.pending.value.id == PendingId(t, req.ref).value)
  {
    ExistingIsView(s, sh, t, gone, req.ref);
    ShadowLists(t, req.ref, gone);
    ClassifyShape(s, bs, req, View(t, req.ref, gone));
  }

  lemma {:induction false} WrittenElsewhere(t: seq<Decision>, pend: Option<Id>, d: Decision, ref: string, gone: set<Id>)
    requires Numbered(t) && Replaceable(t, pend, d) && d.ref != Some(ref)
    ensures View(Replace(t, pend, d), ref, gone + DroppedSet(pend)) == View(t, ref, gone)
  {
    var t' := Replace(t, pend, d);
    assert forall i :: 0 <= i < |t| ==> t'[i] == Replaced(t, pend, d, i);
    ViewElsewhere(t, t', ref, gone, DroppedSet(pend));
  }

  lemma {:induction false} WriteRemembered(wouldBe: map<string, seq<Decision>>, t: seq<Decision>, pend: Option<Id>,
      d: Decision, gone: set<Id>)
    requires Numbered(t) && Replaceable(t, pend, d) && Remembers(wouldBe, t, gone)
      && (forall i :: i in gone ==> i < |t|)
    ensures
      var after := Without(View(t, d.ref.value, gone), DroppedSet(pend) + ClosedSet(d)) + [d];
      Remembers(wouldBe[d.ref.value := after], Replace(t, pend, d), gone + DroppedSet(pend))
  {
    ViewWritten(t, pend, d, d.ref.value, gone);
    forall ref | ref in wouldBe && ref != d.ref.value
      ensures View(Replace(t, pend, d), ref, gone + DroppedSet(pend)) == wouldBe[ref]
    {
      WrittenElsewhere(t, pend, d, ref, gone);
    }
  }

  lemma WriteFollowed(s: seq<Decision>, t: seq<Decision>, written: set<string>, gone: set<Id>, pend: Option<Id>,
      d: Decision)
    requires Replaceable(t, pend, d) && Follows(s, t, written, gone)
    ensures Follows(s, Replace(t, pend, d), written + {d.ref.value}, gone + DroppedSet(pend))
  {
    var t' := Replace(t, pend, d);
    assert forall i :: 0 <= i < |t| ==> t'[i] == Replaced(t, pend, d, i);
  }

  lemma SkipSimulated(s: seq<Decision>, bs: set<Id>, sh: Shadow, req: Request)
    requires !Writes(Classify(s, bs, req, Existing(s, sh, req.ref)).action)
    ensures DryStep(s, bs, sh, req) == (sh, Classify(s, bs, req, Existing(s, sh, req.ref)).action)
  {
  }

  lemma WriteSimulated(s: seq<Decision>, bs: set<Id>, sh: Shadow, t: seq<Decision>, gone: set<Id>, req: Request)
    requires Inv(s) && Inv(t) && Simulates(s, sh, t, gone) && Replaceable(t, PendingId(t, req.ref), NewRecord(t, req))
    requires Writes(Classify(s, bs, req, Existing(s, sh, req.ref)).action)
    ensures
      var pend := PendingId(t, req.ref);
      Simulates(s, DryStep(s, bs, sh, req).0, Replace(t, pend, NewRecord(t, req)), gone + DroppedSet(pend))
  {
    var d, pend := NewRecord(t, req), PendingId(t, req.ref);
    SameRecord(s, bs, sh, t, gone, req);
    ExistingIsView(s, sh, t, gone, req.ref);
    WriteRemembered(sh.wouldBe, t, pend, d, gone);
    WriteFollowed(s, t, sh.wouldBe.Keys, gone, pend, d);
    var sh' := DryStep(s, bs, sh, req).0;
    assert sh'.wouldBe.Keys == sh.wouldBe.Keys + {req.ref};
  }

  lemma ActionsTaken(s: seq<Decision>, bs: set<Id>, sh: Shadow, t: seq<Decision>, bt: set<Id>, req: Request)
    ensures DryStep(s, bs, sh, req).1 == Classify(s, bs, req, Existing(s, sh, req.ref)).action
    ensures Write(t, bt, req).Ok? ==>
      Write(t, bt, req).value.action == Classify(t, bt, req, RecordsAt(t, req.ref)).action
  {
  }

  lemma StepSimulated(s: seq<Decision>, bs: set<Id>, sh: Shadow, t: seq<Decision>, bt: set<Id>, gone: set<Id>,
      req: Request)
    requires Inv(s) && Inv(t) && Simulates(s, sh, t, gone) && !Contested(s, req.ref)
    requires req.Valid() && !Misses(bs, t, bt, gone, req)
    ensures var r := Write(t, bt, req); var (sh', action) := DryStep(s, bs, sh, req);
      && r.Ok? && r.value.action == action && Inv(r.value.decisions)
      && Simulates(s, sh', r.value.decisions, GoneAfter(t, gone, req.ref, action))
  {
    SameClassification(s, bs, sh, t, bt, gone, req);
    WriteReplaces(t, bt, req);
    WriteKeepsInv(t, bt, req);
    ActionsTaken(s, bs, sh, t, bt, req);
    var action := Classify(s, bs, req, Existing(s, sh, req.ref)).action;
    if Writes(action) {
      WriteSimulated(s, bs, sh, t, gone, req);
      assert gone + {} == gone;
    } else {
      SkipSimulated(s, bs, sh, req);
    }
  }

  predicate AllValid(docs: seq<Request>) {
    forall k :: 0 <= k < |docs| ==> docs[k].Valid()
  }

  /** Documents of any status, each with its own anchor. */
  predicate Anchored(docs: seq<Request>) {
    forall k :: 0 <= k < |docs| ==> docs[k].anchored && docs[k].Valid()
  }

  ghost predicate Uncontested(s: seq<Decision>, docs: seq<Request>) {
    forall k :: 0 <= k < |docs| ==> !Contested(s, docs[k].ref)
  }

  /** The document at `k` is one the dry run is wrong about, given the real run so far. */
  ghost predicate MissesAt(s: seq<Decision>, bound: set<Id>, docs: seq<Request>, k: nat)
    requires k < |docs|
  {
    var done := RealOf(s, bound, docs[..k]);
    Misses(bound, done.decisions, done.bound, done.gone, docs[k])
  }

  ghost predicate NeverMisses(s: seq<Decision>, bound: set<Id>, docs: seq<Request>) {
    forall k: nat :: k < |docs| ==> !MissesAt(s, bound, docs, k)
  }

  ghost predicate Simulated(s: seq<Decision>, bound: set<Id>, docs: seq<Request>) {
    var dry, done := DryOf(s, bound, docs), RealOf(s, bound, docs);
    && SameActions(dry.actions, done.actions) && Inv(done.decisions)
    && Simulates(s, dry.shadow, done.decisions, done.gone)
  }

  lemma SameInFront(s: seq<Decision>, bound: set<Id>, docs: seq<Request>, n: nat, k: nat)
    requires k < n <= |docs|
    ensures MissesAt(s, bound, docs[..n], k) == MissesAt(s, bound, docs, k)
  {
    assert docs[..n][..k] == docs[..k] && docs[..n][k] == docs[k];
  }

  lemma FrontNeverMisses(s: seq<Decision>, bound: set<Id>, docs: seq<Request>, n: nat)
    requires n <= |docs| && NeverMisses(s, bound, docs)
    ensures NeverMisses(s, bound, docs[..n])
  {
    forall k: nat | k < n ensures !MissesAt(s, bound, docs[..n], k) {
      SameInFront(s, bound, docs, n, k);
    }
  }

  /** MAIN RESULT.  Under the manual policy, for every sequence of documents, none at a contested
      reference and none missed, the dry run gives each document the action of the real run, and
      its shadow records are the store's minus the proposals dropped in that run. */
  lemma {:induction false} DryRunSimulates(s: seq<Decision>, bound: set<Id>, docs: seq<Request>)
    requires Inv(s) && AllValid(docs) && Uncontested(s, docs) && NeverMisses(s, bound, docs)
    ensures Simulated(s, bound, docs)
  {
    if docs != [] {
      var n := |docs| - 1;
      FrontNeverMisses(s, bound, docs, n);
      DryRunSimulates(s, bound, docs[..n]);
      var dry, done := DryOf(s, bound, docs[..n]), RealOf(s, bound, docs[..n]);
      assert !MissesAt(s, bound, docs, n);
      StepSimulated(s, bound, dry.shadow, done.decisions, done.bound, done.gone, docs[n]);
    }
  }

  lemma MissStep(s: seq<Decision>, bs: set<Id>, sh: Shadow, t: seq<Decision>, bt: set<Id>, gone: set<Id>, req: Request)
    requires Inv(s) && Inv(t) && Simulates(s, sh, t, gone) && !Contested(s, req.ref)
    requires req.Valid() && Misses(bs, t, bt, gone, req)
    ensures Write(t, bt, req).Ok? && Write(t, bt, req).value.action != DryStep(s, bs, sh, req).1
  {
    SameClassification(s, bs, sh, t, bt, gone, req);
    WriteReplaces(t, bt, req);
    ActionsTaken(s, bs, sh, t, bt, req);
  }

  lemma {:induction false} LastActions(s: seq<Decision>, bound: set<Id>, docs: seq<Request>, dry: DryRun, done: RealRun)
    requires docs != [] && dry == DryOf(s, bound, docs[..|docs| - 1]) && done == RealOf(s, bound, docs[..|docs| - 1])
    requires Write(done.decisions, done.bound, docs[|docs| - 1]).Ok?
    ensures DryOf(s, bound, docs).actions == dry.actions + [DryStep(s, bound, dry.shadow, docs[|docs| - 1]).1]
    ensures RealOf(s, bound, docs).actions
         == done.actions + [Some(Write(done.decisions, done.bound, docs[|docs| - 1]).value.action)]
  {
  }

  lemma LastDiffers(a: seq<Action>, x: Action, b: seq<Option<Action>>, y: Action)
    requires |a| == |b| && x != y
    ensures !SameActions(a + [x], b + [Some(y)])
  {
    assert (a + [x])[|a|] == x && (b + [Some(y)])[|a|] == Some(y);
  }

  lemma {:induction false} MissShows(s: seq<Decision>, bound: set<Id>, docs: seq<Request>)
    requires Inv(s) && AllValid(docs) && Uncontested(s, docs) && docs != []
    requires Simulated(s, bound, docs[..|docs| - 1]) && MissesAt(s, bound, docs, |docs| - 1)
    ensures !SameActions(DryOf(s, bound, docs).actions, RealOf(s, bound, docs).actions)
  {
    var n := |docs| - 1;
    var dry, done, req := DryOf(s, bound, docs[..n]), RealOf(s, bound, docs[..n]), docs[n];
    MissStep(s, bound, dry.shadow, done.decisions, done.bound, done.gone, req);
    LastActions(s, bound, docs, dry, done);
    LastDiffers(dry.actions, DryStep(s, bound, dry.shadow, req).1, done.actions,
      Write(done.decisions, done.bound, req).value.action);
  }

  /** A disagreement stays: later documents only append. */
  lemma {:induction false} FrontAgrees(s: seq<Decision>, bound: set<Id>, docs: seq<Request>)
    requires docs != [] && SameActions(DryOf(s, bound, docs).actions, RealOf(s, bound, docs).actions)
    ensures SameActions(DryOf(s, bound, docs[..|docs| - 1]).actions, RealOf(s, bound, docs[..|docs| - 1]).actions)
  {
    var dry, done := DryOf(s, bound, docs[..|docs| - 1]).actions, RealOf(s, bound, docs[..|docs| - 1]).actions;
    var dry', done' := DryOf(s, bound, docs).actions, RealOf(s, bound, docs).actions;
    assert |dry'| == |dry| + 1 && |done'| == |done| + 1;
    forall k | 0 <= k < |dry| ensures done[k] == Some(dry[k]) {
      assert dry'[k] == dry[k] && done'[k] == done[k];
    }
  }

  lemma FirstMiss(s: seq<Decision>, bound: set<Id>, docs: seq<Request>, n: nat, k: nat)
    requires |docs| == n + 1 && k < |docs| && MissesAt(s, bound, docs, k) && NeverMisses(s, bound, docs[..n])
    ensures k == n
  {
    if k < n { SameInFront(s, bound, docs, n, k); }
  }

  /** MAIN RESULT.  At uncontested references the preview of any documents is right exactly when
      none of them is missed. */
  lemma {:induction false} DryRunExactly(s: seq<Decision>, bound: set<Id>, docs: seq<Request>)
    requires Inv(s) && AllValid(docs) && Uncontested(s, docs)
    ensures SameActions(DryOf(s, bound, docs).actions, RealOf(s, bound, docs).actions) <==> NeverMisses(s, bound, docs)
  {
    if NeverMisses(s, bound, docs) {
      DryRunSimulates(s, bound, docs);
    } else {
      var n := |docs| - 1;
      DryRunExactly(s, bound, docs[..n]);
      if NeverMisses(s, bound, docs[..n]) {
        DryRunSimulates(s, bound, docs[..n]);
        var k: nat :| k < |docs| && MissesAt(s, bound, docs, k);
        FirstMiss(s, bound, docs, n, k);
        MissShows(s, bound, docs);
      } else if SameActions(DryOf(s, bound, docs).actions, RealOf(s, bound, docs).actions) {
        FrontAgrees(s, bound, docs);
      }
    }
  }

  /** Read off the simulation: what the shadow holds at each reference it remembers. */
  lemma {:induction false} ShadowIsStoreMinusDropped(s: seq<Decision>, bound: set<Id>, docs: seq<Request>, ref: string)
    requires Inv(s) && AllValid(docs) && Uncontested(s, docs) && NeverMisses(s, bound, docs)
    requires ref in DryOf(s, bound, docs).shadow.wouldBe
    ensures var done := RealOf(s, bound, docs);
      && DryOf(s, bound, docs).shadow.wouldBe[ref] == Without(RecordsAt(done.decisions, ref), done.gone)
      && forall i :: i in done.gone ==> i < |done.decisions| && done.decisions[i].status == Rejected
  {
    DryRunSimulates(s, bound, docs);
    ViewWithout(RealOf(s, bound, docs).decisions, ref, RealOf(s, bound, docs).gone);
  }
}
