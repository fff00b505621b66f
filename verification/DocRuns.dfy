/** Runs of document writes, agent proposals and a human's ratify and drop. */
module DocRuns {
  import opened Wrappers
  import opened DocStore
  import opened DocImport

  /** At most one record of status `st` at each reference. */
  ghost predicate OneOf(s: seq<Decision>, st: Status) {
    forall i, j :: 0 <= i < j < |s| && s[i].ref.Some? && s[i].ref == s[j].ref && s[i].status == st ==> s[j].status != st
  }

  /** A pending record supersedes an accepted one, of its own reference if it has one. */
  ghost predicate PendingTargets(s: seq<Decision>) {
    forall i :: 0 <= i < |s| && s[i].status == Proposed && s[i].supersedes.Some? ==>
      var a := s[i].supersedes.value;
      a < |s| && s[a].status == Accepted && (s[i].ref.Some? ==> s[a].ref == s[i].ref)
  }

  /** A pending record that supersedes nothing has no accepted record at its reference. */
  ghost predicate FreshPending(s: seq<Decision>) {
    forall i, j :: 0 <= i < |s| && 0 <= j < |s| ==>
      s[i].status == Proposed && s[i].ref.Some? && s[i].supersedes.None? && s[j].ref == s[i].ref ==>
        s[j].status != Accepted
  }

  ghost predicate OnePendingSuccessor(s: seq<Decision>) {
    forall i, j ::
      0 <= i < j < |s| && s[i].supersedes.Some? && s[i].supersedes == s[j].supersedes && s[i].status == Proposed
      ==> s[j].status != Proposed
  }

  /** Nothing supersedes a proposal, and an accepted record has no accepted or
      superseded successor. */
  ghost predicate Heads(s: seq<Decision>) {
    forall i :: 0 <= i < |s| && s[i].supersedes.Some? ==>
      var a := s[i].supersedes.value;
      && a < |s| && s[a].status != Proposed
      && ((s[i].status == Accepted || s[i].status == Superseded) ==> s[a].status != Accepted)
  }

  ghost predicate LiveOpen(s: seq<Decision>) {
    forall i :: 0 <= i < |s| && (s[i].status == Accepted || s[i].status == Proposed) ==> s[i].open
  }

  ghost predicate Inv(s: seq<Decision>) {
    && Numbered(s) && LiveOpen(s)
    && OneOf(s, Accepted) && OneOf(s, Proposed)
    && PendingTargets(s) && FreshPending(s) && OnePendingSuccessor(s) && Heads(s)
  }

  /** Append-only growth: no record disappears or changes its content, reference or
      predecessor, and a status moves only forward. */
  ghost predicate Grows(s: seq<Decision>, t: seq<Decision>) {
    && |s| <= |t|
    && forall i :: 0 <= i < |s| ==>
         && t[i].id == s[i].id && t[i].ref == s[i].ref && t[i].content == s[i].content
           && t[i].supersedes == s[i].supersedes
         && (t[i].status == s[i].status
             || (s[i].status == Proposed && (t[i].status == Accepted || t[i].status == Rejected))
             || (s[i].status == Accepted && t[i].status == Superseded))
  }

  /** The first record of a status at a reference is the only one. */
  lemma {:induction false} TheOnly(s: seq<Decision>, ref: string, st: Status)
    requires Numbered(s) && OneOf(s, st) && (st == Accepted || st == Proposed)
    ensures var d := FirstOf(RecordsAt(s, ref), st);
      && (d.Some? ==> d.value.id < |s| && s[d.value.id] == d.value && d.value.ref == Some(ref))
      && (forall i :: 0 <= i < |s| && s[i].ref == Some(ref) && s[i].status == st ==> d == Some(s[i]))
  {
    ViewMembers(s, ref, {});
    var ds := RecordsAt(s, ref);
    forall i | 0 <= i < |s| && s[i].ref == Some(ref) && s[i].status == st ensures FirstOf(ds, st) == Some(s[i]) {
      assert s[i] in ds;
      var d := FirstOf(ds, st).value;
      assert d in ds;
      assert d.id == i;
    }
  }

  function Replaced(s: seq<Decision>, pend: Option<Id>, d: Decision, i: nat): Decision
    requires i < |s|
  {
    if pend == Some(i) then s[i].(status := Rejected, open := false)
    else if d.supersedes == Some(i) && d.status != Proposed then s[i].(status := Superseded, open := false)
    else s[i]
  }

  /** Drop `pend`, append `d`, and close what `d` supersedes unless `d` is pending. */
  function Replace(s: seq<Decision>, pend: Option<Id>, d: Decision): (t: seq<Decision>)
    requires pend.Some? ==> pend.value < |s|
    requires d.supersedes.Some? ==> d.supersedes.value < |s| && d.supersedes != pend
    ensures |t| == |s| + 1 && t[|s|] == d
    ensures forall i :: 0 <= i < |s| ==> t[i] == Replaced(s, pend, d, i)
  {
    var s1 := if pend.Some? then s[pend.value := s[pend.value].(status := Rejected, open := false)] else s;
    var s2 := s1 + [d];
    if d.supersedes.Some? && d.status != Proposed
    then s2[d.supersedes.value := s2[d.supersedes.value].(status := Superseded, open := false)] else s2
  }

  /** `d` may replace the pending record `pend` at its reference. */
  ghost predicate Replaceable(s: seq<Decision>, pend: Option<Id>, d: Decision) {
    && d.id == |s| && d.ref.Some? && WriteStatus(d.status) && (d.status != Rejected ==> d.open)
    && (pend.Some? ==> pend.value < |s| && s[pend.value].ref == d.ref && s[pend.value].status == Proposed)
    && (d.supersedes.Some? ==>
          d.supersedes.value < |s| && s[d.supersedes.value].ref == d.ref && s[d.supersedes.value].status == Accepted)
    && (forall i :: 0 <= i < |s| && s[i].ref == d.ref && s[i].status == Proposed ==> pend == Some(i))
    && (forall i :: 0 <= i < |s| && s[i].ref == d.ref && s[i].status == Accepted ==> d.supersedes == Some(i))
    && (d.supersedes.Some? ==>
          forall i :: 0 <= i < |s| && s[i].status == Proposed && s[i].supersedes == d.supersedes ==> pend == Some(i))
  }

  lemma ReplaceKeepsOne(s: seq<Decision>, pend: Option<Id>, d: Decision, st: Status)
    requires Inv(s) && Replaceable(s, pend, d) && (st == Accepted || st == Proposed)
    ensures OneOf(Replace(s, pend, d), st)
  {
  }

  lemma ReplaceKeepsTargets(s: seq<Decision>, pend: Option<Id>, d: Decision)
    requires Inv(s) && Replaceable(s, pend, d)
    ensures PendingTargets(Replace(s, pend, d))
  {
    var t := Replace(s, pend, d);
    forall i | 0 <= i < |t| && t[i].status == Proposed && t[i].supersedes.Some?
      ensures var a := t[i].supersedes.value;
        a < |t| && t[a].status == Accepted && (t[i].ref.Some? ==> t[a].ref == t[i].ref)
    {
      if i < |s| {
        assert t[i] == s[i] && pend != Some(i);
        assert d.supersedes != s[i].supersedes;
      }
    }
  }

  lemma ReplaceKeepsFresh(s: seq<Decision>, pend: Option<Id>, d: Decision)
    requires Inv(s) && Replaceable(s, pend, d)
    ensures FreshPending(Replace(s, pend, d))
  {
    var t := Replace(s, pend, d);
    forall i, j | 0 <= i < |t| && 0 <= j < |t| && t[i].status == Proposed && t[i].ref.Some? && t[i].supersedes.None?
      && t[j].ref == t[i].ref
      ensures t[j].status != Accepted
    {
      if i < |s| {
        assert t[i] == s[i] && pend != Some(i);
        if j < |s| { assert s[j].status != Accepted; }
      } else if j < |s| {
        assert s[j].status != Accepted;
      }
    }
  }

  lemma ReplaceKeepsOnePending(s: seq<Decision>, pend: Option<Id>, d: Decision)
    requires Inv(s) && Replaceable(s, pend, d)
    ensures OnePendingSuccessor(Replace(s, pend, d))
  {
  }

  lemma ReplaceKeepsHeads(s: seq<Decision>, pend: Option<Id>, d: Decision)
    requires Inv(s) && Replaceable(s, pend, d)
    ensures Heads(Replace(s, pend, d))
  {
    var t := Replace(s, pend, d);
    forall i | 0 <= i < |t| && t[i].supersedes.Some?
      ensures var a := t[i].supersedes.value;
        && a < |t| && t[a].status != Proposed
        && ((t[i].status == Accepted || t[i].status == Superseded) ==> t[a].status != Accepted)
    {
      if i < |s| {
        var a := s[i].supersedes.value;
        assert t[a] == Replaced(s, pend, d, a);
        assert t[i].supersedes == s[i].supersedes;
      }
    }
  }

  /** The shape of a replacement. */
  ghost predicate Replacement(s: seq<Decision>, pend: Option<Id>, d: Decision, t: seq<Decision>) {
    && |t| == |s| + 1 && t[|s|] == d && d.id == |s| && (d.status != Rejected ==> d.open)
    && (pend.Some? ==> pend.value < |s| && s[pend.value].status == Proposed)
    && (d.supersedes.Some? ==> d.supersedes.value < |s| && s[d.supersedes.value].status == Accepted)
    && forall i :: 0 <= i < |s| ==> t[i] == Replaced(s, pend, d, i)
  }

  lemma ReplacementNumbered(s: seq<Decision>, pend: Option<Id>, d: Decision, t: seq<Decision>)
    requires Numbered(s) && Replacement(s, pend, d, t)
    ensures Numbered(t)
  {
    forall i | 0 <= i < |t| ensures t[i].id == i && (t[i].supersedes.Some? ==> t[i].supersedes.value < i) {
      if i < |s| { assert t[i] == Replaced(s, pend, d, i); }
    }
  }

  lemma ReplacementOpen(s: seq<Decision>, pend: Option<Id>, d: Decision, t: seq<Decision>)
    requires LiveOpen(s) && Replacement(s, pend, d, t)
    ensures LiveOpen(t)
  {
    forall i | 0 <= i < |t| && (t[i].status == Accepted || t[i].status == Proposed) ensures t[i].open {
      if i < |s| { assert t[i] == Replaced(s, pend, d, i); }
    }
  }

  lemma ReplacementGrows(s: seq<Decision>, pend: Option<Id>, d: Decision, t: seq<Decision>)
    requires Replacement(s, pend, d, t)
    ensures Grows(s, t)
  {
    forall i | 0 <= i < |s| ensures t[i] == Replaced(s, pend, d, i) {}
  }

  lemma ReplaceGrows(s: seq<Decision>, pend: Option<Id>, d: Decision)
    requires Inv(s) && Replaceable(s, pend, d)
    ensures Numbered(Replace(s, pend, d)) && LiveOpen(Replace(s, pend, d)) && Grows(s, Replace(s, pend, d))
  {
    var t := Replace(s, pend, d);
    ReplacementNumbered(s, pend, d, t);
    ReplacementOpen(s, pend, d, t);
    ReplacementGrows(s, pend, d, t);
  }

  lemma ReplaceKeepsInv(s: seq<Decision>, pend: Option<Id>, d: Decision)
    requires Inv(s) && Replaceable(s, pend, d)
    ensures Inv(Replace(s, pend, d)) && Grows(s, Replace(s, pend, d))
  {
    ReplaceKeepsOne(s, pend, d, Accepted);
    ReplaceKeepsOne(s, pend, d, Proposed);
    ReplaceKeepsTargets(s, pend, d);
    ReplaceKeepsFresh(s, pend, d);
    ReplaceKeepsOnePending(s, pend, d);
    ReplaceKeepsHeads(s, pend, d);
    ReplaceGrows(s, pend, d);
  }

  /* ---- one write ---- */

  function PendingId(s: seq<Decision>, ref: string): Option<Id> {
    var p := FirstOf(RecordsAt(s, ref), Proposed);
    if p.Some? then Some(p.value.id) else None
  }

  function AcceptedId(s: seq<Decision>, ref: string): Option<Id> {
    var a := FirstOf(RecordsAt(s, ref), Accepted);
    if a.Some? then Some(a.value.id) else None
  }

  /** The record a write of `req` appends. */
  function NewRecord(s: seq<Decision>, req: Request): Decision {
    Decision(|s|, Some(req.ref), req.content, req.status, req.status != Rejected, AcceptedId(s, req.ref))
  }

  lemma {:induction false} ClassifyShape(s: seq<Decision>, bound: set<Id>, req: Request, ds: seq<Decision>)
    requires Writes(Classify(s, bound, req, ds).action)
    ensures var disp := Classify(s, bound, req, ds);
      && disp.pending == FirstOf(ds, Proposed)
      && disp.supersedes == (if FirstOf(ds, Accepted).Some? then Some(FirstOf(ds, Accepted).value.id) else None)
      && (FirstOf(ds, Accepted).Some? ==>
            PendingSuccessor(s, FirstOf(ds, Accepted).value.id,
              if FirstOf(ds, Proposed).Some? then Some(FirstOf(ds, Proposed).value.id) else None).None?)
  {
  }

  lemma {:induction false} ClassifyWrites(s: seq<Decision>, bound: set<Id>, req: Request)
    requires Writes(Classify(s, bound, req, RecordsAt(s, req.ref)).action)
    ensures var disp := Classify(s, bound, req, RecordsAt(s, req.ref));
      && BuildDecision(req, disp, |s|) == NewRecord(s, req)
      && (disp.pending.Some? <==> PendingId(s, req.ref).Some?)
      && (disp.pending.Some? ==> disp.pending.value.id == PendingId(s, req.ref).value)
    ensures AcceptedId(s, req.ref).Some? ==>
      PendingSuccessor(s, AcceptedId(s, req.ref).value, PendingId(s, req.ref)).None?
  {
    ClassifyShape(s, bound, req, RecordsAt(s, req.ref));
  }

  lemma {:induction false} NewRecordReplaceable(s: seq<Decision>, req: Request)
    requires Inv(s) && req.Valid()
    requires AcceptedId(s, req.ref).Some? ==>
      PendingSuccessor(s, AcceptedId(s, req.ref).value, PendingId(s, req.ref)).None?
    ensures Replaceable(s, PendingId(s, req.ref), NewRecord(s, req))
  {
    TheOnly(s, req.ref, Accepted);
    TheOnly(s, req.ref, Proposed);
  }

  /** The store accepts the drop and the append, and the two together are `Replace`. */
  lemma ReplaceIsApplied(s: seq<Decision>, pend: Option<Id>, d: Decision)
    requires Inv(s) && Replaceable(s, pend, d)
    ensures var dropped := if pend.Some? then Drop(s, pend.value) else Ok(s);
      dropped.Ok? && AddDecision(dropped.value, d) == Ok(Replace(s, pend, d))
  {
    var s1 := if pend.Some? then s[pend.value := s[pend.value].(status := Rejected, open := false)] else s;
    if d.supersedes.Some? {
      var a := d.supersedes.value;
      assert s1[a] == s[a];
      assert PendingSuccessor(s1, a, Some(d.id)).None?;
      assert (s1 + [d])[a] == s[a];
    }
  }

  ghost predicate WriteResult(s: seq<Decision>, req: Request, r: Result<Outcome, Error>) {
    && r.Ok?
    && (!Writes(r.value.action) ==> r.value.decisions == s)
    && (Writes(r.value.action) ==>
          && Replaceable(s, PendingId(s, req.ref), NewRecord(s, req))
          && r.value.decisions == Replace(s, PendingId(s, req.ref), NewRecord(s, req))
          && r.value.id == Some(|s|))
  }

  lemma WriteReplaces(s: seq<Decision>, bound: set<Id>, req: Request)
    requires Inv(s) && req.Valid()
    ensures WriteResult(s, req, Write(s, bound, req))
  {
    if Writes(Classify(s, bound, req, RecordsAt(s, req.ref)).action) {
      ClassifyWrites(s, bound, req);
      NewRecordReplaceable(s, req);
      ReplaceIsApplied(s, PendingId(s, req.ref), NewRecord(s, req));
    }
  }

  /** Every document write is accepted by the store and keeps the invariant. */
  lemma WriteKeepsInv(s: seq<Decision>, bound: set<Id>, req: Request)
    requires Inv(s) && req.Valid()
    ensures Write(s, bound, req).Ok?
    ensures Inv(Write(s, bound, req).value.decisions) && Grows(s, Write(s, bound, req).value.decisions)
  {
    WriteReplaces(s, bound, req);
    var r := Write(s, bound, req);
    if Writes(r.value.action) {
      ReplaceKeepsInv(s, PendingId(s, req.ref), NewRecord(s, req));
    }
  }

  /** What a write that happened says: its record is the last one, supersedes exactly the
      record accepted at its reference at that moment, a proposed write leaves every
      accepted record as it was, any other closes it, and no other reference changes. */
  ghost predicate WritesOneRecord(s: seq<Decision>, req: Request, t: seq<Decision>) {
    && |t| == |s| + 1 && t[|s|].ref == Some(req.ref) && t[|s|].content == req.content && t[|s|].status == req.status
    && (forall a :: 0 <= a < |s| ==>
          (t[|s|].supersedes == Some(a) <==> s[a].status == Accepted && s[a].ref == Some(req.ref)))
    && (req.status == Proposed ==> forall i :: 0 <= i < |s| && s[i].status == Accepted ==> t[i] == s[i])
    && (req.status != Proposed ==>
          forall i :: 0 <= i < |s| && s[i].status == Accepted && s[i].ref == Some(req.ref) ==>
            t[i].status == Superseded)
    && (forall i :: 0 <= i < |s| && s[i].ref == Some(req.ref) && s[i].status == Proposed ==> t[i].status == Rejected)
    && (forall i :: 0 <= i < |s| && s[i].ref != Some(req.ref) ==> t[i] == s[i])
  }

  lemma ReplaceWritesOne(s: seq<Decision>, req: Request)
    requires Replaceable(s, PendingId(s, req.ref), NewRecord(s, req))
    ensures WritesOneRecord(s, req, Replace(s, PendingId(s, req.ref), NewRecord(s, req)))
  {
  }

  lemma WriteSupersedesAccepted(s: seq<Decision>, bound: set<Id>, req: Request)
    requires Inv(s) && req.Valid() && Write(s, bound, req).Ok? && Writes(Write(s, bound, req).value.action)
    ensures WritesOneRecord(s, req, Write(s, bound, req).value.decisions)
  {
    WriteReplaces(s, bound, req);
    ReplaceWritesOne(s, req);
  }

  lemma MatchSkips(t: seq<Decision>, bound: set<Id>, req: Request)
    requires var m := PreferredMatch(RecordsAt(t, req.ref), req.content);
      m.Some? && (req.status == Rejected) == (m.value.status == Rejected)
    ensures Write(t, bound, req).Ok? && Write(t, bound, req).value.action == SkippedExisting
    ensures Write(t, bound, req).value.decisions == t
  {
  }

  /** Repeating a request that was just written is skipped as existing. */
  lemma RepeatIsSkipped(s: seq<Decision>, bound: set<Id>, req: Request)
    requires Inv(s) && req.Valid() && Write(s, bound, req).Ok? && Writes(Write(s, bound, req).value.action)
    ensures var out := Write(s, bound, req).value; var again := Write(out.decisions, out.bound, req);
      again.Ok? && again.value.action == SkippedExisting && again.value.decisions == out.decisions
  {
    var out := Write(s, bound, req).value;
    var t := out.decisions;
    WriteReplaces(s, bound, req);
    WriteKeepsInv(s, bound, req);
    ReplaceWritesOne(s, req);
    NewestMatches(t, req);
    MatchSkips(t, out.bound, req);
  }

  lemma NewestMatches(t: seq<Decision>, req: Request)
    requires Numbered(t) && req.Valid() && t != []
    requires var d := t[|t| - 1]; d.ref == Some(req.ref) && d.content == req.content && d.status == req.status
    requires req.status == Rejected ==>
      forall i :: 0 <= i < |t| && t[i].ref == Some(req.ref) ==> t[i].status != Accepted && t[i].status != Proposed
    ensures var m := PreferredMatch(RecordsAt(t, req.ref), req.content);
      m.Some? && (req.status == Rejected) == (m.value.status == Rejected)
  {
    ViewMembers(t, req.ref, {});
    assert t[|t| - 1] in RecordsAt(t, req.ref);
  }

  /* ---- a human's steps and an agent's ---- */

  /** A drop changes one pending record to a rejected one. */
  ghost predicate Dropped(s: seq<Decision>, id: Id, t: seq<Decision>) {
    && id < |s| == |t| && s[id].status == Proposed
    && forall i :: 0 <= i < |s| ==> t[i] == if i == id then s[i].(status := Rejected, open := false) else s[i]
  }

  lemma DropGrows(s: seq<Decision>, id: Id, t: seq<Decision>)
    requires Numbered(s) && LiveOpen(s) && Dropped(s, id, t)
    ensures Numbered(t) && LiveOpen(t) && Grows(s, t)
  {
  }

  lemma DropKeepsOne(s: seq<Decision>, id: Id, t: seq<Decision>)
    requires OneOf(s, Accepted) && OneOf(s, Proposed) && Dropped(s, id, t)
    ensures OneOf(t, Accepted) && OneOf(t, Proposed)
  {
  }

  lemma DropKeepsPending(s: seq<Decision>, id: Id, t: seq<Decision>)
    requires PendingTargets(s) && FreshPending(s) && OnePendingSuccessor(s) && Heads(s) && Dropped(s, id, t)
    ensures PendingTargets(t) && FreshPending(t) && OnePendingSuccessor(t) && Heads(t)
  {
  }

  lemma DropKeepsInv(s: seq<Decision>, id: Id)
    requires Inv(s) && Drop(s, id).Ok?
    ensures Inv(Drop(s, id).value) && Grows(s, Drop(s, id).value)
  {
    var t := Drop(s, id).value;
    DropGrows(s, id, t);
    DropKeepsOne(s, id, t);
    DropKeepsPending(s, id, t);
  }

  /** In a reachable store a human's ratify is never refused. */
  lemma RatifyNeverRefused(s: seq<Decision>, id: Id)
    requires Inv(s) && id < |s| && s[id].status == Proposed
    ensures Ratify(s, id).Ok?
  {
    if s[id].supersedes.Some? {
      var a := s[id].supersedes.value;
      assert forall to :: !LiveLink(s, a, to);
    }
  }

  function Ratified(s: seq<Decision>, id: Id, i: nat): Decision
    requires id < |s| && i < |s|
  {
    if i == id then s[i].(status := Accepted)
    else if s[id].supersedes == Some(i) then s[i].(status := Superseded, open := false)
    else s[i]
  }

  lemma RatifyPointwise(s: seq<Decision>, id: Id)
    requires Inv(s) && id < |s| && s[id].status == Proposed
    ensures Ratify(s, id).Ok?
    ensures var t := Ratify(s, id).value; |t| == |s| && forall i :: 0 <= i < |s| ==> t[i] == Ratified(s, id, i)
  {
    RatifyNeverRefused(s, id);
  }

  ghost predicate RatifiedFrom(s: seq<Decision>, id: Id, t: seq<Decision>) {
    id < |s| && s[id].status == Proposed && |t| == |s| && forall i :: 0 <= i < |s| ==> t[i] == Ratified(s, id, i)
  }

  lemma RatifyKeepsOne(s: seq<Decision>, id: Id, t: seq<Decision>, st: Status)
    requires Inv(s) && RatifiedFrom(s, id, t) && (st == Accepted || st == Proposed)
    ensures OneOf(t, st)
  {
    forall i, j | 0 <= i < j < |t| && t[i].ref.Some? && t[i].ref == t[j].ref && t[i].status == st
      ensures t[j].status != st
    {
      assert t[i] == Ratified(s, id, i) && t[j] == Ratified(s, id, j);
      assert s[i].ref == s[j].ref;
    }
  }

  lemma RatifyKeepsPending(s: seq<Decision>, id: Id, t: seq<Decision>)
    requires Inv(s) && RatifiedFrom(s, id, t)
    ensures PendingTargets(t) && OnePendingSuccessor(t)
  {
    forall i | 0 <= i < |t| && t[i].status == Proposed && t[i].supersedes.Some?
      ensures var a := t[i].supersedes.value;
        a < |t| && t[a].status == Accepted && (t[i].ref.Some? ==> t[a].ref == t[i].ref)
    {
      assert t[i] == Ratified(s, id, i) == s[i];
      var a := s[i].supersedes.value;
      assert t[a] == Ratified(s, id, a);
    }
  }

  lemma RatifyKeepsFresh(s: seq<Decision>, id: Id, t: seq<Decision>)
    requires Inv(s) && RatifiedFrom(s, id, t)
    ensures FreshPending(t)
  {
    forall i, j | 0 <= i < |t| && 0 <= j < |t| && t[i].status == Proposed && t[i].ref.Some? && t[i].supersedes.None?
      && t[j].ref == t[i].ref
      ensures t[j].status != Accepted
    {
      assert t[i] == Ratified(s, id, i) == s[i] && t[j] == Ratified(s, id, j);
      assert s[j].ref == s[i].ref && s[j].status != Accepted;
      assert OneOf(s, Proposed);
    }
  }

  lemma RatifyKeepsHeads(s: seq<Decision>, id: Id, t: seq<Decision>)
    requires Inv(s) && RatifiedFrom(s, id, t)
    ensures Heads(t)
  {
    forall i | 0 <= i < |t| && t[i].supersedes.Some?
      ensures var a := t[i].supersedes.value;
        && a < |t| && t[a].status != Proposed
        && ((t[i].status == Accepted || t[i].status == Superseded) ==> t[a].status != Accepted)
    {
      assert t[i] == Ratified(s, id, i);
      var a := s[i].supersedes.value;
      assert s[a].status != Proposed;
      assert t[a] == Ratified(s, id, a);
    }
  }

  lemma RatifyGrows(s: seq<Decision>, id: Id, t: seq<Decision>)
    requires Inv(s) && RatifiedFrom(s, id, t)
    ensures Numbered(t) && LiveOpen(t) && Grows(s, t)
  {
    forall i | 0 <= i < |t| ensures t[i] == Ratified(s, id, i) {
    }
    if s[id].supersedes.Some? {
      assert s[s[id].supersedes.value].status == Accepted;
    }
  }

  lemma RatifyKeepsInv(s: seq<Decision>, id: Id)
    requires Inv(s) && id < |s| && s[id].status == Proposed
    ensures Ratify(s, id).Ok? && Inv(Ratify(s, id).value) && Grows(s, Ratify(s, id).value)
  {
    RatifyPointwise(s, id);
    var t := Ratify(s, id).value;
    RatifyKeepsOne(s, id, t, Accepted);
    RatifyKeepsOne(s, id, t, Proposed);
    RatifyKeepsPending(s, id, t);
    RatifyKeepsFresh(s, id, t);
    RatifyKeepsHeads(s, id, t);
    RatifyGrows(s, id, t);
  }

  /** A record of another source (an agent's), proposed or accepted. */
  ghost predicate AgentRecord(s: seq<Decision>, d: Decision) {
    d.id == |s| && d.ref.None? && d.open && (d.status == Proposed || d.status == Accepted)
  }

  /** `t` is `s` with `d` appended and, unless `d` is pending, its target closed. */
  ghost predicate Appended(s: seq<Decision>, d: Decision, t: seq<Decision>) {
    && |t| == |s| + 1 && t[|s|] == d
    && (forall i :: 0 <= i < |s| ==> t[i] == Replaced(s, None, d, i))
    && (d.supersedes.Some? ==>
          && d.supersedes.value < |s| && s[d.supersedes.value].status == Accepted
          && forall i :: 0 <= i < |s| && s[i].supersedes == d.supersedes ==> s[i].status != Proposed)
  }

  lemma AgentAppends(s: seq<Decision>, d: Decision)
    requires Inv(s) && AgentRecord(s, d) && AddDecision(s, d).Ok?
    ensures Appended(s, d, AddDecision(s, d).value)
  {
  }

  lemma AgentKeepsPending(s: seq<Decision>, d: Decision, t: seq<Decision>)
    requires Inv(s) && AgentRecord(s, d) && Appended(s, d, t)
    ensures PendingTargets(t) && OnePendingSuccessor(t)
  {
    forall i | 0 <= i < |t| && t[i].status == Proposed && t[i].supersedes.Some?
      ensures var a := t[i].supersedes.value;
        a < |t| && t[a].status == Accepted && (t[i].ref.Some? ==> t[a].ref == t[i].ref)
    {
      if i < |s| {
        assert t[i] == Replaced(s, None, d, i) == s[i];
        var a := s[i].supersedes.value;
        assert t[a] == Replaced(s, None, d, a);
      }
    }
  }

  lemma AgentKeepsOne(s: seq<Decision>, d: Decision, t: seq<Decision>, st: Status)
    requires OneOf(s, st) && AgentRecord(s, d) && Appended(s, d, t) && (st == Accepted || st == Proposed)
    ensures OneOf(t, st)
  {
    forall i, j | 0 <= i < j < |t| && t[i].ref.Some? && t[i].ref == t[j].ref && t[i].status == st
      ensures t[j].status != st
    {
      assert j < |s|;
      assert t[i] == Replaced(s, None, d, i) && t[j] == Replaced(s, None, d, j);
    }
  }

  lemma AgentGrows(s: seq<Decision>, d: Decision, t: seq<Decision>)
    requires Numbered(s) && LiveOpen(s) && AgentRecord(s, d) && Appended(s, d, t)
    ensures Numbered(t) && LiveOpen(t) && Grows(s, t)
  {
    forall i | 0 <= i < |s| ensures t[i] == Replaced(s, None, d, i) {}
  }

  lemma AgentKeepsRefs(s: seq<Decision>, d: Decision, t: seq<Decision>)
    requires Inv(s) && AgentRecord(s, d) && Appended(s, d, t)
    ensures OneOf(t, Accepted) && OneOf(t, Proposed)
    ensures Numbered(t) && LiveOpen(t) && Grows(s, t)
  {
    AgentKeepsOne(s, d, t, Accepted);
    AgentKeepsOne(s, d, t, Proposed);
    AgentGrows(s, d, t);
  }

  lemma AgentKeepsFresh(s: seq<Decision>, d: Decision, t: seq<Decision>)
    requires Inv(s) && AgentRecord(s, d) && Appended(s, d, t)
    ensures FreshPending(t)
  {
    forall i, j | 0 <= i < |t| && 0 <= j < |t| && t[i].status == Proposed && t[i].ref.Some? && t[i].supersedes.None?
      && t[j].ref == t[i].ref
      ensures t[j].status != Accepted
    {
      assert i < |s| && j < |s|;
      assert t[i] == Replaced(s, None, d, i) == s[i] && t[j] == Replaced(s, None, d, j);
      assert s[j].status != Accepted;
    }
  }

  lemma AgentKeepsHeads(s: seq<Decision>, d: Decision, t: seq<Decision>)
    requires Inv(s) && AgentRecord(s, d) && Appended(s, d, t)
    ensures Heads(t)
  {
    forall i | 0 <= i < |t| && t[i].supersedes.Some?
      ensures var a := t[i].supersedes.value;
        && a < |t| && t[a].status != Proposed
        && ((t[i].status == Accepted || t[i].status == Superseded) ==> t[a].status != Accepted)
    {
      if i < |s| {
        assert t[i] == Replaced(s, None, d, i);
        var a := s[i].supersedes.value;
        assert s[a].status != Proposed;
        assert t[a] == Replaced(s, None, d, a);
      }
    }
  }

  lemma AgentKeepsInv(s: seq<Decision>, d: Decision)
    requires Inv(s) && AgentRecord(s, d) && AddDecision(s, d).Ok?
    ensures Inv(AddDecision(s, d).value) && Grows(s, AddDecision(s, d).value)
  {
    var t := AddDecision(s, d).value;
    AgentAppends(s, d);
    AgentKeepsPending(s, d, t);
    AgentKeepsRefs(s, d, t);
    AgentKeepsFresh(s, d, t);
    AgentKeepsHeads(s, d, t);
  }

  /* ---- runs ---- */

  datatype Step = WriteDoc(req: Request) | RatifyRecord(id: Id) | DropRecord(id: Id)
    | Agent(content: Content, status: Status, supersedes: Option<Id>)

  datatype State = State(decisions: seq<Decision>, bound: set<Id>)

  /** A refused step changes nothing. */
  ghost function Take(st: State, step: Step): State {
    match step
    case WriteDoc(req) =>
      var r := Write(st.decisions, st.bound, req);
      if r.Ok? then State(r.value.decisions, r.value.bound) else st
    case RatifyRecord(id) =>
      var r := Ratify(st.decisions, id);
      if r.Ok? then st.(decisions := r.value) else st
    case DropRecord(id) =>
      var r := Drop(st.decisions, id);
      if r.Ok? then st.(decisions := r.value) else st
    case Agent(content, status, supersedes) =>
      var r := AddDecision(st.decisions, Decision(|st.decisions|, None, content, status, true, supersedes));
      if r.Ok? && (status == Proposed || status == Accepted) then st.(decisions := r.value) else st
  }

  ghost function RunOf(st: State, steps: seq<Step>): State {
    if steps == [] then st else Take(RunOf(st, steps[..|steps| - 1]), steps[|steps| - 1])
  }

  predicate ValidStep(step: Step) {
    step.WriteDoc? ==> step.req.Valid()
  }

  lemma TakeKeepsInv(st: State, step: Step)
    requires Inv(st.decisions) && ValidStep(step)
    ensures Inv(Take(st, step).decisions) && Grows(st.decisions, Take(st, step).decisions)
  {
    var s := st.decisions;
    match step
    case WriteDoc(req) => WriteKeepsInv(s, st.bound, req);
    case RatifyRecord(id) => if id < |s| && s[id].status == Proposed { RatifyKeepsInv(s, id); }
    case DropRecord(id) => if Drop(s, id).Ok? { DropKeepsInv(s, id); }
    case Agent(content, status, supersedes) =>
      var d := Decision(|s|, None, content, status, true, supersedes);
      if AddDecision(s, d).Ok? && (status == Proposed || status == Accepted) { AgentKeepsInv(s, d); }
  }

  /** MAIN RESULT.  Over every run from an empty store, each reference has at most one
      accepted and one proposed record (and the rest of `Inv` holds). */
  lemma {:induction false} RunKeepsInv(steps: seq<Step>)
    requires forall k :: 0 <= k < |steps| ==> ValidStep(steps[k])
    ensures Inv(RunOf(State([], {}), steps).decisions)
  {
    if steps != [] {
      var n := |steps| - 1;
      RunKeepsInv(steps[..n]);
      TakeKeepsInv(RunOf(State([], {}), steps[..n]), steps[n]);
    }
  }

  /** Over every run no record disappears or has its text rewritten. */
  lemma {:induction false} RunGrows(steps: seq<Step>, more: Step)
    requires forall k :: 0 <= k < |steps| ==> ValidStep(steps[k])
    requires ValidStep(more)
    ensures Grows(RunOf(State([], {}), steps).decisions, RunOf(State([], {}), steps + [more]).decisions)
  {
    RunKeepsInv(steps);
    assert (steps + [more])[..|steps|] == steps;
    TakeKeepsInv(RunOf(State([], {}), steps), more);
  }
}
