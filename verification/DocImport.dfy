/** Classifying and writing one document at its reference. */
module DocImport {
  import opened Wrappers
  import opened DocStore

  datatype Action = Written | SupersededAction | SkippedExisting | SkippedUnanchorable | SkippedPending

  /** A document ready to write.  `status` is never superseded or deprecated;
      `anchored` says it has an anchor of its own, `tagged` that it has a tag. */
  datatype Request = Request(ref: string, content: Content, status: Status, anchored: bool, tagged: bool)
  {
    predicate Valid() {
      status == Accepted || status == Proposed || status == Rejected
    }
  }

  datatype Disposition = Disposition(
    action: Action, accepted: Option<Decision>, pending: Option<Decision>,
    inherit: Option<Id>, matched: Option<Decision>, supersedes: Option<Id>)

  predicate WriteStatus(st: Status) {
    st == Accepted || st == Proposed || st == Rejected
  }

  /** The stored records a document at `ref` is compared with, in id order, leaving out `gone`. */
  function View(s: seq<Decision>, ref: string, gone: set<Id>): (view: seq<Decision>)
  {
    if s == [] then []
    else
      var n := |s| - 1;
      View(s[..n], ref, gone) + if s[n].ref == Some(ref) && WriteStatus(s[n].status) && s[n].id !in gone then [s[n]]
        else []
  }

  function RecordsAt(s: seq<Decision>, ref: string): seq<Decision> {
    View(s, ref, {})
  }

  /** `next(…, None)` over a list, by status. */
  function FirstOf(ds: seq<Decision>, st: Status): (d: Option<Decision>)
    ensures d.Some? ==> d.value in ds && d.value.status == st
    ensures d.None? <==> forall x :: x in ds ==> x.status != st
  {
    if ds == [] then None else if ds[0].status == st then Some(ds[0]) else FirstOf(ds[1..], st)
  }

  /** The first record of equal content that is rejected, or that is not. */
  function FirstMatch(ds: seq<Decision>, c: Content, rejected: bool): (d: Option<Decision>)
    ensures d.Some? ==> d.value in ds && d.value.content == c && (d.value.status == Rejected) == rejected
    ensures d.None? <==> forall x :: x in ds ==> !(x.content == c && (x.status == Rejected) == rejected)
  {
    if ds == [] then None
    else if ds[0].content == c && (ds[0].status == Rejected) == rejected then Some(ds[0])
    else FirstMatch(ds[1..], c, rejected)
  }

  /** An open match is preferred to a rejected one. */
  function PreferredMatch(ds: seq<Decision>, c: Content): Option<Decision> {
    var open := FirstMatch(ds, c, false);
    if open.Some? then open else FirstMatch(ds, c, true)
  }

  /** The first record that is not rejected. */
  function FirstSupersedable(ds: seq<Decision>): (d: Option<Decision>)
    ensures d.Some? ==> d.value in ds && d.value.status != Rejected
    ensures d.None? <==> forall x :: x in ds ==> x.status == Rejected
  {
    if ds == [] then None else if ds[0].status != Rejected then Some(ds[0]) else FirstSupersedable(ds[1..])
  }

  /** Whose bindings a document without anchors would inherit. */
  function Donor(req: Request, ds: seq<Decision>): Option<Decision> {
    var matched := PreferredMatch(ds, req.content);
    if matched.Some? && (req.status == Rejected) != (matched.value.status == Rejected) then matched
    else if req.status == Rejected then FirstSupersedable(ds)
    else None
  }

  /** `_classify_doc_state`. */
  function Classify(s: seq<Decision>, bound: set<Id>, req: Request, ds: seq<Decision>): Disposition {
    var matched := PreferredMatch(ds, req.content);
    var changes := matched.Some? && (req.status == Rejected) != (matched.value.status == Rejected);
    var accepted := FirstOf(ds, Accepted);
    var pending := FirstOf(ds, Proposed);
    if matched.Some? && !changes then
      Disposition(SkippedExisting, accepted, pending, None, matched, None)
    else
      var donor := Donor(req, ds);
      if !req.anchored && (donor.None? || donor.value.id !in bound) then
        Disposition(SkippedUnanchorable, accepted, pending, None, None, None)
      else
        var inherit := if req.anchored then None else Some(donor.value.id);
        if accepted.None? && changes && matched.value.status == Proposed then
          Disposition(SkippedPending, None, pending, None, matched, None)
        else if accepted.Some?
          && PendingSuccessor(s, accepted.value.id, if pending.Some? then Some(pending.value.id) else None).Some? then
          Disposition(SkippedPending, accepted, pending, None, None, None)
        else
          Disposition(
            if FirstSupersedable(ds).Some? then SupersededAction else Written, accepted, pending, inherit, None,
            if accepted.Some? then Some(accepted.value.id) else None)
  }

  predicate Writes(action: Action) {
    action == Written || action == SupersededAction
  }

  /** `_build_doc_decision`. */
  function BuildDecision(req: Request, disp: Disposition, id: Id): Decision {
    Decision(id, Some(req.ref), req.content, req.status, req.status != Rejected, disp.supersedes)
  }

  datatype Outcome = Outcome(decisions: seq<Decision>, bound: set<Id>, action: Action, id: Option<Id>)

  /** `_apply_doc_state`: skip, or drop the pending proposal and append the new record. */
  function Apply(s: seq<Decision>, bound: set<Id>, req: Request, ds: seq<Decision>): Result<Outcome, Error> {
    var disp := Classify(s, bound, req, ds);
    if disp.action == SkippedExisting then
      var now := if req.anchored || req.tagged then bound + {disp.matched.value.id} else bound;
      Ok(Outcome(s, now, disp.action, Some(disp.matched.value.id)))
    else if !Writes(disp.action) then
      Ok(Outcome(s, bound, disp.action, None))
    else
      var dropped := if disp.pending.Some? then Drop(s, disp.pending.value.id) else Ok(s);
      if dropped.Err? then Err(dropped.error)
      else
        var added := AddDecision(dropped.value, BuildDecision(req, disp, |s|));
        if added.Err? then Err(added.error)
        else Ok(Outcome(added.value, bound + {|s|}, disp.action, Some(|s|)))
  }

  /** `apply_doc_candidate` on the records the store holds at the document's reference. */
  function Write(s: seq<Decision>, bound: set<Id>, req: Request): Result<Outcome, Error> {
    Apply(s, bound, req, RecordsAt(s, req.ref))
  }

  /* ---- views ---- */

  lemma {:induction false} ViewMembers(s: seq<Decision>, ref: string, gone: set<Id>)
    requires forall i :: 0 <= i < |s| ==> s[i].id == i
    ensures forall d :: d in View(s, ref, gone) <==>
              d.id < |s| && s[d.id] == d && d.ref == Some(ref) && WriteStatus(d.status) && d.id !in gone
  {
    if s != [] {
      var n := |s| - 1;
      assert forall i :: 0 <= i < n ==> s[..n][i] == s[i];
      ViewMembers(s[..n], ref, gone);
    }
  }
}
