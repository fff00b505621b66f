/** The decision store as document import uses it: an append-only list of records,
    whose ids follow creation order. */
module DocStore {
  import opened Wrappers

  type Id = nat

  datatype Status = Proposed | Accepted | Rejected | Superseded | Deprecated

  /** The five compared fields of a record. */
  datatype Content = Content(title: string, context: string, choice: string, rejected: Option<string>,
    consequences: Option<string>)

  /** `ref` is Some for a record of document import, at that reference; `open` says
      that `valid_to` is unset. */
  datatype Decision = Decision(id: Id, ref: Option<string>, content: Content, status: Status, open: bool,
    supersedes: Option<Id>)

  datatype Error = Conflict | Unknown

  /** Ids are positions and a record supersedes only an earlier one. */
  predicate Numbered(s: seq<Decision>) {
    forall i :: 0 <= i < |s| ==> s[i].id == i && (s[i].supersedes.Some? ==> s[i].supersedes.value < i)
  }

  /** The lowest pending successor of `target` other than `exclude`. */
  function PendingSuccessor(s: seq<Decision>, target: Id, exclude: Option<Id>): (p: Option<Id>)
    ensures p.None? <==> forall i :: 0 <= i < |s| ==>
      !(s[i].status == Proposed && s[i].supersedes == Some(target) && exclude != Some(s[i].id))
  {
    if s == [] then None
    else
      var n := |s| - 1;
      var before := PendingSuccessor(s[..n], target, exclude);
      assert s == s[..n] + [s[n]];
      assert forall i :: 0 <= i < n ==> s[..n][i] == s[i];
      if before.Some? then before
      else if s[n].status == Proposed && s[n].supersedes == Some(target) && exclude != Some(s[n].id) then Some(s[n].id)
      else None
  }

  predicate PendingOn(d: Decision, target: Id, exclude: Option<Id>) {
    d.status == Proposed && d.supersedes == Some(target) && exclude != Some(d.id)
  }

  /** The one reported is a pending successor, and no older record is. */
  lemma {:induction false} PendingSuccessorLowest(s: seq<Decision>, target: Id, exclude: Option<Id>)
    requires (forall i :: 0 <= i < |s| ==> s[i].id == i) && PendingSuccessor(s, target, exclude).Some?
    ensures var p := PendingSuccessor(s, target, exclude).value;
      p < |s| && PendingOn(s[p], target, exclude) && forall i :: 0 <= i < p ==> !PendingOn(s[i], target, exclude)
  {
    var n := |s| - 1;
    if PendingSuccessor(s[..n], target, exclude).Some? {
      PendingSuccessorLowest(s[..n], target, exclude);
    } else {
      assert forall i :: 0 <= i < n ==> s[..n][i] == s[i];
    }
  }

  function Close(s: seq<Decision>, id: Id): seq<Decision>
    requires id < |s|
  {
    if s[id].status == Accepted || s[id].status == Proposed then s[id := s[id].(status := Superseded, open := false)]
      else s
  }

  /** `Store.add_decision`: only the live head is superseded, one pending successor at
      a time; any status but proposed closes the predecessor. */
  function AddDecision(s: seq<Decision>, d: Decision): Result<seq<Decision>, Error>
  {
    if d.supersedes.None? then Ok(s + [d])
    else if d.supersedes.value >= |s| then Err(Unknown)
    else
      var target := s[d.supersedes.value];
      if target.status != Accepted || !target.open then Err(Conflict)
      else if PendingSuccessor(s, d.supersedes.value, Some(d.id)).Some? then Err(Conflict)
      else if d.status == Proposed then Ok(s + [d])
      else Ok(Close(s + [d], d.supersedes.value))
  }

  /** `Store.drop`. */
  function Drop(s: seq<Decision>, id: Id): Result<seq<Decision>, Error> {
    if id >= |s| || s[id].status != Proposed then Err(Unknown)
    else Ok(s[id := s[id].(status := Rejected, open := false)])
  }

  ghost predicate LiveLink(s: seq<Decision>, from: Id, to: Id) {
    to < |s| && (s[to].status == Accepted || s[to].status == Superseded) && s[to].supersedes == Some(from)
  }

  /** A chain of accepted or superseded successors from `from` to an accepted, open record. */
  ghost predicate LiveChain(s: seq<Decision>, from: Id, path: seq<Id>)
    decreases |path|
  {
    && path != [] && LiveLink(s, from, path[0])
    && if |path| == 1 then s[path[0]].status == Accepted && s[path[0]].open else LiveChain(s, path[0], path[1..])
  }

  ghost predicate HasLiveHead(s: seq<Decision>, from: Id) {
    exists path :: LiveChain(s, from, path)
  }

  /** `Store.ratify`, with its two refusals: the predecessor is itself pending, or its
      chain already has a live head. */
  ghost function Ratify(s: seq<Decision>, id: Id): Result<seq<Decision>, Error> {
    if id >= |s| || s[id].status != Proposed then Err(Unknown)
    else
      var taken := s[id := s[id].(status := Accepted)];
      if s[id].supersedes.None? || s[id].supersedes.value >= |s| then Ok(taken)
      else
        var p := s[id].supersedes.value;
        if s[p].status == Proposed || HasLiveHead(s, p) then Err(Conflict)
        else Ok(Close(taken, p))
  }
}
