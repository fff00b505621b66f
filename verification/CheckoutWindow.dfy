/**
  Waiting for the format marker while Git may be checking it out.

  The world is a history: what the lock, the marker and a Git query would show at each
  instant.  `delay` says how long each observation takes, so a proof for every delay is a
  proof for every interleaving with the Git process.
 */
module CheckoutWindow {
  import opened Wrappers

  /** What `git_view` answers: no Git, no answer in time, or whether HEAD records the marker. */
  datatype View = NoGit | Busy | Answer(headRecords: bool)

  datatype World = World(lock: int -> bool, marker: int -> Option<nat>, view: int -> View)

  /** `_present`: a marker counts when it has content, or exists without a lock. */
  predicate Present(size: Option<nat>, held: bool) {
    size.Some? && (size.value > 0 || !held)
  }

  datatype Outcome =
    | Unavailable    // returns: Git cannot be asked
    | Found          // returns: the marker is there
    | Unrecorded     // returns: no lock, and HEAD records no marker
    | Created        // returns: Git did not answer, and the caller creates a store
    | Missing        // refuses: no lock, and HEAD records the marker
    | Unanswered     // refuses: Git did not answer in time
    | Locked         // refuses: the lock is still held

  predicate Returns(o: Outcome) {
    o.Unavailable? || o.Found? || o.Unrecorded? || o.Created?
  }

  /** When the decisive observations were made; `lastLock` is the last time the lock was seen held. */
  datatype Seen = Seen(viewAt: int, lockAt: int, markerAt: int, checkedAt: int, lastLock: Option<int>)

  /** The observations that justify an outcome. */
  predicate Explains(w: World, start: int, deadline: int, creating: bool, o: Outcome, seen: Seen) {
    && start <= seen.viewAt && start <= seen.lockAt <= seen.markerAt
    && match o
       case Unavailable => w.view(seen.viewAt).NoGit?
       case Found => Present(w.marker(seen.markerAt), w.view(seen.viewAt).Busy? || w.lock(seen.lockAt))
       case Unrecorded => !w.lock(seen.lockAt) && w.marker(seen.markerAt).None? && w.view(seen.viewAt) == Answer(false)
       case Missing => !w.lock(seen.lockAt) && w.marker(seen.markerAt).None? && w.view(seen.viewAt) == Answer(true)
       case Created => creating && w.view(seen.viewAt).Busy? && !Present(w.marker(seen.markerAt), true)
         && seen.checkedAt >= deadline
       case Unanswered => !creating && w.view(seen.viewAt).Busy? && !Present(w.marker(seen.markerAt), true)
         && seen.checkedAt >= deadline
       case Locked => w.lock(seen.lockAt) && !Present(w.marker(seen.markerAt), true) && seen.checkedAt >= deadline
  }

  /** A decision taken on what HEAD records rests on a view no older than any lock seen held. */
  predicate Fresh(o: Outcome, seen: Seen) {
    (o.Unrecorded? || o.Missing?) && seen.lastLock.Some? ==> seen.lastLock.value <= seen.viewAt
  }

  ghost predicate GitAvailable(w: World, start: int) {
    forall t :: t >= start ==> !w.view(t).NoGit?
  }

  function Left(deadline: int, now: int): nat {
    if now < deadline then deadline - now else 0
  }

  /** `await_marker`.  It stops for every history and every delay: a round either sleeps,
      which uses up time before the deadline, or asks Git again after a lock, once. */
  method AwaitMarker(w: World, start: int, delay: nat -> nat, wait: nat, poll: nat, creating: bool)
    returns (o: Outcome, seen: Seen)
    requires poll > 0
    ensures Explains(w, start, start + delay(0) + wait, creating, o, seen)
    ensures GitAvailable(w, start) ==> Fresh(o, seen)
  {
    var now, k: nat := start + delay(0), 1;
    var deadline := now + wait;
    now, k := now + delay(k), k + 1;
    var current, viewAt := w.view(now), now;
    var known: Option<(View, int)> := None;
    var waitedOnLock := false;
    var lastLock: Option<int> := None;
    while true
      invariant start + delay(0) <= now && start <= viewAt <= now
      invariant current == w.view(viewAt)
      invariant known.Some? ==>
        known.value.0 == w.view(known.value.1) && known.value.0.Answer? && start <= known.value.1 <= now
      invariant lastLock.Some? ==> lastLock.value <= now
      invariant GitAvailable(w, start) && lastLock.Some? && !waitedOnLock && current.Answer? ==>
        lastLock.value <= viewAt
      decreases Left(deadline, now), waitedOnLock
    {
      if current.NoGit? {
        return Unavailable, Seen(viewAt, now, now, now, lastLock);
      }
      var held := true;
      now, k := now + delay(k), k + 1;
      var lockAt := now;
      if current.Answer? {
        known := Some((current, viewAt));
        held := w.lock(lockAt);
        if held {
          lastLock := Some(lockAt);
        }
      }
      now, k := now + delay(k), k + 1;
      var markerAt := now;
      if Present(w.marker(markerAt), held) {
        return Found, Seen(viewAt, lockAt, markerAt, now, lastLock);
      }
      if !held {
        if waitedOnLock {
          now, k := now + delay(k), k + 1;
          var refreshed := w.view(now);
          if !refreshed.NoGit? {
            current, viewAt := refreshed, now;
          }
          waitedOnLock := false;
          continue;
        }
        return if current.headRecords then Missing else Unrecorded, Seen(viewAt, lockAt, markerAt, now, lastLock);
      }
      now, k := now + delay(k), k + 1;
      if now >= deadline {
        var outcome := if current.Answer? then Locked else if creating then Created else Unanswered;
        return outcome, Seen(viewAt, lockAt, markerAt, now, lastLock);
      }
      if current.Answer? {
        waitedOnLock := true;
      }
      now, k := now + poll + delay(k), k + 1;
      if current.Busy? {
        now, k := now + delay(k), k + 1;
        var refreshed := w.view(now);
        if !refreshed.NoGit? {
          current, viewAt := refreshed, now;
        } else if known.Some? {
          current, viewAt := known.value.0, known.value.1;
        } else {
          current, viewAt := refreshed, now;
        }
      }
    }
  }

  /* ---- against a checkout ---- */

  /** From `entry` on: one Git command holds the lock until `unlock`, has unlinked the marker,
      creates it empty at `create` and has written it from `write` on. */
  ghost predicate Checkout(w: World, entry: int, create: int, write: int, unlock: int) {
    && entry <= create <= write <= unlock
    && (forall t :: entry <= t ==> (w.lock(t) <==> t < unlock))
    && (forall t :: entry <= t < create ==> w.marker(t) == None)
    && (forall t :: create <= t < write ==> w.marker(t) == Some(0))
    && (forall t :: write <= t ==> w.marker(t).Some? && w.marker(t).value > 0)
  }

  /** MAIN: during a checkout that has unlinked the marker and will write it before unlocking,
      an ordinary open never goes on before the marker is written, and is never told that the
      marker is missing: it finds the written marker or is refused for the time it took. */
  lemma NeverReturnsInTheWindow(w: World, start: int, deadline: int, create: int, write: int, unlock: int, o: Outcome,
      seen: Seen)
    requires Checkout(w, start, create, write, unlock) && GitAvailable(w, start)
    requires Explains(w, start, deadline, false, o, seen)
    ensures Returns(o) ==> o.Found? && write <= seen.markerAt
    ensures o.Found? || ((o.Locked? || o.Unanswered?) && seen.checkedAt >= deadline)
  {
    assert w.lock(seen.lockAt) <==> seen.lockAt < unlock;
    if !w.lock(seen.lockAt) {
      assert write <= seen.markerAt;
    }
    if w.marker(seen.markerAt).Some? && w.marker(seen.markerAt).value > 0 {
      assert write <= seen.markerAt;
    }
  }

  /** The two together, for every delay. */
  method OpenDuringCheckout(w: World, start: int, delay: nat -> nat, wait: nat, poll: nat, ghost create: int,
      ghost write: int, ghost unlock: int)
    returns (o: Outcome, markerAt: int)
    requires poll > 0 && Checkout(w, start, create, write, unlock) && GitAvailable(w, start)
    ensures o.Found? || o.Locked? || o.Unanswered?
    ensures o.Found? ==> w.marker(markerAt).Some? && w.marker(markerAt).value > 0 && markerAt >= write
  {
    var seen;
    o, seen := AwaitMarker(w, start, delay, wait, poll, false);
    NeverReturnsInTheWindow(w, start, start + delay(0) + wait, create, write, unlock, o, seen);
    markerAt := seen.markerAt;
  }
}
