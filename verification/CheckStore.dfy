/**
  The drift-check store as its readers see it: check files and the lines of
  `verifications/packed.shard` become occurrences, and per decision the
  selectable occurrence with the highest key wins.

  JSON text is not modelled.  A `Format` gives the decoder, the canonical
  encoder and the file-name stem; `Lawful` is what the store's encoder
  promises of them.  Every theorem holds for all lawful formats.
 */
module CheckStore {
  import opened Wrappers

  type Byte = b: int | 0 <= b < 256
  type Bytes = seq<Byte>

  /** A selectable key is a 26-character Crockford identifier.  All have the same
      length, so their string order is the order of the numbers they spell
      (`CheckKeys.OrderIsNumeric`); the model uses the number. */
  type Key = nat

  /** A parsed JSON object, seen through what the code asks of it: the `id` when
      it is a well-formed key, the `decision_id` when it is a safe record id, the
      schema verdict, and what `is_packable` depends on.  `rest` is everything
      else in the object. */
  datatype Body = Body(
    id: Option<Key>, decision: Option<string>, valid: bool,
    encodable: bool, hasNaN: bool, rest: string)

  /** JSON-typed equality; a NaN is unequal even to itself. */
  predicate StrictEqual(a: Body, b: Body) {
    a == b && !a.hasNaN
  }

  datatype Format = Format(
    decode: Bytes -> Option<Body>,
    encode: Body -> Option<Bytes>,
    stem: string -> Option<Key>)

  const LF: Byte := 10
  const CR: Byte := 13

  predicate Space(b: Byte) {
    b == 32 || 9 <= b <= 13
  }

  predicate Blank(line: Bytes) {
    forall i :: 0 <= i < |line| ==> Space(line[i])
  }

  /** A line that survives being written to and read back from a shard. */
  predicate CleanLine(line: Bytes) {
    LF !in line && !Blank(line) && line[|line| - 1] != CR
  }

  /** `encode_body` succeeds exactly on encodable bodies, its output is one clean
      line, and decoding gives the body back. */
  ghost predicate Lawful(fmt: Format) {
    && (forall b: Body :: fmt.encode(b).Some? <==> b.encodable)
    && (forall b: Body :: b.encodable ==> CleanLine(fmt.encode(b).value) && fmt.decode(fmt.encode(b).value) == Some(b))
  }

  /** The body survives a packed line: it encodes, and what is decoded from the
      encoding is strictly equal to it. */
  predicate Packable(fmt: Format, b: Body) {
    match fmt.encode(b)
    case None => false
    case Some(line) =>
      match fmt.decode(line)
      case None => false
      case Some(again) => StrictEqual(b, again)
  }

  datatype Kind = File | Line

  datatype Occurrence = Occurrence(
    kind: Kind, path: string, lineNo: nat, data: Bytes,
    raw: Option<Body>, key: Option<Key>, decision: Option<string>)
  {
    /** A selectable occurrence has a body whose decision id is its own; a packed
        line's key is its body's `id`. */
    predicate Sound() {
      key.Some? ==>
        && raw.Some? && decision.Some? && decision == raw.value.decision
        && (kind == Line ==> key == raw.value.id)
    }

    /** What `_occurrence` establishes from the bytes and, for a file, the name. */
    predicate Formed(fmt: Format): (formed: bool)
      ensures formed ==> Sound()
    {
      && raw == fmt.decode(data)
      && var k := if kind == File then fmt.stem(path) else if raw.Some? then raw.value.id else None;
         if raw.Some? && k.Some? && raw.value.decision.Some?
         then key == k && decision == raw.value.decision
         else key == None && decision == None
    }
  }

  function MakeOccurrence(fmt: Format, kind: Kind, path: string, lineNo: nat, data: Bytes): (o: Occurrence)
    ensures o.Formed(fmt) && o.kind == kind && o.path == path && o.data == data
  {
    var raw := fmt.decode(data);
    var k := if kind == File then fmt.stem(path) else if raw.Some? then raw.value.id else None;
    if raw.Some? && k.Some? && raw.value.decision.Some?
    then Occurrence(kind, path, lineNo, data, raw, k, raw.value.decision)
    else Occurrence(kind, path, lineNo, data, raw, None, None)
  }

  predicate AllFormed(fmt: Format, occs: seq<Occurrence>) {
    forall o :: o in occs ==> o.Formed(fmt)
  }

  predicate AllSound(occs: seq<Occurrence>) {
    forall i :: 0 <= i < |occs| ==> occs[i].Sound()
  }

  const PACKED_PATH := "verifications/packed.shard"

  /* ---- shard lines ---- */

  /** `data.split(b"\n")`. */
  function Split(data: Bytes): (pieces: seq<Bytes>)
    ensures |pieces| >= 1
  {
    if data == [] then [[]]
    else
      var rest := Split(data[1..]);
      if data[0] == LF then [[]] + rest else [[data[0]] + rest[0]] + rest[1..]
  }

  function StripCR(line: Bytes): Bytes {
    if line != [] && line[|line| - 1] == CR then line[..|line| - 1] else line
  }

  /** Numbered pieces with the trailing carriage return stripped and blank pieces dropped. */
  function Numbered(pieces: seq<Bytes>, number: nat): seq<(nat, Bytes)> {
    if pieces == [] then []
    else
      var line := StripCR(pieces[0]);
      (if Blank(line) then [] else [(number, line)]) + Numbered(pieces[1..], number + 1)
  }

  function SplitLines(data: Bytes): seq<(nat, Bytes)> {
    Numbered(Split(data), 1)
  }

  function LinesOf(fmt: Format, numbered: seq<(nat, Bytes)>): (occs: seq<Occurrence>)
    ensures AllFormed(fmt, occs)
    ensures forall o :: o in occs ==> o.kind == Line
  {
    if numbered == [] then []
    else [MakeOccurrence(fmt, Line, PACKED_PATH, numbered[0].0, numbered[0].1)] + LinesOf(fmt, numbered[1..])
  }

  function PackedOccurrences(fmt: Format, packed: Option<Bytes>): (occs: seq<Occurrence>)
    ensures AllFormed(fmt, occs)
    ensures forall o :: o in occs ==> o.kind == Line
  {
    if packed.None? then [] else LinesOf(fmt, SplitLines(packed.value))
  }

  /** The bytes of an image: one encoded body and a newline per element. */
  function Render(fmt: Format, bodies: seq<Body>): Bytes
    requires forall b :: b in bodies ==> fmt.encode(b).Some?
  {
    if bodies == [] then []
    else fmt.encode(bodies[0]).value + [LF] + Render(fmt, bodies[1..])
  }

  lemma {:induction false} SplitHead(line: Bytes, rest: Bytes)
    requires LF !in line
    ensures Split(line + [LF] + rest) == [line] + Split(rest)
  {
    var all := line + [LF] + rest;
    if line == [] {
      assert all[1..] == rest;
    } else {
      assert all[1..] == line[1..] + [LF] + rest;
      SplitHead(line[1..], rest);
      assert [line[0]] + line[1..] == line;
    }
  }

  /** Reading an image back gives exactly the bodies written, in order, as line
      occurrences keyed by their own `id`. */
  lemma {:induction false} RenderReadsBack(fmt: Format, bodies: seq<Body>, number: nat)
    requires Lawful(fmt)
    requires forall b :: b in bodies ==> b.encodable
    ensures var occs := LinesOf(fmt, Numbered(Split(Render(fmt, bodies)), number));
            && |occs| == |bodies|
            && forall i :: 0 <= i < |occs| ==> occs[i].raw == Some(bodies[i]) && occs[i].lineNo == number + i
  {
    if bodies == [] {
      assert Split([]) == [[]];
      assert Numbered([[]], number) == Numbered([[]][1..], number + 1) == [];
    } else {
      var line := fmt.encode(bodies[0]).value;
      var rest := Render(fmt, bodies[1..]);
      assert CleanLine(line);
      SplitHead(line, rest);
      assert Render(fmt, bodies) == line + [LF] + rest;
      assert ([line] + Split(rest))[1..] == Split(rest);
      RenderReadsBack(fmt, bodies[1..], number + 1);
      var numbered := Numbered(Split(rest), number + 1);
      assert Numbered(Split(Render(fmt, bodies)), number) == [(number, line)] + numbered;
      assert ([(number, line)] + numbered)[1..] == numbered;
    }
  }

  /* ---- conflicts ---- */

  predicate SameBody(a: Occurrence, b: Occurrence) {
    a.raw.Some? && b.raw.Some? && StrictEqual(a.raw.value, b.raw.value)
  }

  predicate Conflicting(occs: seq<Occurrence>, k: Key) {
    exists i, j ::
      0 <= i < j < |occs| && occs[i].key == Some(k) && occs[j].key == Some(k) && !SameBody(occs[i], occs[j])
  }

  /** No two selectable occurrences share a key unless their bodies are strictly equal. */
  predicate ConflictFree(occs: seq<Occurrence>) {
    forall i, j ::
      0 <= i < j < |occs| && occs[i].key.Some? && occs[i].key == occs[j].key ==> SameBody(occs[i], occs[j])
  }

  /** `conflicting_keys`: the loop compares each occurrence only with the first of
      its key, yet finds every key on which some two bodies differ. */
  method ConflictingKeys(occs: seq<Occurrence>) returns (conflicts: set<Key>)
    requires AllSound(occs)
    ensures forall k :: k in conflicts <==> Conflicting(occs, k)
    ensures conflicts == {} <==> ConflictFree(occs)
  {
    var first: map<Key, nat> := map[];
    conflicts := {};
    for n := 0 to |occs|
      invariant forall k :: k in first ==> first[k] < n && occs[first[k]].key == Some(k)
      invariant forall i :: 0 <= i < n && occs[i].key.Some? ==>
        occs[i].key.value in first && first[occs[i].key.value] <= i
      invariant forall k :: k in conflicts ==> Conflicting(occs, k)
      invariant forall i :: 0 <= i < n && occs[i].key.Some? && occs[i].key.value !in conflicts
                  ==> first[occs[i].key.value] == i || SameBody(occs[first[occs[i].key.value]], occs[i])
    {
      var occ := occs[n];
      if occ.key.Some? {
        var k := occ.key.value;
        if k !in first {
          first := first[k := n];
        } else if !SameBody(occs[first[k]], occ) {
          conflicts := conflicts + {k};
        }
      }
    }
  }

  /* ---- selection ---- */

  /** The fold of `select_checks`: later occurrences win only with a strictly higher key. */
  function Best(occs: seq<Occurrence>, d: string): (best: Option<Occurrence>)
    ensures best.Some? ==> best.value in occs && best.value.key.Some? && best.value.decision == Some(d)
  {
    if occs == [] then None
    else
      var n := |occs| - 1;
      var held := Best(occs[..n], d);
      if occs[n].key.Some? && occs[n].decision == Some(d) && (held.None? || occs[n].key.value > held.value.key.value)
      then Some(occs[n]) else held
  }

  datatype SelectedCheck = SelectedCheck(path: string, raw: Option<Body>, id: Key, kind: Kind, conflict: bool)
  {
    /** The check a reader uses, or None when validation refuses it. */
    function Validated(): Option<Body> {
      if conflict || raw.None? || !raw.value.valid then None
      else if kind == File && raw.value.id != Some(id) then None
      else raw
    }
  }

  ghost function Selected(occs: seq<Occurrence>, d: string): Option<SelectedCheck> {
    match Best(occs, d)
    case None => None
    case Some(o) => Some(SelectedCheck(o.path, o.raw, o.key.value, o.kind, Conflicting(occs, o.key.value)))
  }

  lemma {:induction false} BestStep(occs: seq<Occurrence>, n: nat, d: string)
    requires n < |occs|
    ensures Best(occs[..n + 1], d) ==
      var held := Best(occs[..n], d);
      if occs[n].key.Some? && occs[n].decision == Some(d) && (held.None? || occs[n].key.value > held.value.key.value)
      then Some(occs[n]) else held
  {
    assert occs[..n + 1][..n] == occs[..n];
  }

  /** The loop of `select_checks`. */
  method HighestPerDecision(occs: seq<Occurrence>) returns (best: map<string, Occurrence>)
    requires AllSound(occs)
    ensures forall d :: Best(occs, d) == if d in best then Some(best[d]) else None
  {
    best := map[];
    for n := 0 to |occs|
      invariant forall d :: Best(occs[..n], d) == if d in best then Some(best[d]) else None
    {
      forall d ensures Best(occs[..n + 1], d) ==
          var held := Best(occs[..n], d);
          if occs[n].key.Some? && occs[n].decision == Some(d)
            && (held.None? || occs[n].key.value > held.value.key.value)
          then Some(occs[n]) else held
      {
        BestStep(occs, n, d);
      }
      var occ := occs[n];
      if occ.key.Some? {
        var d := occ.decision.value;
        if d !in best || occ.key.value > best[d].key.value {
          best := best[d := occ];
        }
      }
    }
    assert occs[..|occs|] == occs;
  }

  method SelectChecks(occs: seq<Occurrence>) returns (checks: map<string, SelectedCheck>)
    requires AllSound(occs)
    ensures forall d :: Selected(occs, d) == if d in checks then Some(checks[d]) else None
  {
    var conflicts := ConflictingKeys(occs);
    var best := HighestPerDecision(occs);
    assert forall d :: d in best ==> Best(occs, d) == Some(best[d]);
    checks := map d | d in best && best[d].key.Some? ::
      SelectedCheck(best[d].path, best[d].raw, best[d].key.value, best[d].kind, best[d].key.value in conflicts);
  }

  /** The winner has the highest key of its decision's selectable occurrences, and
      nobody wins exactly when there are none. */
  lemma {:induction false} BestIsHighest(occs: seq<Occurrence>, d: string)
    ensures forall o :: o in occs && o.key.Some? && o.decision == Some(d)
              ==> Best(occs, d).Some? && o.key.value <= Best(occs, d).value.key.value
  {
    if occs != [] {
      var n := |occs| - 1;
      BestIsHighest(occs[..n], d);
      assert occs == occs[..n] + [occs[n]];
    }
  }

  /** Two inventories that agree, for one decision, on the key and the body chosen,
      and on what a reader accepts after validation. */
  ghost predicate SameChoice(a: seq<Occurrence>, b: seq<Occurrence>, d: string) {
    match (Selected(a, d), Selected(b, d))
    case (None, None) => true
    case (Some(x), Some(y)) => x.id == y.id && x.raw == y.raw && x.conflict == y.conflict
      && x.Validated() == y.Validated()
    case _ => false
  }

  /** `b` repeats an occurrence of `a`: same key, decision and body. */
  predicate Repeats(a: Occurrence, b: Occurrence) {
    a.key == b.key && a.decision == b.decision && a.raw == b.raw
  }

  lemma ConflictFreePair(occs: seq<Occurrence>, o: Occurrence, p: Occurrence)
    requires ConflictFree(occs) && o in occs && p in occs && o.key.Some? && o.key == p.key
    ensures o.raw == p.raw
  {
    var i :| 0 <= i < |occs| && occs[i] == o;
    var j :| 0 <= j < |occs| && occs[j] == p;
    if i < j {
      assert SameBody(occs[i], occs[j]);
    } else if j < i {
      assert SameBody(occs[j], occs[i]);
    }
  }

  lemma {:induction false} WinnerAgrees(a: seq<Occurrence>, b: seq<Occurrence>, d: string)
    requires forall o :: o in b && o.key.Some? && o.decision == Some(d) ==> exists p :: p in a && Repeats(p, o)
    requires Best(a, d).Some? ==> exists o :: o in b && Repeats(Best(a, d).value, o)
    ensures Best(a, d).Some? == Best(b, d).Some?
    ensures Best(a, d).Some? ==> Best(a, d).value.key == Best(b, d).value.key
  {
    BestIsHighest(a, d);
    BestIsHighest(b, d);
    if Best(b, d).Some? {
      var p :| p in a && Repeats(p, Best(b, d).value);
    }
  }

  /** Two conflict-free inventories make the same choice for `d` when the second
      repeats only occurrences of the first and repeats its winner. */
  lemma {:induction false} AgreeOnBest(a: seq<Occurrence>, b: seq<Occurrence>, d: string)
    requires AllSound(a) && AllSound(b)
    requires ConflictFree(a) && ConflictFree(b)
    requires forall o :: o in b && o.key.Some? && o.decision == Some(d) ==> exists p :: p in a && Repeats(p, o)
    requires Best(a, d).Some? ==> exists o :: o in b && Repeats(Best(a, d).value, o)
    ensures SameChoice(a, b, d)
  {
    WinnerAgrees(a, b, d);
    if Best(a, d).Some? {
      var top, won := Best(a, d).value, Best(b, d).value;
      var p :| p in a && Repeats(p, won);
      ConflictFreePair(a, top, p);
      assert !Conflicting(a, top.key.value) && !Conflicting(b, won.key.value);
      assert top.Sound() && won.Sound();
    }
  }

  lemma SameChoiceTransitive(a: seq<Occurrence>, b: seq<Occurrence>, c: seq<Occurrence>, d: string)
    requires SameChoice(a, b, d) && SameChoice(b, c, d)
    ensures SameChoice(a, c, d)
  {
  }
}
