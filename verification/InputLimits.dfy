/**
  The bounded walk over untrusted capture input.

  Input is a graph of objects: references may be shared and may form cycles.  Mapping keys
  and values, and the stored fields of a model, are the children of a container in order.
 */
module InputLimits {
  import opened Sequences
  import opened Wrappers

  const MAX_FIELD_BYTES: nat := 256 * 1024
  const MAX_REQUEST_BYTES: nat := 4 * 1024 * 1024
  const MAX_DRAFTS: nat := 100
  const MAX_DEPTH: nat := 32
  const MAX_ITEM_NODES: nat := 4096
  const MAX_REQUEST_NODES: nat := 65536

  type Ref = nat

  datatype Value =
    | Text(chars: nat, encoded: Option<nat>)   // its UTF-8 size; None when it cannot be encoded
    | Raw(size: nat, utf8: bool)
    | Scalar
    | Opaque                                   // enums and every other type
    | Container(children: seq<Ref>)

  type Heap = map<Ref, Value>

  /** Every child exists, and a text has at least one byte per code point. */
  predicate Closed(heap: Heap) {
    forall r :: r in heap ==>
      match heap[r]
      case Container(children) => forall c :: c in children ==> c in heap
      case Text(chars, encoded) => encoded.Some? ==> chars <= encoded.value
      case _ => true
  }

  datatype Measurement = Measurement(bytes: nat, nodes: nat)

  function Plus(a: Measurement, b: Measurement): Measurement {
    Measurement(a.bytes + b.bytes, a.nodes + b.nodes)
  }

  /* ---- the whole tree, measured without any cut ---- */

  function LeafBytes(v: Value): Option<nat>
    requires !v.Container?
  {
    match v
    case Text(chars, encoded) => if encoded.Some? && encoded.value <= MAX_FIELD_BYTES then encoded else None
    case Raw(size, utf8) => if utf8 && size <= MAX_FIELD_BYTES then Some(size) else None
    case Scalar => Some(0)
    case Opaque => None
  }

  /** The unfolding of a reference to the given depth; None when it is deeper, or holds text
      or a type that is never admitted. */
  function Measure(heap: Heap, r: Ref, depth: nat): Option<Measurement>
    requires Closed(heap) && r in heap
    decreases depth, 1, 0
  {
    match heap[r]
    case Container(children) =>
      if children == [] then Some(Measurement(0, 1))
      else if depth == 0 then None
      else
        (match MeasureAll(heap, children, depth - 1)
         case None => None
         case Some(m) => Some(Plus(Measurement(0, 1), m)))
    case _ =>
      match LeafBytes(heap[r])
      case None => None
      case Some(b) => Some(Measurement(b, 1))
  }

  function MeasureAll(heap: Heap, rs: seq<Ref>, depth: nat): Option<Measurement>
    requires Closed(heap) && forall r :: r in rs ==> r in heap
    decreases depth, 2, |rs|
  {
    if rs == [] then Some(Measurement(0, 0))
    else
      match MeasureAll(heap, rs[..|rs| - 1], depth)
      case None => None
      case Some(m) =>
        match Measure(heap, rs[|rs| - 1], depth)
        case None => None
        case Some(last) => Some(Plus(m, last))
  }

  /** Every child is at least one node. */
  lemma {:induction false} WidthIsNodes(heap: Heap, rs: seq<Ref>, depth: nat)
    requires Closed(heap) && (forall r :: r in rs ==> r in heap) && MeasureAll(heap, rs, depth).Some?
    ensures MeasureAll(heap, rs, depth).value.nodes >= |rs|
  {
    if rs != [] {
      WidthIsNodes(heap, rs[..|rs| - 1], depth);
    }
  }

  /** A tree is measured only if all its children are. */
  lemma {:induction false} EachMeasured(heap: Heap, rs: seq<Ref>, depth: nat, r: Ref)
    requires Closed(heap) && (forall x :: x in rs ==> x in heap) && MeasureAll(heap, rs, depth).Some? && r in rs
    ensures Measure(heap, r, depth).Some?
  {
    var k := |rs| - 1;
    if r != rs[k] {
      assert rs == rs[..k] + [rs[k]];
      EachMeasured(heap, rs[..k], depth, r);
    }
  }

  /** A prefix of measured children is measured, and is no larger. */
  lemma {:induction false} PrefixMeasured(heap: Heap, rs: seq<Ref>, depth: nat, k: nat)
    requires Closed(heap) && (forall x :: x in rs ==> x in heap) && k <= |rs|
    ensures MeasureAll(heap, rs, depth).Some? ==>
      MeasureAll(heap, rs[..k], depth).Some?
        && MeasureAll(heap, rs[..k], depth).value.nodes <= MeasureAll(heap, rs, depth).value.nodes
  {
    if k < |rs| {
      var n := |rs| - 1;
      PrefixMeasured(heap, rs[..n], depth, k);
      assert rs[..n][..k] == rs[..k];
    } else {
      assert rs[..k] == rs;
    }
  }

  /* ---- cycles ---- */

  predicate Edge(heap: Heap, a: Ref, b: Ref) {
    a in heap && heap[a].Container? && b in heap[a].children
  }

  /** Each reference holds the next. */
  predicate Path(heap: Heap, path: seq<Ref>) {
    forall i :: 0 <= i < |path| - 1 ==> Edge(heap, path[i], path[i + 1])
  }

  lemma SuffixPath(heap: Heap, path: seq<Ref>, k: nat)
    requires Path(heap, path) && k <= |path|
    ensures Path(heap, path[k..])
  {
    forall i | 0 <= i < |path[k..]| - 1 ensures Edge(heap, path[k..][i], path[k..][i + 1]) {
      assert Edge(heap, path[k + i], path[k + i + 1]);
    }
  }

  lemma StepMeasured(heap: Heap, a: Ref, b: Ref, depth: nat)
    requires Closed(heap) && Edge(heap, a, b) && Measure(heap, a, depth).Some?
    ensures depth > 0 && Measure(heap, b, depth - 1).Some?
  {
    EachMeasured(heap, heap[a].children, depth - 1, b);
  }

  lemma {:induction false} AlongPath(heap: Heap, path: seq<Ref>, depth: nat)
    requires Closed(heap) && path != [] && Path(heap, path) && path[0] in heap && Measure(heap, path[0], depth).Some?
    ensures |path| - 1 <= depth && path[|path| - 1] in heap
    ensures Measure(heap, path[|path| - 1], depth - (|path| - 1)).Some?
    decreases |path|
  {
    if |path| > 1 {
      StepMeasured(heap, path[0], path[1], depth);
      SuffixPath(heap, path, 1);
      AlongPath(heap, path[1..], depth - 1);
    }
  }

  /** What leads back to itself is measured at no depth. */
  lemma {:induction false} CycleUnmeasured(heap: Heap, path: seq<Ref>, depth: nat)
    requires Closed(heap) && |path| > 1 && Path(heap, path) && path[0] == path[|path| - 1] && path[0] in heap
    ensures Measure(heap, path[0], depth).None?
    decreases depth
  {
    if Measure(heap, path[0], depth).Some? {
      AlongPath(heap, path, depth);
      CycleUnmeasured(heap, path, depth - (|path| - 1));
    }
  }

  /* ---- the walk ---- */

  function Refs(path: seq<Ref>): set<Ref> {
    set r | r in path
  }

  /** Whether a tree fits what is left of the node budget, and what it adds. */
  function Admits(heap: Heap, r: Ref, depth: nat, nodes: nat): Option<Measurement>
    requires Closed(heap) && r in heap
  {
    var m := Measure(heap, r, depth);
    if m.Some? && nodes + m.value.nodes <= MAX_ITEM_NODES then m else None
  }

  lemma {:induction false} ActiveUnmeasured(heap: Heap, path: seq<Ref>, r: Ref, depth: nat)
    requires Closed(heap) && Path(heap, path + [r]) && r in path && r in heap
    ensures Measure(heap, r, depth).None?
  {
    var j :| 0 <= j < |path| && path[j] == r;
    var cycle := (path + [r])[j..];
    SuffixPath(heap, path + [r], j);
    CycleUnmeasured(heap, cycle, depth);
  }

  class Meter {
    var nodes: nat
    var bytes: nat
    var active: set<Ref>

    constructor ()
      ensures nodes == 0 && bytes == 0 && active == {}
    {
      nodes, bytes, active := 0, 0, {};
    }

    /** `walk`: with its early cuts on width and depth and its check for cycles, it accepts
        exactly the trees that fit, and adds exactly what they measure. */
    method Visit(heap: Heap, r: Ref, depth: nat, ghost path: seq<Ref>) returns (ok: bool)
      requires Closed(heap) && r in heap && depth <= MAX_DEPTH && nodes <= MAX_ITEM_NODES
      requires active == Refs(path) && Path(heap, path + [r])
      modifies this
      ensures active == old(active)
      ensures ok <==> Admits(heap, r, MAX_DEPTH - depth, old(nodes)).Some?
      ensures ok ==>
        var m := Measure(heap, r, MAX_DEPTH - depth).value;
        nodes == old(nodes) + m.nodes && bytes == old(bytes) + m.bytes
      decreases MAX_DEPTH - depth, 0
    {
      if nodes >= MAX_ITEM_NODES {
        NodesPositive(heap, r, MAX_DEPTH - depth);
        return false;
      }
      nodes := nodes + 1;
      match heap[r]
      case Text(chars, encoded) =>
        if chars > MAX_FIELD_BYTES || encoded.None? || encoded.value > MAX_FIELD_BYTES {
          return false;
        }
        bytes := bytes + encoded.value;
        return true;
      case Raw(size, utf8) =>
        if size > MAX_FIELD_BYTES || !utf8 {
          return false;
        }
        bytes := bytes + size;
        return true;
      case Scalar =>
        return true;
      case Opaque =>
        return false;
      case Container(children) =>
        if |children| > MAX_ITEM_NODES - nodes {
          if children != [] && depth < MAX_DEPTH && MeasureAll(heap, children, MAX_DEPTH - depth - 1).Some? {
            WidthIsNodes(heap, children, MAX_DEPTH - depth - 1);
          }
          return false;
        }
        if children != [] && depth >= MAX_DEPTH {
          return false;
        }
        if r in active {
          ActiveUnmeasured(heap, path, r, MAX_DEPTH - depth);
          return false;
        }
        if children == [] {
          return true;
        }
        active := active + {r};
        ok := Children(heap, r, children, depth + 1, path + [r]);
        active := active - {r};
    }

    method Children(heap: Heap, r: Ref, children: seq<Ref>, depth: nat, ghost path: seq<Ref>) returns (ok: bool)
      requires Closed(heap) && r in heap && heap[r] == Container(children) && depth <= MAX_DEPTH
        && nodes <= MAX_ITEM_NODES
      requires active == Refs(path) && Path(heap, path) && path != [] && path[|path| - 1] == r
      modifies this
      ensures active == old(active)
      ensures ok <==> MeasureAll(heap, children, MAX_DEPTH - depth).Some?
                      && old(nodes) + MeasureAll(heap, children, MAX_DEPTH - depth).value.nodes <= MAX_ITEM_NODES
      ensures ok ==> var m := MeasureAll(heap, children, MAX_DEPTH - depth).value;
        nodes == old(nodes) + m.nodes && bytes == old(bytes) + m.bytes
      decreases MAX_DEPTH - depth, 1
    {
      ghost var d := MAX_DEPTH - depth;
      for k := 0 to |children|
        invariant active == old(active) && nodes <= MAX_ITEM_NODES
        invariant MeasureAll(heap, children[..k], d).Some?
        invariant nodes == old(nodes) + MeasureAll(heap, children[..k], d).value.nodes
        invariant bytes == old(bytes) + MeasureAll(heap, children[..k], d).value.bytes
      {
        assert children[..k + 1][..k] == children[..k];
        assert children[k] in children;
        assert Edge(heap, r, children[k]);
        var accepted := Visit(heap, children[k], depth, path);
        PrefixMeasured(heap, children, d, k + 1);
        if !accepted {
          return false;
        }
      }
      assert children[..|children|] == children;
      ok := true;
    }
  }

  lemma {:induction false} NodesPositive(heap: Heap, r: Ref, depth: nat)
    requires Closed(heap) && r in heap
    ensures Measure(heap, r, depth).Some? ==> Measure(heap, r, depth).value.nodes >= 1
  {
  }

  /** What `measure_item` admits: the unfolded item within 32 levels and 4096 nodes. */
  function Item(heap: Heap, r: Ref): Option<Measurement>
    requires Closed(heap) && r in heap
  {
    Admits(heap, r, MAX_DEPTH, 0)
  }

  /** `measure_item`. */
  method MeasureItem(heap: Heap, r: Ref) returns (m: Option<Measurement>)
    requires Closed(heap) && r in heap
    ensures m == Item(heap, r)
  {
    var meter := new Meter();
    var ok := meter.Visit(heap, r, 0, []);
    m := if ok then Some(Measurement(meter.bytes, meter.nodes)) else None;
  }

  /** An item that contains itself is refused, wherever the cycle is. */
  lemma CyclicRefused(heap: Heap, path: seq<Ref>, into: nat)
    requires Closed(heap) && Path(heap, path) && into < |path| - 1 && path[into] == path[|path| - 1] && path[0] in heap
    ensures Item(heap, path[0]).None?
  {
    if Item(heap, path[0]).Some? {
      var lead, cycle := path[..into + 1], path[into..];
      AlongPath(heap, lead, MAX_DEPTH);
      SuffixPath(heap, path, into);
      CycleUnmeasured(heap, cycle, MAX_DEPTH - into);
    }
  }

  /* ---- a request ---- */

  /** A draft, the length of its attached facts, and whether its position is a decision's. */
  datatype Draft = Draft(item: Ref, facts: nat, decision: bool)

  function Counted(d: Draft): nat {
    1 + if d.decision then d.facts else 0
  }

  function DraftCount(drafts: seq<Draft>): nat {
    if drafts == [] then 0 else DraftCount(drafts[..|drafts| - 1]) + Counted(drafts[|drafts| - 1])
  }

  function AttachedCount(drafts: seq<Draft>): nat {
    if drafts == [] then 0
    else
      var last := drafts[|drafts| - 1];
      AttachedCount(drafts[..|drafts| - 1]) + if last.decision then last.facts else 0
  }

  /** What an item adds to the request; a rejected one adds nothing. */
  function Adds(heap: Heap, r: Ref): Measurement {
    if Closed(heap) && r in heap && Item(heap, r).Some? then Item(heap, r).value else Measurement(0, 0)
  }

  function Sum(ms: seq<Measurement>): Measurement {
    if ms == [] then Measurement(0, 0) else Plus(Sum(ms[..|ms| - 1]), ms[|ms| - 1])
  }

  /** What the admitted items add up to. */
  function SumOf(heap: Heap, rs: seq<Ref>): Measurement {
    Sum(Map(r => Adds(heap, r), rs))
  }

  function ItemsOf(drafts: seq<Draft>): seq<Ref> {
    Map((d: Draft) => d.item, drafts)
  }

  predicate OverBudget(m: Measurement) {
    m.bytes > MAX_REQUEST_BYTES || m.nodes > MAX_REQUEST_NODES
  }

  /** When a request is refused as a whole. */
  predicate Raises(heap: Heap, drafts: seq<Draft>, metadata: seq<Ref>)
    requires Closed(heap) && (forall r :: r in metadata ==> r in heap) && forall d :: d in drafts ==> d.item in heap
  {
    || DraftCount(drafts) > MAX_DRAFTS
    || (exists r :: r in metadata && Item(heap, r).None?)
    || OverBudget(Plus(SumOf(heap, metadata), SumOf(heap, ItemsOf(drafts))))
  }

  lemma {:induction false} CountSplits(drafts: seq<Draft>)
    ensures DraftCount(drafts) == |drafts| + AttachedCount(drafts)
  {
    if drafts != [] { CountSplits(drafts[..|drafts| - 1]); }
  }

  lemma {:induction false} AttachedGrows(drafts: seq<Draft>, k: nat)
    requires k <= |drafts|
    ensures AttachedCount(drafts[..k]) <= AttachedCount(drafts)
  {
    if k < |drafts| {
      AttachedGrows(drafts[..|drafts| - 1], k);
      assert drafts[..|drafts| - 1][..k] == drafts[..k];
    } else {
      assert drafts[..k] == drafts;
    }
  }

  lemma {:induction false} SumGrows(ms: seq<Measurement>, k: nat)
    requires k <= |ms|
    ensures Sum(ms[..k]).bytes <= Sum(ms).bytes && Sum(ms[..k]).nodes <= Sum(ms).nodes
  {
    if k < |ms| {
      SumGrows(ms[..|ms| - 1], k);
      assert ms[..|ms| - 1][..k] == ms[..k];
    } else {
      assert ms[..k] == ms;
    }
  }

  /** One more item of a list. */
  lemma SumNext(heap: Heap, rs: seq<Ref>, k: nat)
    requires k < |rs|
    ensures SumOf(heap, rs[..k + 1]) == Plus(SumOf(heap, rs[..k]), Adds(heap, rs[k]))
    ensures SumOf(heap, rs[..k + 1]).bytes <= SumOf(heap, rs).bytes
      && SumOf(heap, rs[..k + 1]).nodes <= SumOf(heap, rs).nodes
  {
    var f := r => Adds(heap, r);
    var ms := Map(f, rs);
    assert rs[..k + 1][..k] == rs[..k];
    assert Map(f, rs[..k + 1]) == ms[..k + 1] && Map(f, rs[..k]) == ms[..k];
    assert ms[..k + 1][..k] == ms[..k];
    SumGrows(ms, k + 1);
  }

  /** Admitted items are at least one node each, so too many of them exceed the node budget. */
  lemma {:induction false} ManyNodes(ms: seq<Measurement>)
    requires forall m :: m in ms ==> m.nodes >= 1
    ensures Sum(ms).nodes >= |ms|
  {
    if ms != [] {
      assert ms == ms[..|ms| - 1] + [ms[|ms| - 1]];
      ManyNodes(ms[..|ms| - 1]);
    }
  }

  lemma ManyItems(heap: Heap, rs: seq<Ref>)
    requires Closed(heap) && forall r :: r in rs ==> r in heap && Item(heap, r).Some?
    ensures SumOf(heap, rs).nodes >= |rs|
  {
    var ms := Map(r => Adds(heap, r), rs);
    forall m | m in ms ensures m.nodes >= 1 {
      var i :| 0 <= i < |ms| && ms[i] == m;
      assert rs[i] in rs;
      NodesPositive(heap, rs[i], MAX_DEPTH);
    }
    ManyNodes(ms);
  }

  /** `preflight_drafts`: None when it raises, else which drafts were rejected on their own. */
  method PreflightDrafts(heap: Heap, drafts: seq<Draft>, metadata: seq<Ref>) returns (errors: Option<seq<bool>>)
    requires Closed(heap) && (forall r :: r in metadata ==> r in heap) && forall d :: d in drafts ==> d.item in heap
    ensures errors.None? <==> Raises(heap, drafts, metadata)
    ensures errors.Some? ==>
      |errors.value| == |drafts| && forall i :: 0 <= i < |drafts| ==>
        (errors.value[i] <==> Item(heap, drafts[i].item).None?)
  {
    var countable := CountDrafts(drafts);
    if !countable {
      return None;
    }
    if |metadata| > MAX_REQUEST_NODES {
      if forall r :: r in metadata ==> Item(heap, r).Some? {
        ManyItems(heap, metadata);
      }
      return None;
    }
    var total := AdmitMetadata(heap, metadata);
    if total.None? {
      return None;
    }
    forall r | r in ItemsOf(drafts) ensures r in heap {
      var i :| 0 <= i < |drafts| && ItemsOf(drafts)[i] == r;
      assert drafts[i] in drafts;
    }
    errors := AdmitDrafts(heap, ItemsOf(drafts), total.value);
  }

  /** The draft count, attached facts of the decisions included. */
  method CountDrafts(drafts: seq<Draft>) returns (ok: bool)
    ensures ok <==> DraftCount(drafts) <= MAX_DRAFTS
  {
    var count := |drafts|;
    CountSplits(drafts);
    if count > MAX_DRAFTS {
      return false;
    }
    for k := 0 to |drafts|
      invariant count == |drafts| + AttachedCount(drafts[..k]) <= MAX_DRAFTS
    {
      assert drafts[..k + 1][..k] == drafts[..k];
      AttachedGrows(drafts, k + 1);
      if drafts[k].decision {
        count := count + drafts[k].facts;
        if count > MAX_DRAFTS {
          return false;
        }
      }
    }
    assert drafts[..|drafts|] == drafts;
    ok := true;
  }

  /** `_admit` of one measured item on top of `start` and the items before it. */
  method AdmitNext(heap: Heap, rs: seq<Ref>, k: nat, start: Measurement, total: Measurement, m: Measurement)
      returns (next: Option<Measurement>)
    requires k < |rs| && total == Plus(start, SumOf(heap, rs[..k])) && m == Adds(heap, rs[k])
    ensures next.Some? ==> next.value == Plus(start, SumOf(heap, rs[..k + 1])) && !OverBudget(next.value)
    ensures next.None? ==> OverBudget(Plus(start, SumOf(heap, rs)))
  {
    SumNext(heap, rs, k);
    var combined := Plus(total, m);
    next := if OverBudget(combined) then None else Some(combined);
  }

  /** One item: rejected on its own, or added to the budget. */
  method AdmitItem(heap: Heap, items: seq<Ref>, k: nat, start: Measurement, total: Measurement)
    returns (rejected: bool, next: Option<Measurement>)
    requires Closed(heap) && k < |items| && items[k] in heap
    requires total == Plus(start, SumOf(heap, items[..k])) && !OverBudget(total)
    ensures rejected <==> Item(heap, items[k]).None?
    ensures next.Some? ==> next.value == Plus(start, SumOf(heap, items[..k + 1])) && !OverBudget(next.value)
    ensures next.None? ==> OverBudget(Plus(start, SumOf(heap, items)))
  {
    var m := MeasureItem(heap, items[k]);
    if m.None? {
      SumNext(heap, items, k);
      return true, Some(total);
    }
    rejected := false;
    next := AdmitNext(heap, items, k, start, total, m.value);
  }

  lemma PlusZero(m: Measurement)
    ensures Plus(Measurement(0, 0), m) == m
  {
  }

  method AdmitMetadata(heap: Heap, metadata: seq<Ref>) returns (total: Option<Measurement>)
    requires Closed(heap) && forall r :: r in metadata ==> r in heap
    ensures total.None? <==> (exists r :: r in metadata && Item(heap, r).None?) || OverBudget(SumOf(heap, metadata))
    ensures total.Some? ==> total.value == SumOf(heap, metadata)
  {
    var rejected;
    rejected, total := AdmitAll(heap, metadata, Measurement(0, 0));
    PlusZero(SumOf(heap, metadata));
    if rejected {
      total := None;
    }
  }

  /** `total = _admit(total, measure_item(value))` over the metadata. */
  method AdmitAll(heap: Heap, items: seq<Ref>, start: Measurement) returns (rejected: bool, total: Option<Measurement>)
    requires Closed(heap) && (forall r :: r in items ==> r in heap) && !OverBudget(start)
    ensures rejected ==> exists r :: r in items && Item(heap, r).None?
    ensures !rejected && total.None? ==> OverBudget(Plus(start, SumOf(heap, items)))
    ensures !rejected && total.Some? ==> total.value == Plus(start, SumOf(heap, items)) && !OverBudget(total.value)
    ensures !rejected && total.Some? ==> forall r :: r in items ==> Item(heap, r).Some?
  {
    var sum := start;
    for k := 0 to |items|
      invariant sum == Plus(start, SumOf(heap, items[..k])) && !OverBudget(sum)
      invariant forall r :: r in items[..k] ==> Item(heap, r).Some?
    {
      assert items[k] in items && items[..k + 1] == items[..k] + [items[k]];
      var refused, next := AdmitItem(heap, items, k, start, sum);
      if refused || next.None? {
        return refused, None;
      }
      sum := next.value;
    }
    assert items[..|items|] == items;
    rejected, total := false, Some(sum);
  }

  method AdmitDrafts(heap: Heap, items: seq<Ref>, start: Measurement) returns (errors: Option<seq<bool>>)
    requires Closed(heap) && (forall r :: r in items ==> r in heap) && !OverBudget(start)
    ensures errors.None? <==> OverBudget(Plus(start, SumOf(heap, items)))
    ensures errors.Some? ==>
      |errors.value| == |items| && forall i :: 0 <= i < |items| ==> (errors.value[i] <==> Item(heap, items[i]).None?)
  {
    var total, out := start, [];
    for k := 0 to |items|
      invariant |out| == k && total == Plus(start, SumOf(heap, items[..k])) && !OverBudget(total)
      invariant forall i :: 0 <= i < k ==> (out[i] <==> Item(heap, items[i]).None?)
    {
      assert items[k] in items;
      var rejected, next := AdmitItem(heap, items, k, start, total);
      out := out + [rejected];
      if next.None? {
        return None;
      }
      total := next.value;
    }
    assert items[..|items|] == items;
    errors := Some(out);
  }

  /* ---- the order of the drafts ---- */

  lemma {:induction false} SumConcat(a: seq<Measurement>, b: seq<Measurement>)
    ensures Sum(a + b) == Plus(Sum(a), Sum(b))
  {
    if b == [] {
      assert a + b == a;
    } else {
      assert (a + b)[..|a + b| - 1] == a + b[..|b| - 1];
      SumConcat(a, b[..|b| - 1]);
    }
  }

  lemma {:induction false} SumAround(front: seq<Measurement>, x: Measurement, back: seq<Measurement>)
    ensures Sum((front + [x]) + back) == Plus(Sum(front + back), x)
  {
    SumConcat(front + [x], back);
    assert (front + [x])[..|front|] == front;
    SumConcat(front, back);
  }

  lemma {:induction false} SumReordered(a: seq<Measurement>, b: seq<Measurement>)
    requires multiset(a) == multiset(b)
    ensures Sum(a) == Sum(b)
    decreases |a|
  {
    if a == [] {
      assert |multiset(b)| == 0;
      assert b == [];
    } else {
      var init, x := a[..|a| - 1], a[|a| - 1];
      assert a == init + [x];
      var front, back := TakeOut(init, x, b);
      SumReordered(init, front + back);
      SumAround(front, x, back);
    }
  }

  lemma {:induction false} CountIsSum(drafts: seq<Draft>)
    ensures DraftCount(drafts) == Sum(Map((d: Draft) => Measurement(0, Counted(d)), drafts)).nodes
  {
    if drafts != [] {
      var f := (d: Draft) => Measurement(0, Counted(d));
      CountIsSum(drafts[..|drafts| - 1]);
      assert Map(f, drafts)[..|drafts| - 1] == Map(f, drafts[..|drafts| - 1]);
    }
  }

  lemma {:induction false} DraftsReordered(a: seq<Draft>, b: seq<Draft>)
    requires multiset(a) == multiset(b)
    ensures DraftCount(a) == DraftCount(b)
  {
    var f := (d: Draft) => Measurement(0, Counted(d));
    CountIsSum(a);
    CountIsSum(b);
    MapReordered(f, a, b);
    SumReordered(Map(f, a), Map(f, b));
  }

  lemma ItemsReordered(heap: Heap, a: seq<Ref>, b: seq<Ref>)
    requires multiset(a) == multiset(b)
    ensures SumOf(heap, a) == SumOf(heap, b)
  {
    MapReordered(r => Adds(heap, r), a, b);
    SumReordered(Map(r => Adds(heap, r), a), Map(r => Adds(heap, r), b));
  }

  /** MAIN: whether a request is refused does not depend on the order of its drafts or of its
      metadata. */
  lemma OrderIndependent(heap: Heap, a: seq<Draft>, b: seq<Draft>, m: seq<Ref>, n: seq<Ref>)
    requires Closed(heap) && (forall r :: r in m ==> r in heap) && forall d :: d in a ==> d.item in heap
    requires multiset(a) == multiset(b) && multiset(m) == multiset(n)
    ensures (forall r :: r in n ==> r in heap) && (forall d :: d in b ==> d.item in heap)
    ensures Raises(heap, a, m) <==> Raises(heap, b, n)
  {
    forall r | r in n ensures r in m { assert r in multiset(n); }
    forall r | r in m ensures r in n { assert r in multiset(m); }
    forall d | d in b ensures d in a { assert d in multiset(b); }
    DraftsReordered(a, b);
    ItemsReordered(heap, m, n);
    MapReordered((d: Draft) => d.item, a, b);
    ItemsReordered(heap, ItemsOf(a), ItemsOf(b));
  }
}
