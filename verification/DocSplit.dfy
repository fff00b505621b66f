/** Splitting one section of a document into child records. */
module DocSplit {
  import opened Wrappers
  import opened AdrFiles

  /** How a line reads: a fence marker, a heading of level 1 to 3 with its text, a split keyword;
      what redaction leaves of a body, and the slug of a heading. */
  datatype Reader = Reader(
    fence: string -> bool, level: string -> nat, text: string -> string, splits: string -> bool,
    choice: seq<string> -> string, slug: string -> string)

  datatype Heading = Heading(line: nat, level: nat, text: string)

  /* ---- headings outside fences ---- */

  /** An odd number of fence lines precedes line `i`. */
  predicate InFence(rd: Reader, lines: seq<string>, i: nat)
    requires i <= |lines|
  {
    if i == 0 then false else if rd.fence(lines[i - 1]) then !InFence(rd, lines, i - 1) else InFence(rd, lines, i - 1)
  }

  predicate HeadingAt(rd: Reader, lines: seq<string>, i: nat)
    requires i < |lines|
  {
    !rd.fence(lines[i]) && !InFence(rd, lines, i) && 1 <= rd.level(lines[i]) <= 3
  }

  /** The headings, as a reader of the whole document would list them. */
  ghost predicate HeadingsOf(rd: Reader, lines: seq<string>, n: nat, heads: seq<Heading>)
    requires n <= |lines|
  {
    && (forall k :: 0 <= k < |heads| ==>
          heads[k].line < n && HeadingAt(rd, lines, heads[k].line)
          && heads[k].level == rd.level(lines[heads[k].line]) && heads[k].text == rd.text(lines[heads[k].line]))
    && (forall j, k :: 0 <= j < k < |heads| ==> heads[j].line < heads[k].line)
    && (forall i :: 0 <= i < n && HeadingAt(rd, lines, i) ==> exists k :: 0 <= k < |heads| && heads[k].line == i)
  }

  /** `_heading_positions`: every heading outside a fence, once, in order. */
  method HeadingPositions(rd: Reader, lines: seq<string>) returns (heads: seq<Heading>)
    ensures HeadingsOf(rd, lines, |lines|, heads)
  {
    heads := [];
    var inFence := false;
    for i := 0 to |lines|
      invariant inFence == InFence(rd, lines, i) && HeadingsOf(rd, lines, i, heads)
    {
      if rd.fence(lines[i]) {
        inFence := !inFence;
        continue;
      }
      if inFence {
        continue;
      }
      ghost var before := heads;
      if 1 <= rd.level(lines[i]) <= 3 {
        heads := heads + [Heading(i, rd.level(lines[i]), rd.text(lines[i]))];
        forall j | 0 <= j <= i && HeadingAt(rd, lines, j) ensures exists k :: 0 <= k < |heads| && heads[k].line == j {
          if j < i {
            var k :| 0 <= k < |before| && before[k].line == j;
            assert heads[k].line == j;
          } else {
            assert heads[|before|].line == i;
          }
        }
      }
    }
  }

  /* ---- the section and its children ---- */

  /** A child: its heading line is just before its body, lines `from` up to `to`. */
  datatype Child = Child(text: string, from: nat, to: nat)

  datatype Section = Section(heading: Heading, introEnd: nat, end: nat, children: seq<Child>)

  predicate Ordered(heads: seq<Heading>, n: nat) {
    && (forall k :: 0 <= k < |heads| ==> heads[k].line < n && 1 <= heads[k].level <= 3)
    && (forall j, k :: 0 <= j < k < |heads| ==> heads[j].line < heads[k].line)
  }

  /** The line of the first H1, -1 without one. */
  function FirstTitle(heads: seq<Heading>): int {
    if heads == [] then -1 else if heads[0].level == 1 then heads[0].line else FirstTitle(heads[1..])
  }

  predicate Candidate(rd: Reader, title: int, h: Heading) {
    h.line > title && h.level <= 2 && rd.splits(h.text)
  }

  /** The position of the first split candidate. */
  function FindSplit(rd: Reader, title: int, heads: seq<Heading>): (r: Option<nat>)
    ensures r.Some? ==> r.value < |heads| && Candidate(rd, title, heads[r.value])
                        && forall k :: 0 <= k < r.value ==> !Candidate(rd, title, heads[k])
    ensures r.None? ==> forall h :: h in heads ==> !Candidate(rd, title, h)
  {
    if heads == [] then None
    else if Candidate(rd, title, heads[0]) then Some(0)
    else
      var rest := FindSplit(rd, title, heads[1..]);
      if rest.None? then None else Some(rest.value + 1)
  }

  /** The first heading of level 1 or 2 ends the section. */
  function SectionEnd(after: seq<Heading>, n: nat): nat {
    if after == [] then n else if after[0].level <= 2 then after[0].line else SectionEnd(after[1..], n)
  }

  function Min(a: nat, b: nat): nat {
    if a <= b then a else b
  }

  function BodyEnd(after: seq<Heading>, k: nat, n: nat, end: nat): nat
    requires k < |after|
  {
    Min(if k + 1 < |after| then after[k + 1].line else n, end)
  }

  function ChildrenOf(after: seq<Heading>, n: nat, end: nat, k: nat): seq<Child>
    requires k <= |after|
  {
    if k == 0 then []
    else
      var h := after[k - 1];
      ChildrenOf(after, n, end, k - 1) +
      if h.line >= end || h.level != 3 then [] else [Child(h.text, h.line + 1, BodyEnd(after, k - 1, n, end))]
  }

  /** `_split_section_children`, on the headings; None when no section splits. */
  function SplitOf(rd: Reader, heads: seq<Heading>, n: nat): Option<Section> {
    var split := FindSplit(rd, FirstTitle(heads), heads);
    if split.None? then None
    else
      var after := heads[split.value + 1..];
      var end := SectionEnd(after, n);
      var introEnd := if after == [] then n else after[0].line;
      Some(Section(heads[split.value], introEnd, end, ChildrenOf(after, n, end, |after|)))
  }

  method SplitSectionChildren(rd: Reader, lines: seq<string>)
      returns (section: Option<Section>, ghost heads: seq<Heading>)
    ensures HeadingsOf(rd, lines, |lines|, heads) && section == SplitOf(rd, heads, |lines|)
  {
    var found := HeadingPositions(rd, lines);
    heads := found;
    var split := FindSplit(rd, FirstTitle(found), found);
    if split.None? {
      return None, heads;
    }
    var after := found[split.value + 1..];
    var end := SectionEnd(after, |lines|);
    var children := CollectChildren(after, |lines|, end);
    section := Some(Section(found[split.value], if after == [] then |lines| else after[0].line, end, children));
  }

  method CollectChildren(after: seq<Heading>, n: nat, end: nat) returns (children: seq<Child>)
    ensures children == ChildrenOf(after, n, end, |after|)
  {
    children := [];
    for pos := 0 to |after|
      invariant children == ChildrenOf(after, n, end, pos)
    {
      if after[pos].line >= end || after[pos].level != 3 {
        continue;
      }
      children := children + [Child(after[pos].text, after[pos].line + 1, BodyEnd(after, pos, n, end))];
    }
  }

  /* ---- no line is lost or repeated ---- */

  /** How many headings lie before the end of the section. */
  function Inner(after: seq<Heading>): (m: nat)
    ensures m <= |after|
  {
    if after == [] || after[0].level <= 2 then 0 else 1 + Inner(after[1..])
  }

  lemma {:induction false} InnerIsSection(after: seq<Heading>, n: nat)
    requires Ordered(after, n)
    ensures SectionEnd(after, n) == if Inner(after) < |after| then after[Inner(after)].line else n
    ensures forall k :: 0 <= k < Inner(after) ==> after[k].level == 3 && after[k].line < SectionEnd(after, n)
    ensures forall k :: Inner(after) <= k < |after| ==> after[k].line >= SectionEnd(after, n)
  {
    if after != [] && after[0].level == 3 {
      InnerIsSection(after[1..], n);
      forall k | 0 < k < |after| ensures after[1..][k - 1] == after[k] {}
      if Inner(after) > 1 { assert after[1..][0].line < SectionEnd(after, n); }
    }
  }

  /** The lines of the children so far: each heading line, then its body. */
  function Flatten(lines: seq<string>, children: seq<Child>): seq<string>
    requires forall c :: c in children ==> 1 <= c.from <= c.to <= |lines|
  {
    if children == [] then []
    else
      var c := children[|children| - 1];
      assert c in children;
      Flatten(lines, children[..|children| - 1]) + [lines[c.from - 1]] + lines[c.from..c.to]
  }

  predicate InLines(children: seq<Child>, low: nat, high: nat) {
    forall c :: c in children ==> low < c.from <= c.to <= high
  }

  /** Where the headings of the section have got to. */
  function Reached(after: seq<Heading>, n: nat, k: nat): nat
    requires k <= Inner(after)
  {
    if k < Inner(after) then after[k].line else SectionEnd(after, n)
  }

  lemma {:induction false} FlattenMore(lines: seq<string>, prior: seq<Child>, c: Child)
    requires (forall x :: x in prior ==> 1 <= x.from <= x.to <= |lines|) && 1 <= c.from <= c.to <= |lines|
    ensures Flatten(lines, prior + [c]) == Flatten(lines, prior) + [lines[c.from - 1]] + lines[c.from..c.to]
  {
    assert (prior + [c])[..|prior|] == prior;
  }

  lemma SliceMore(lines: seq<string>, low: nat, at: nat, to: nat)
    requires low <= at < to <= |lines|
    ensures lines[low..to] == lines[low..at] + [lines[at]] + lines[at + 1..to]
  {
  }

  /** A child whose heading is the next line extends the tiling. */
  lemma {:induction false} TileNext(lines: seq<string>, prior: seq<Child>, c: Child, low: nat, at: nat)
    requires InLines(prior, low, |lines|) && low <= at && c.from == at + 1 <= c.to <= |lines|
    requires Flatten(lines, prior) == lines[low..at]
    ensures InLines(prior + [c], low, |lines|)
    ensures Flatten(lines, prior + [c]) == lines[low..c.to]
  {
    FlattenMore(lines, prior, c);
    SliceMore(lines, low, at, c.to);
  }

  /** The k-th child, and where its body ends. */
  lemma ChildAt(after: seq<Heading>, n: nat, k: nat)
    requires Ordered(after, n) && k < Inner(after)
    ensures var end := SectionEnd(after, n);
      var c := Child(after[k].text, after[k].line + 1, BodyEnd(after, k, n, end));
      && end <= n && ChildrenOf(after, n, end, k + 1) == ChildrenOf(after, n, end, k) + [c]
      && c.to == Reached(after, n, k + 1) && after[k].line == Reached(after, n, k) < c.to <= end
  {
    InnerIsSection(after, n);
  }

  lemma {:induction false} ChildrenTile(lines: seq<string>, after: seq<Heading>, k: nat)
    requires Ordered(after, |lines|) && k <= Inner(after)
    ensures var n := |lines|; var children := ChildrenOf(after, n, SectionEnd(after, n), k);
      && |children| == k && Reached(after, n, 0) <= Reached(after, n, k) <= n
      && InLines(children, Reached(after, n, 0), n)
      && Flatten(lines, children) == lines[Reached(after, n, 0)..Reached(after, n, k)]
  {
    var n, end := |lines|, SectionEnd(after, |lines|);
    if k > 0 {
      ChildrenTile(lines, after, k - 1);
      ChildAt(after, n, k - 1);
      var c := Child(after[k - 1].text, after[k - 1].line + 1, BodyEnd(after, k - 1, n, end));
      TileNext(lines, ChildrenOf(after, n, end, k - 1), c, Reached(after, n, 0), Reached(after, n, k - 1));
    } else {
      InnerIsSection(after, n);
    }
  }

  lemma {:induction false} ChildrenWithin(after: seq<Heading>, n: nat, k: nat)
    requires Ordered(after, n) && k <= Inner(after)
    ensures forall c :: c in ChildrenOf(after, n, SectionEnd(after, n), k) ==> c.to <= SectionEnd(after, n)
  {
    if k > 0 {
      ChildrenWithin(after, n, k - 1);
      ChildAt(after, n, k - 1);
    }
  }

  /** Headings past the section end are no children. */
  lemma {:induction false} NoneBeyond(after: seq<Heading>, n: nat, k: nat)
    requires Ordered(after, n) && Inner(after) <= k <= |after|
    ensures ChildrenOf(after, n, SectionEnd(after, n), k) == ChildrenOf(after, n, SectionEnd(after, n), Inner(after))
    decreases k
  {
    if k > Inner(after) {
      InnerIsSection(after, n);
      NoneBeyond(after, n, k - 1);
      assert ChildrenOf(after, n, SectionEnd(after, n), k - 1) + []
        == ChildrenOf(after, n, SectionEnd(after, n), k - 1);
    }
  }

  lemma HeadingsOrdered(rd: Reader, lines: seq<string>, heads: seq<Heading>)
    requires HeadingsOf(rd, lines, |lines|, heads)
    ensures Ordered(heads, |lines|)
  {
  }

  /** The section as a partition of its lines. */
  ghost predicate Partitions(lines: seq<string>, from: nat, introEnd: nat, end: nat, children: seq<Child>) {
    && from < introEnd <= end <= |lines| && InLines(children, introEnd, end)
    && lines[from + 1..end] == lines[from + 1..introEnd] + Flatten(lines, children)
  }

  /** MAIN: the intro, the child headings and the child bodies, in order, are the lines of the
      section: none lost, none repeated, and none from beyond the section. */
  lemma SectionPartition(rd: Reader, lines: seq<string>, heads: seq<Heading>)
    requires HeadingsOf(rd, lines, |lines|, heads) && SplitOf(rd, heads, |lines|).Some?
    ensures var s := SplitOf(rd, heads, |lines|).value;
      s.heading in heads && Partitions(lines, s.heading.line, s.introEnd, s.end, s.children)
  {
    HeadingsOrdered(rd, lines, heads);
    PartitionOf(rd, lines, heads);
  }

  lemma {:induction false} PartitionAt(lines: seq<string>, from: nat, after: seq<Heading>)
    requires Ordered(after, |lines|) && from < |lines| && (after != [] ==> from < after[0].line)
    ensures var end := SectionEnd(after, |lines|);
      var introEnd := if after == [] then |lines| else after[0].line;
      Partitions(lines, from, introEnd, end, ChildrenOf(after, |lines|, end, |after|))
  {
    SectionTiles(lines, after);
    SplitLines(lines, from + 1, if after == [] then |lines| else after[0].line, SectionEnd(after, |lines|));
  }

  lemma PartitionOf(rd: Reader, lines: seq<string>, heads: seq<Heading>)
    requires Ordered(heads, |lines|) && SplitOf(rd, heads, |lines|).Some?
    ensures var s := SplitOf(rd, heads, |lines|).value;
      s.heading in heads && Partitions(lines, s.heading.line, s.introEnd, s.end, s.children)
  {
    var split := FindSplit(rd, FirstTitle(heads), heads).value;
    OrderedAfter(heads, |lines|, split);
    PartitionAt(lines, heads[split].line, heads[split + 1..]);
  }

  lemma OrderedAfter(heads: seq<Heading>, n: nat, split: nat)
    requires Ordered(heads, n) && split < |heads|
    ensures Ordered(heads[split + 1..], n) && heads[split].line < n
    ensures heads[split + 1..] != [] ==> heads[split].line < heads[split + 1..][0].line
  {
  }

  lemma SplitLines(lines: seq<string>, from: nat, mid: nat, to: nat)
    requires from <= mid <= to <= |lines|
    ensures lines[from..to] == lines[from..mid] + lines[mid..to]
  {
  }

  lemma {:induction false} SectionTiles(lines: seq<string>, after: seq<Heading>)
    requires Ordered(after, |lines|)
    ensures var n := |lines|; var end := SectionEnd(after, n);
      var introEnd, children := if after == [] then n else after[0].line, ChildrenOf(after, n, end, |after|);
      && introEnd <= end <= n && InLines(children, introEnd, end)
      && lines[introEnd..end] == Flatten(lines, children)
  {
    var n := |lines|;
    ChildrenTile(lines, after, Inner(after));
    NoneBeyond(after, n, |after|);
    ChildrenWithin(after, n, Inner(after));
    IntroIsStart(after, n);
  }

  lemma {:induction false} IntroIsStart(after: seq<Heading>, n: nat)
    requires Ordered(after, n)
    ensures Reached(after, n, 0) == if after == [] then n else after[0].line
    ensures Reached(after, n, Inner(after)) == SectionEnd(after, n) <= n
  {
    InnerIsSection(after, n);
  }

  /* ---- fragments ---- */

  /** The `k`-th try at a fragment. */
  function Try(base: string, k: nat): string
    requires k >= 1
  {
    if k == 1 then base else base + "-" + Dec(k)
  }

  lemma TriesDiffer(base: string, j: nat, k: nat)
    requires 1 <= j < k
    ensures Try(base, j) != Try(base, k)
  {
    DecRoundTrip(j);
    DecRoundTrip(k);
    var long := Try(base, k);
    assert long[|base|..] == "-" + Dec(k);
    if j > 1 {
      assert Try(base, j)[|base|..] == "-" + Dec(j);
      assert ("-" + Dec(k))[1..] == Dec(k) && ("-" + Dec(j))[1..] == Dec(j);
    } else {
      assert |long| > |base|;
    }
  }

  /** The base itself, or the base with the smallest free ordinal. */
  ghost predicate FirstFree(base: string, used: set<string>, fragment: string) {
    && fragment !in used
    && exists k: nat :: k >= 1 && fragment == Try(base, k) && forall j :: 1 <= j < k ==> Try(base, j) in used
  }

  /** The loop ends because it only ever passes over used fragments, and they are finitely many. */
  method FreeFragment(base: string, used: set<string>) returns (fragment: string)
    ensures FirstFree(base, used, fragment)
  {
    var k: nat := 1;
    fragment := base;
    ghost var passed: set<string> := {};
    while fragment in used
      invariant k >= 1 && fragment == Try(base, k) && passed <= used
      invariant forall j :: 1 <= j < k ==> Try(base, j) in passed
      invariant forall x :: x in passed ==> exists j :: 1 <= j < k && x == Try(base, j)
      decreases |used - passed|
    {
      if fragment in passed {
        var j :| 1 <= j < k && fragment == Try(base, j);
        TriesDiffer(base, j, k);
      }
      Shrinks(used, passed, fragment);
      passed := passed + {fragment};
      k := k + 1;
      fragment := base + "-" + Dec(k);
    }
  }

  lemma Shrinks(used: set<string>, passed: set<string>, x: string)
    requires x in used && x !in passed
    ensures |used - (passed + {x})| < |used - passed|
  {
    assert used - passed == (used - (passed + {x})) + {x};
  }

  datatype Record = Record(title: string, choice: string, fragment: string)

  /** `section-<n>` stands in for an empty slug. */
  function BaseOf(rd: Reader, c: Child, n: nat): string {
    if rd.slug(c.text) == "" then "section-" + Dec(n) else rd.slug(c.text)
  }

  function ChoiceOf(rd: Reader, lines: seq<string>, c: Child): string
    requires c.from <= c.to <= |lines|
  {
    rd.choice(lines[c.from..c.to])
  }

  /** The positions of the first `n` children whose body redacts to something. */
  function Chosen(rd: Reader, lines: seq<string>, children: seq<Child>, n: nat): (at: seq<nat>)
    requires InLines(children, 0, |lines|) && n <= |children|
    ensures forall i :: 0 <= i < |at| ==> at[i] < n
  {
    if n == 0 then []
    else Chosen(rd, lines, children, n - 1) + if ChoiceOf(rd, lines, children[n - 1]) != "" then [n - 1] else []
  }

  lemma {:induction false} ChosenExactly(rd: Reader, lines: seq<string>, children: seq<Child>, n: nat)
    requires InLines(children, 0, |lines|) && n <= |children|
    ensures var at := Chosen(rd, lines, children, n);
      && (forall i, j :: 0 <= i < j < |at| ==> at[i] < at[j])
      && forall k :: 0 <= k < n ==> (k in at <==> ChoiceOf(rd, lines, children[k]) != "")
  {
    if n > 0 { ChosenExactly(rd, lines, children, n - 1); }
  }

  function Fragments(records: seq<Record>): (used: set<string>)
    ensures forall f :: f in used <==> exists r :: r in records && r.fragment == f
  {
    set r | r in records :: r.fragment
  }

  /** The record of the child at position `k`, after the records before it. */
  ghost predicate RecordFor(rd: Reader, lines: seq<string>, children: seq<Child>, k: nat, before: seq<Record>,
      r: Record)
    requires InLines(children, 0, |lines|) && k < |children|
  {
    && r.title == children[k].text && r.choice == ChoiceOf(rd, lines, children[k])
    && FirstFree(BaseOf(rd, children[k], k + 1), Fragments(before), r.fragment)
  }

  /** The records of the first `k` children: one per child with a choice, in order, each with
      the first fragment still free. */
  ghost predicate RecordsOf(rd: Reader, lines: seq<string>, children: seq<Child>, k: nat, records: seq<Record>)
    requires InLines(children, 0, |lines|) && k <= |children|
  {
    var at := Chosen(rd, lines, children, k);
    && |records| == |at|
    && forall i :: 0 <= i < |at| ==> RecordFor(rd, lines, children, at[i], records[..i], records[i])
  }

  lemma RecordsNext(rd: Reader, lines: seq<string>, children: seq<Child>, k: nat, records: seq<Record>, r: Record)
    requires InLines(children, 0, |lines|) && k < |children| && RecordsOf(rd, lines, children, k, records)
    requires ChoiceOf(rd, lines, children[k]) != "" && RecordFor(rd, lines, children, k, records, r)
    ensures RecordsOf(rd, lines, children, k + 1, records + [r])
  {
    var at, all := Chosen(rd, lines, children, k), records + [r];
    assert Chosen(rd, lines, children, k + 1) == at + [k];
    forall i | 0 <= i < |at| + 1 ensures RecordFor(rd, lines, children, (at + [k])[i], all[..i], all[i]) {
      assert all[..i] == records[..i];
    }
  }

  lemma FragmentsNext(records: seq<Record>, r: Record)
    ensures Fragments(records + [r]) == Fragments(records) + {r.fragment}
  {
  }

  lemma FragmentsDiffer(rd: Reader, lines: seq<string>, children: seq<Child>, k: nat, records: seq<Record>, i: nat,
      j: nat)
    requires InLines(children, 0, |lines|) && k <= |children| && RecordsOf(rd, lines, children, k, records)
      && i < j < |records|
    ensures records[i].fragment != records[j].fragment
  {
    assert records[i] in records[..j];
  }

  method ChildRecords(rd: Reader, lines: seq<string>, children: seq<Child>) returns (records: seq<Record>)
    requires InLines(children, 0, |lines|)
    ensures RecordsOf(rd, lines, children, |children|, records)
    ensures forall i, j :: 0 <= i < j < |records| ==> records[i].fragment != records[j].fragment
  {
    records := [];
    var used: set<string> := {};
    for k := 0 to |children|
      invariant used == Fragments(records) && RecordsOf(rd, lines, children, k, records)
    {
      var c := children[k];
      assert c in children;
      var choice := rd.choice(lines[c.from..c.to]);
      if choice == "" {
        assert Chosen(rd, lines, children, k + 1) == Chosen(rd, lines, children, k);
        continue;
      }
      var fragment := FreeFragment(BaseOf(rd, c, k + 1), used);
      var r := Record(c.text, choice, fragment);
      RecordsNext(rd, lines, children, k, records, r);
      FragmentsNext(records, r);
      records, used := records + [r], used + {fragment};
    }
    forall i, j | 0 <= i < j < |records| ensures records[i].fragment != records[j].fragment {
      FragmentsDiffer(rd, lines, children, |children|, records, i, j);
    }
  }

  function Reference(path: string, r: Record): string {
    path + "#" + r.fragment
  }

  lemma ReferencesDiffer(path: string, a: Record, b: Record)
    requires a.fragment != b.fragment
    ensures Reference(path, a) != Reference(path, b)
  {
    assert Reference(path, a)[|path| + 1..] == a.fragment && Reference(path, b)[|path| + 1..] == b.fragment;
  }
}
