/** Planning again over the exported directory finds nothing to write. */
module AdrSettled {
  import opened Wrappers
  import opened AdrFiles
  import opened AdrExport
  import opened AdrFixpoint

  /** The file of `item` holds its region, and printing it again would keep the body. */
  ghost predicate Holds(env: Env, read: map<string, Reading>, item: Item) {
    && RegionIn(read, item.name).Some?
    && var r := RegionIn(read, item.name).value;
       && r.id == item.id && r.number == item.number
       && Reads(env, item, Some(r)).Ok? && Reads(env, item, Some(r)).value.Some?
       && Reads(env, item, Some(r)).value.value.body == r.body
  }

  /** How the directory reads after the export. */
  ghost predicate Settled(env: Env, read: map<string, Reading>, read': map<string, Reading>, items: seq<Item>) {
    && (forall n :: n in read' <==> n in read || Desired(items, n))
    && (forall n :: n in read && !Desired(items, n) ==> n in read' && read'[n] == read[n])
    && (forall it :: it in items ==> Holds(env, read', it))
  }

  /** What `ItemAfter` and `ItemReadsBack` say of one file. */
  lemma {:induction false} ItemSettles(env: Env, dir: Directory, sc: Scan, ids: seq<string>, num: Numbering,
      items: seq<Item>, changes: seq<Change>, i: nat)
    requires Export(env, dir, sc, ids, num, items, changes) && i < |items|
    ensures Holds(env, Readings(env, ApplyChanges(dir, changes)), items[i])
  {
    assert items[i] in items;
    ItemAfter(env, dir, sc, ids, num, items, changes, i);
    ItemReadsBack(env, sc, items[i]);
  }

  /** A directory that differs from `dir` only in the desired files reads so. */
  lemma SettlesFrom(env: Env, dir: Directory, items: seq<Item>, after: Directory)
    requires forall it :: it in items ==> Holds(env, Readings(env, after), it)
    requires forall n :: !Desired(items, n) ==> (n in after <==> n in dir) && (n in dir ==> after[n] == dir[n])
    ensures Settled(env, Readings(env, dir), Readings(env, after), items)
  {
    forall n | Desired(items, n) ensures n in after {
      var i :| 0 <= i < |items| && items[i].name == n;
      assert items[i] in items;
    }
  }

  lemma {:induction false} ExportSettles(env: Env, dir: Directory, sc: Scan, ids: seq<string>, num: Numbering,
      items: seq<Item>, changes: seq<Change>)
    requires Export(env, dir, sc, ids, num, items, changes)
    ensures Settled(env, Readings(env, dir), Readings(env, ApplyChanges(dir, changes)), items)
  {
    var after := ApplyChanges(dir, changes);
    forall it | it in items ensures Holds(env, Readings(env, after), it) {
      var i :| 0 <= i < |items| && items[i] == it;
      ItemSettles(env, dir, sc, ids, num, items, changes, i);
    }
    forall n | !Desired(items, n) ensures (n in after <==> n in dir) && (n in dir ==> after[n] == dir[n]) {
      OtherAfter(env, dir, sc, ids, num, items, changes, n);
    }
    SettlesFrom(env, dir, items, after);
  }

  /* ---- the exported directory scans clean ---- */

  lemma ItemsApart(env: Env, sc: Scan, read': map<string, Reading>, items: seq<Item>, i: nat, j: nat)
    requires ItemsOk(env, sc, items) && i < |items| && j < |items| && i != j
    requires Holds(env, read', items[i]) && Holds(env, read', items[j])
    ensures !Clash(env, read', items[i].name, items[j].name)
  {
  }

  lemma ItemApartFromRest(env: Env, read: map<string, Reading>, sc: Scan, read': map<string, Reading>, item: Item,
      b: string)
    requires Found(env, read, read.Keys, sc) && CleanSeen(env, read, read.Keys)
    requires Fits(env, sc, item) && Holds(env, read', item)
    requires b in read && b in read' && read'[b] == read[b] && b != item.name
    ensures !Clash(env, read', item.name, b) && !Clash(env, read', b, item.name)
  {
    assert RegionIn(read', b) == RegionIn(read, b);
    assert env.casefold(b) in sc.folded;
    if item.name in sc.regions {
      assert item.name in read && RegionIn(read, item.name) == Some(sc.regions[item.name]);
      assert !Clash(env, read, item.name, b);
    }
    if RegionIn(read, b).Some? { assert b in sc.regions; }
  }

  lemma SettledClean(env: Env, read: map<string, Reading>, sc: Scan, read': map<string, Reading>, items: seq<Item>)
    requires Found(env, read, read.Keys, sc) && CleanSeen(env, read, read.Keys)
    requires ItemsOk(env, sc, items) && Settled(env, read, read', items)
    ensures CleanSeen(env, read', read'.Keys)
  {
    forall n | n in read' ensures Readable(read', n) {
      if Desired(items, n) {
        var i :| 0 <= i < |items| && items[i].name == n;
        assert items[i] in items;
      } else {
        assert Readable(read, n);
      }
    }
    forall a, b | a in read' && b in read' && a != b ensures !Clash(env, read', a, b) {
      SettledApart(env, read, sc, read', items, a, b);
    }
  }

  lemma SettledApart(env: Env, read: map<string, Reading>, sc: Scan, read': map<string, Reading>, items: seq<Item>,
      a: string, b: string)
    requires Found(env, read, read.Keys, sc) && CleanSeen(env, read, read.Keys)
    requires ItemsOk(env, sc, items) && Settled(env, read, read', items)
    requires a in read' && b in read' && a != b
    ensures !Clash(env, read', a, b)
  {
    if Desired(items, a) {
      var i :| 0 <= i < |items| && items[i].name == a;
      assert items[i] in items;
      if Desired(items, b) {
        var j :| 0 <= j < |items| && items[j].name == b;
        assert items[j] in items;
        ItemsApart(env, sc, read', items, i, j);
      } else {
        ItemApartFromRest(env, read, sc, read', items[i], b);
      }
    } else if Desired(items, b) {
      var j :| 0 <= j < |items| && items[j].name == b;
      assert items[j] in items;
      ItemApartFromRest(env, read, sc, read', items[j], a);
    } else {
      assert !Clash(env, read, a, b);
      assert RegionIn(read', a) == RegionIn(read, a) && RegionIn(read', b) == RegionIn(read, b);
    }
  }

  /* ---- the numbering is kept ---- */

  /** A human file is never a desired one. */
  lemma HumanNotDesired(env: Env, dir: Directory, sc: Scan, item: Item, n: string)
    requires FoundKeys(env, dir.Keys, sc) && Fits(env, sc, item)
    requires n in dir && n !in sc.regions
    ensures item.name != n
  {
  }

  lemma {:induction false} NoneDesired(env: Env, dir: Directory, sc: Scan, items: seq<Item>, n: string)
    requires FoundKeys(env, dir.Keys, sc) && forall it :: it in items ==> Fits(env, sc, it)
    requires n in dir && n !in sc.regions
    ensures !Desired(items, n)
  {
    forall i | 0 <= i < |items| ensures items[i].name != n {
      assert items[i] in items;
      HumanNotDesired(env, dir, sc, items[i], n);
    }
  }

  predicate HumanSource(env: Env, read: map<string, Reading>, id: string) {
    env.source(id).Some? && env.source(id).value in read && RegionIn(read, env.source(id).value).None?
  }

  lemma HumanReads(env: Env, dir: Directory, sc: Scan, id: string)
    requires FoundRegions(Readings(env, dir), dir.Keys, sc) && CleanSeen(env, Readings(env, dir), dir.Keys)
    ensures IsHuman(env, dir, sc, id) <==> HumanSource(env, Readings(env, dir), id)
  {
    if env.source(id).Some? && env.source(id).value in dir {
      var s := env.source(id).value;
      assert Readable(Readings(env, dir), s);
      assert dir[s].Regular?;
    }
  }

  lemma {:induction false} SettledHuman(env: Env, dir: Directory, sc: Scan, read': map<string, Reading>,
      items: seq<Item>, id: string)
    requires FoundKeys(env, dir.Keys, sc) && FoundRegions(Readings(env, dir), dir.Keys, sc)
    requires (forall it :: it in items ==> Fits(env, sc, it)) && Settled(env, Readings(env, dir), read', items)
    ensures HumanSource(env, read', id) <==> HumanSource(env, Readings(env, dir), id)
  {
    if env.source(id).Some? {
      var s := env.source(id).value;
      if s in dir && s !in sc.regions {
        NoneDesired(env, dir, sc, items, s);
      } else if Desired(items, s) {
        var i :| 0 <= i < |items| && items[i].name == s;
        assert items[i] in items && Holds(env, read', items[i]);
      }
    }
  }

  /** The numbers and names `num` gave to the records `done`. */
  ghost predicate Copies(num: Numbering, done: set<string>, num': Numbering) {
    && num'.paths.Keys == done && done <= num.paths.Keys
    && (forall id :: id in done ==> num'.paths[id] == num.paths[id])
    && num'.human == done * num.human
    && num'.sequence.Keys == done - num.human && done - num.human <= num.sequence.Keys
    && (forall id :: id in done - num.human ==> num'.sequence[id] == num.sequence[id])
  }

  /** A second numbering step of `id` repeats the first. */
  ghost predicate Repeats(env: Env, dir: Directory, sc: Scan, num: Numbering, id: string) {
    && id in num.paths
    && if IsHuman(env, dir, sc, id) then id in num.human && env.source(id) == Some(num.paths[id])
       else
         && id !in num.human && id in num.sequence && id in sc.owned && sc.owned[id] == num.paths[id]
         && num.paths[id] in sc.regions && sc.regions[num.paths[id]].number == num.sequence[id]
  }

  lemma CopyStep(env: Env, dir: Directory, sc: Scan, num: Numbering, done: set<string>, num': Numbering, id: string)
    requires Copies(num, done, num') && Repeats(env, dir, sc, num, id) && id !in done
    ensures AssignStep(env, dir, sc, num', id).Some?
    ensures Copies(num, done + {id}, AssignStep(env, dir, sc, num', id).value)
  {
    var next := AssignStep(env, dir, sc, num', id).value;
    if IsHuman(env, dir, sc, id) {
      assert next.sequence == num'.sequence;
      assert (done + {id}) - num.human == done - num.human;
      assert (done + {id}) * num.human == done * num.human + {id};
    } else {
      assert next.human == num'.human;
      assert next.sequence == num'.sequence[id := num.sequence[id]];
      assert (done + {id}) - num.human == (done - num.human) + {id};
      assert (done + {id}) * num.human == done * num.human;
    }
  }

  lemma {:induction false} AssignCopies(env: Env, dir: Directory, sc: Scan, num: Numbering, ids: seq<string>)
    requires forall i, j :: 0 <= i < j < |ids| ==> ids[i] != ids[j]
    requires forall id :: id in ids ==> Repeats(env, dir, sc, num, id)
    ensures AssignOf(env, dir, sc, ids).Some? && Copies(num, Seen(ids), AssignOf(env, dir, sc, ids).value)
  {
    if ids == [] {
      assert Seen(ids) == {};
    } else {
      var front, id := ids[..|ids| - 1], ids[|ids| - 1];
      assert ids == front + [id];
      assert id !in front;
      assert Seen(ids) == Seen(front) + {id};
      AssignCopies(env, dir, sc, num, front);
      CopyStep(env, dir, sc, num, Seen(front), AssignOf(env, dir, sc, front).value, id);
    }
  }

  /** The item that exports a record. */
  lemma RecordIsDesired(env: Env, sc: Scan, num: Numbering, ids: seq<string>, id: string)
    requires forall i, j :: 0 <= i < j < |ids| ==> ids[i] != ids[j]
    requires forall id :: id in ids && id !in num.human ==> id in num.paths && id in num.sequence
    requires id in ids && id !in num.human
    ensures ItemOf(env, num, id) in Items(env, sc, num, ids)
  {
    RecordItemsMembers(env, num, ids);
    assert ItemOf(env, num, id) in RecordItems(env, num, ids);
  }

  lemma HeldIsOwned(env: Env, dir: Directory, sc: Scan, item: Item)
    requires FoundRegions(Readings(env, dir), dir.Keys, sc) && Holds(env, Readings(env, dir), item)
    ensures item.name in sc.regions && sc.regions[item.name].number == item.number
    ensures item.id in sc.owned && sc.owned[item.id] == item.name
  {
    assert item.name in dir;
    assert item.name in sc.regions;
  }

  lemma RecordRepeats(env: Env, dir: Directory, sc: Scan, dir': Directory, sc': Scan, num: Numbering, id: string)
    requires Decided(env, dir, sc, num, id) && (IsHuman(env, dir', sc', id) <==> IsHuman(env, dir, sc, id))
    requires id !in num.human ==>
      id in sc'.owned && sc'.owned[id] == num.paths[id] && num.paths[id] in sc'.regions
        && sc'.regions[num.paths[id]].number == num.sequence[id]
    ensures Repeats(env, dir', sc', num, id)
  {
  }

  lemma AllDecided(env: Env, dir: Directory, sc: Scan, ids: seq<string>, num: Numbering)
    requires NumberedSo(env, dir, sc, Seen(ids), num)
    ensures forall id :: id in ids ==> Decided(env, dir, sc, num, id)
    ensures forall id :: id in ids && id !in num.human ==> id in num.paths && id in num.sequence
  {
    forall id | id in ids ensures Decided(env, dir, sc, num, id) {
      assert id in Seen(ids);
    }
  }

  lemma {:induction false} SameRecordItems(env: Env, num: Numbering, num': Numbering, ids: seq<string>)
    requires num.paths == num'.paths && num.sequence == num'.sequence && num.human == num'.human
    ensures RecordItems(env, num, ids) == RecordItems(env, num', ids)
  {
    if ids != [] {
      SameRecordItems(env, num, num', ids[..|ids| - 1]);
    }
  }

  lemma CopiesAll(env: Env, dir: Directory, sc: Scan, ids: seq<string>, num: Numbering, num': Numbering)
    requires NumberedSo(env, dir, sc, Seen(ids), num) && Copies(num, Seen(ids), num')
    ensures num'.paths == num.paths && num'.sequence == num.sequence && num'.human == num.human
  {
  }

  lemma SameHuman(env: Env, dir: Directory, sc: Scan, dir': Directory, sc': Scan, items: seq<Item>, id: string)
    requires FoundKeys(env, dir.Keys, sc) && FoundRegions(Readings(env, dir), dir.Keys, sc)
    requires FoundRegions(Readings(env, dir'), dir'.Keys, sc')
    requires CleanSeen(env, Readings(env, dir), dir.Keys) && CleanSeen(env, Readings(env, dir'), dir'.Keys)
    requires (forall it :: it in items ==> Fits(env, sc, it))
      && Settled(env, Readings(env, dir), Readings(env, dir'), items)
    ensures IsHuman(env, dir', sc', id) <==> IsHuman(env, dir, sc, id)
  {
    HumanReads(env, dir, sc, id);
    HumanReads(env, dir', sc', id);
    SettledHuman(env, dir, sc, Readings(env, dir'), items, id);
  }

  lemma SameOwner(env: Env, sc: Scan, dir': Directory, sc': Scan, ids: seq<string>, num: Numbering, items: seq<Item>,
      id: string)
    requires forall i, j :: 0 <= i < j < |ids| ==> ids[i] != ids[j]
    requires forall id :: id in ids && id !in num.human ==> id in num.paths && id in num.sequence
    requires items == Items(env, sc, num, ids) && forall it :: it in items ==> Holds(env, Readings(env, dir'), it)
    requires FoundRegions(Readings(env, dir'), dir'.Keys, sc') && id in ids && id !in num.human
    ensures id in sc'.owned && sc'.owned[id] == num.paths[id]
    ensures num.paths[id] in sc'.regions && sc'.regions[num.paths[id]].number == num.sequence[id]
  {
    RecordIsDesired(env, sc, num, ids, id);
    HeldIsOwned(env, dir', sc', ItemOf(env, num, id));
  }

  ghost predicate StillOwned(sc: Scan, num: Numbering, id: string) {
    && id in num.paths && id in num.sequence && id in sc.owned && sc.owned[id] == num.paths[id]
    && num.paths[id] in sc.regions && sc.regions[num.paths[id]].number == num.sequence[id]
  }

  lemma AllStillOwned(env: Env, sc: Scan, dir': Directory, sc': Scan, ids: seq<string>, num: Numbering,
      items: seq<Item>)
    requires forall i, j :: 0 <= i < j < |ids| ==> ids[i] != ids[j]
    requires forall id :: id in ids && id !in num.human ==> id in num.paths && id in num.sequence
    requires items == Items(env, sc, num, ids) && forall it :: it in items ==> Holds(env, Readings(env, dir'), it)
    requires FoundRegions(Readings(env, dir'), dir'.Keys, sc')
    ensures forall id :: id in ids && id !in num.human ==> StillOwned(sc', num, id)
  {
    forall id | id in ids && id !in num.human ensures StillOwned(sc', num, id) {
      SameOwner(env, sc, dir', sc', ids, num, items, id);
    }
  }

  lemma AllRepeat(env: Env, dir: Directory, sc: Scan, dir': Directory, sc': Scan, ids: seq<string>, num: Numbering)
    requires forall id :: id in ids ==> Decided(env, dir, sc, num, id)
    requires forall id :: id in ids ==> (IsHuman(env, dir', sc', id) <==> IsHuman(env, dir, sc, id))
    requires forall id :: id in ids && id !in num.human ==> StillOwned(sc', num, id)
    ensures forall id :: id in ids ==> Repeats(env, dir', sc', num, id)
  {
    forall id | id in ids ensures Repeats(env, dir', sc', num, id) {
      RecordRepeats(env, dir, sc, dir', sc', num, id);
    }
  }

  lemma AllSameHuman(env: Env, dir: Directory, sc: Scan, dir': Directory, sc': Scan, items: seq<Item>, ids: seq<string>)
    requires FoundKeys(env, dir.Keys, sc) && FoundRegions(Readings(env, dir), dir.Keys, sc)
    requires FoundRegions(Readings(env, dir'), dir'.Keys, sc')
    requires CleanSeen(env, Readings(env, dir), dir.Keys) && CleanSeen(env, Readings(env, dir'), dir'.Keys)
    requires (forall it :: it in items ==> Fits(env, sc, it))
      && Settled(env, Readings(env, dir), Readings(env, dir'), items)
    ensures forall id :: id in ids ==> (IsHuman(env, dir', sc', id) <==> IsHuman(env, dir, sc, id))
  {
    forall id | id in ids ensures IsHuman(env, dir', sc', id) <==> IsHuman(env, dir, sc, id) {
      SameHuman(env, dir, sc, dir', sc', items, id);
    }
  }

  /** The second plan numbers the records as the first. */
  lemma {:induction false} NumbersAgain(env: Env, dir: Directory, sc: Scan, dir': Directory, sc': Scan,
      ids: seq<string>, num: Numbering)
    requires forall i, j :: 0 <= i < j < |ids| ==> ids[i] != ids[j]
    requires NumberedSo(env, dir, sc, Seen(ids), num) && forall id :: id in ids ==> Repeats(env, dir', sc', num, id)
    ensures AssignOf(env, dir', sc', ids).Some?
    ensures var num' := AssignOf(env, dir', sc', ids).value;
      num'.paths == num.paths && num'.sequence == num.sequence && num'.human == num.human
  {
    AssignCopies(env, dir', sc', num, ids);
    CopiesAll(env, dir, sc, ids, num, AssignOf(env, dir', sc', ids).value);
  }

  /** So it wants the very same files. */
  lemma ItemsAgain(env: Env, sc: Scan, dir': Directory, sc': Scan, ids: seq<string>, num: Numbering, num': Numbering)
    requires num'.paths == num.paths && num'.sequence == num.sequence && num'.human == num.human
    requires FoundRegions(Readings(env, dir'), dir'.Keys, sc')
      && Holds(env, Readings(env, dir'), IndexItem(env, sc, num))
    ensures Items(env, sc', num', ids) == Items(env, sc, num, ids)
  {
    SameRecordItems(env, num, num', ids);
    HeldIsOwned(env, dir', sc', IndexItem(env, sc, num));
  }

  /* ---- nothing is left to write ---- */

  /** A file found under its own name, with its own region, is left alone. */
  lemma EmitHeld(env: Env, dir: Directory, sc: Scan, planned: set<string>, item: Item, r: Region)
    requires env.casefold(item.name) !in planned
    requires env.casefold(item.name) in sc.folded && sc.folded[env.casefold(item.name)] == item.name
    requires item.name in sc.regions && sc.regions[item.name] == r && r.id == item.id
    requires Reads(env, item, Some(r)).Ok? && Reads(env, item, Some(r)).value.Some?
      && Reads(env, item, Some(r)).value.value.body == r.body
    ensures Emit(env, dir, sc, planned, item).Some? && Emit(env, dir, sc, planned, item).value.action == Unchanged
  {
    var held, after := Some(r), Printed(env, item, Some(r));
    var before := Before(dir, item.name);
    assert Emit(env, dir, sc, planned, item) == Decide(item.name, item, before, held, after, Reads(env, item, held));
    DecideUnchanged(item, before, r, after, Reads(env, item, held));
  }

  lemma DecideUnchanged(item: Item, before: Option<string>, r: Region, after: string, planned: Reading)
    requires planned.Ok? && planned.value.Some? && planned.value.value.body == r.body
    ensures Decide(item.name, item, before, Some(r), after, planned)
      == Some(Change(item.name, item.id, Unchanged, before, before))
  {
  }

  lemma NameFound(env: Env, dir: Directory, sc: Scan, name: string)
    requires FoundKeys(env, dir.Keys, sc) && CleanSeen(env, Readings(env, dir), dir.Keys) && name in dir
    ensures env.casefold(name) in sc.folded && sc.folded[env.casefold(name)] == name
  {
    var key := env.casefold(name);
    if sc.folded[key] != name { assert Clash(env, Readings(env, dir), sc.folded[key], name); }
  }

  lemma RegionFound(env: Env, dir: Directory, sc: Scan, name: string)
    requires FoundRegions(Readings(env, dir), dir.Keys, sc) && RegionIn(Readings(env, dir), name).Some?
    ensures name in dir && name in sc.regions && sc.regions[name] == RegionIn(Readings(env, dir), name).value
  {
  }

  lemma EmitUnchanged(env: Env, dir: Directory, sc: Scan, planned: set<string>, item: Item)
    requires Found(env, Readings(env, dir), dir.Keys, sc) && CleanSeen(env, Readings(env, dir), dir.Keys)
    requires Holds(env, Readings(env, dir), item) && env.casefold(item.name) !in planned
    ensures Emit(env, dir, sc, planned, item).Some? && Emit(env, dir, sc, planned, item).value.action == Unchanged
  {
    RegionFound(env, dir, sc, item.name);
    NameFound(env, dir, sc, item.name);
    EmitHeld(env, dir, sc, planned, item, RegionIn(Readings(env, dir), item.name).value);
  }

  lemma {:induction false} EmitAllUnchanged(env: Env, dir: Directory, sc: Scan, items: seq<Item>)
    requires forall i :: 0 <= i < |items| ==>
      Emit(env, dir, sc, PlannedKeys(env, items[..i]), items[i]).Some?
      && Emit(env, dir, sc, PlannedKeys(env, items[..i]), items[i]).value.action == Unchanged
    ensures EmitAll(env, dir, sc, items).Some?
    ensures forall c :: c in EmitAll(env, dir, sc, items).value ==> c.action == Unchanged
  {
    if items != [] {
      var n := |items| - 1;
      forall i | 0 <= i < n ensures items[..n][..i] == items[..i] && items[..n][i] == items[i] {}
      EmitAllUnchanged(env, dir, sc, items[..n]);
      assert Emit(env, dir, sc, PlannedKeys(env, items[..n]), items[n]).Some?;
    }
  }

  lemma NotPlannedBefore(env: Env, items: seq<Item>, i: nat)
    requires i < |items| && DistinctFolds(env, items)
    ensures env.casefold(items[i].name) !in PlannedKeys(env, items[..i])
  {
    forall it | it in items[..i] ensures env.casefold(it.name) != env.casefold(items[i].name) {
      var k :| 0 <= k < i && items[k] == it;
    }
  }

  lemma {:induction false} NothingToWrite(env: Env, dir: Directory, sc: Scan, items: seq<Item>)
    requires Found(env, Readings(env, dir), dir.Keys, sc) && CleanSeen(env, Readings(env, dir), dir.Keys)
    requires DistinctFolds(env, items) && forall it :: it in items ==> Holds(env, Readings(env, dir), it)
    ensures EmitAll(env, dir, sc, items).Some?
    ensures forall c :: c in EmitAll(env, dir, sc, items).value ==> c.action == Unchanged
  {
    forall i | 0 <= i < |items|
      ensures Emit(env, dir, sc, PlannedKeys(env, items[..i]), items[i]).Some?
      ensures Emit(env, dir, sc, PlannedKeys(env, items[..i]), items[i]).value.action == Unchanged
    {
      assert items[i] in items;
      NotPlannedBefore(env, items, i);
      EmitUnchanged(env, dir, sc, PlannedKeys(env, items[..i]), items[i]);
    }
    EmitAllUnchanged(env, dir, sc, items);
  }

  /** A conflict-free plan is a finished export. */
  lemma {:induction false} PlanIsExport(env: Env, dir: Directory, names: seq<string>, ids: seq<string>)
    requires HexHash(env.hash) && Lists(names, dir)
    requires forall i, j :: 0 <= i < j < |ids| ==> ids[i] != ids[j]
    requires forall id :: id in ids ==> ValidId(id) && id != INDEX
    requires PlanOf(env, dir, names, ids).Some? && PlanOf(env, dir, names, ids).value.ConflictFree()
    ensures var sc := ScanOf(env, Readings(env, dir), names);
      && AssignOf(env, dir, sc, ids).Some?
      && var num := AssignOf(env, dir, sc, ids).value;
         Export(env, dir, sc, ids, num, Items(env, sc, num, ids), PlanOf(env, dir, names, ids).value.changes)
  {
    var sc := ScanOf(env, Readings(env, dir), names);
    var num := AssignOf(env, dir, sc, ids).value;
    var items := Items(env, sc, num, ids);
    var changes := PlanOf(env, dir, names, ids).value.changes;
    assert EmitAll(env, dir, sc, items) == Some(changes);
    ScanIsExact(env, dir, names);
    RegionsAreValid(env, dir, sc);
    AssignNumbers(env, dir, sc, ids, num);
    PlannedItemsOk(env, dir, sc, ids, num);
    forall it | it in items && env.casefold(it.name) !in sc.folded ensures it.name !in sc.regions && it.name !in dir {}
    EmitEach(env, dir, sc, items);
    forall i | 0 <= i < |items| ensures Does(env, sc, items[i], changes[i]) {
      assert items[i] in items && changes[i] in changes;
      EmitDoes(env, dir, sc, PlannedKeys(env, items[..i]), items[i]);
    }
  }

  /** The directory after an export reads clean, with every desired file in place. */
  lemma {:induction false} ExportedClean(env: Env, dir: Directory, sc: Scan, ids: seq<string>, num: Numbering,
      items: seq<Item>, changes: seq<Change>, dir': Directory)
    requires Export(env, dir, sc, ids, num, items, changes) && dir' == ApplyChanges(dir, changes)
    ensures CleanSeen(env, Readings(env, dir'), dir'.Keys)
      && Settled(env, Readings(env, dir), Readings(env, dir'), items)
  {
    ExportSettles(env, dir, sc, ids, num, items, changes);
    assert Readings(env, dir).Keys == dir.Keys && Readings(env, dir').Keys == dir'.Keys;
    SettledClean(env, Readings(env, dir), sc, Readings(env, dir'), items);
  }

  lemma {:induction false} PlanUnchanged(env: Env, dir: Directory, names: seq<string>, ids: seq<string>, sc: Scan,
      num: Numbering, items: seq<Item>)
    requires Lists(names, dir) && sc == ScanOf(env, Readings(env, dir), names) && sc.conflicts == {}
    requires AssignOf(env, dir, sc, ids) == Some(num) && items == Items(env, sc, num, ids)
    requires EmitAll(env, dir, sc, items).Some? && forall c :: c in EmitAll(env, dir, sc, items).value ==>
      c.action == Unchanged
    ensures PlanOf(env, dir, names, ids).Some? && PlanOf(env, dir, names, ids).value.ConflictFree()
    ensures forall c :: c in PlanOf(env, dir, names, ids).value.changes ==> c.action == Unchanged
    ensures ApplyChanges(dir, PlanOf(env, dir, names, ids).value.changes) == dir
  {
    UnchangedKeeps(dir, EmitAll(env, dir, sc, items).value);
  }

  lemma SettledOwned(env: Env, dir: Directory, sc: Scan, ids: seq<string>, num: Numbering, items: seq<Item>,
      dir': Directory, sc': Scan)
    requires forall i, j :: 0 <= i < j < |ids| ==> ids[i] != ids[j]
    requires NumberedSo(env, dir, sc, Seen(ids), num) && items == Items(env, sc, num, ids)
    requires forall it :: it in items ==> Holds(env, Readings(env, dir'), it)
    requires FoundRegions(Readings(env, dir'), dir'.Keys, sc')
    ensures forall id :: id in ids && id !in num.human ==> StillOwned(sc', num, id)
  {
    AllDecided(env, dir, sc, ids, num);
    AllStillOwned(env, sc, dir', sc', ids, num, items);
  }

  lemma SettledRepeats(env: Env, dir: Directory, sc: Scan, ids: seq<string>, num: Numbering, items: seq<Item>,
      dir': Directory, sc': Scan)
    requires Planned(env, dir, sc, ids, num) && items == Items(env, sc, num, ids) && ItemsOk(env, sc, items)
    requires Settled(env, Readings(env, dir), Readings(env, dir'), items)
    requires Found(env, Readings(env, dir'), dir'.Keys, sc') && CleanSeen(env, Readings(env, dir'), dir'.Keys)
    ensures forall id :: id in ids ==> Repeats(env, dir', sc', num, id)
  {
    assert forall id :: id in ids && id !in num.human ==> StillOwned(sc', num, id) by {
      SettledOwned(env, dir, sc, ids, num, items, dir', sc');
    }
    assert forall id :: id in ids ==> (IsHuman(env, dir', sc', id) <==> IsHuman(env, dir, sc, id)) by {
      AllSameHuman(env, dir, sc, dir', sc', items, ids);
    }
    assert forall id :: id in ids ==> Decided(env, dir, sc, num, id) by {
      AllDecided(env, dir, sc, ids, num);
    }
    AllRepeat(env, dir, sc, dir', sc', ids, num);
  }

  lemma {:induction false} SettledPlan(env: Env, dir: Directory, sc: Scan, ids: seq<string>, num: Numbering,
      items: seq<Item>, dir': Directory, sc': Scan)
    requires Planned(env, dir, sc, ids, num) && items == Items(env, sc, num, ids) && ItemsOk(env, sc, items)
    requires Settled(env, Readings(env, dir), Readings(env, dir'), items)
    requires Found(env, Readings(env, dir'), dir'.Keys, sc') && CleanSeen(env, Readings(env, dir'), dir'.Keys)
    ensures AssignOf(env, dir', sc', ids).Some?
    ensures Items(env, sc', AssignOf(env, dir', sc', ids).value, ids) == items
  {
    assert forall id :: id in ids ==> Repeats(env, dir', sc', num, id) by {
      SettledRepeats(env, dir, sc, ids, num, items, dir', sc');
    }
    NumbersAgain(env, dir, sc, dir', sc', ids, num);
    assert IndexItem(env, sc, num) in items;
    ItemsAgain(env, sc, dir', sc', ids, num, AssignOf(env, dir', sc', ids).value);
  }

  /** Planning over an exported directory. */
  lemma {:induction false} ExportedPlan(env: Env, dir: Directory, sc: Scan, ids: seq<string>, num: Numbering,
      items: seq<Item>, changes: seq<Change>, dir': Directory, names': seq<string>)
    requires Export(env, dir, sc, ids, num, items, changes) && dir' == ApplyChanges(dir, changes) && Lists(names', dir')
    ensures PlanOf(env, dir', names', ids).Some? && PlanOf(env, dir', names', ids).value.ConflictFree()
    ensures forall c :: c in PlanOf(env, dir', names', ids).value.changes ==> c.action == Unchanged
    ensures ApplyChanges(dir', PlanOf(env, dir', names', ids).value.changes) == dir'
  {
    var sc' := ScanOf(env, Readings(env, dir'), names');
    ExportedClean(env, dir, sc, ids, num, items, changes, dir');
    ScanIsExact(env, dir', names');
    SettledPlan(env, dir, sc, ids, num, items, dir', sc');
    NothingToWrite(env, dir', sc', items);
    PlanUnchanged(env, dir', names', ids, sc', AssignOf(env, dir', sc', ids).value, items);
  }

  /** MAIN: after a conflict-free plan is applied, planning the same records again, in any
      directory order, is conflict-free and writes nothing. */
  lemma {:induction false} ExportFixpoint(env: Env, dir: Directory, names: seq<string>, ids: seq<string>,
      names': seq<string>)
    requires HexHash(env.hash) && Lists(names, dir)
    requires forall i, j :: 0 <= i < j < |ids| ==> ids[i] != ids[j]
    requires forall id :: id in ids ==> ValidId(id) && id != INDEX
    requires PlanOf(env, dir, names, ids).Some? && PlanOf(env, dir, names, ids).value.ConflictFree()
    requires Lists(names', ApplyChanges(dir, PlanOf(env, dir, names, ids).value.changes))
    ensures var dir' := ApplyChanges(dir, PlanOf(env, dir, names, ids).value.changes);
      && PlanOf(env, dir', names', ids).Some?
      && PlanOf(env, dir', names', ids).value.ConflictFree()
      && (forall c :: c in PlanOf(env, dir', names', ids).value.changes ==> c.action == Unchanged)
      && ApplyChanges(dir', PlanOf(env, dir', names', ids).value.changes) == dir'
  {
    PlanIsExport(env, dir, names, ids);
    var sc := ScanOf(env, Readings(env, dir), names);
    var num := AssignOf(env, dir, sc, ids).value;
    var changes := PlanOf(env, dir, names, ids).value.changes;
    ExportedPlan(env, dir, sc, ids, num, Items(env, sc, num, ids), changes, ApplyChanges(dir, changes), names');
  }

  lemma {:induction false} UnchangedKeeps(dir: Directory, changes: seq<Change>)
    requires forall c :: c in changes ==> c.action == Unchanged
    ensures ApplyChanges(dir, changes) == dir
  {
    if changes != [] {
      UnchangedKeeps(dir, changes[..|changes| - 1]);
    }
  }
}
