/** A conflict-free export reaches a fixpoint. */
module AdrFixpoint {
  import opened Wrappers
  import opened AdrFiles
  import opened AdrRoundTrip
  import opened Bounds
  import opened AdrExport

  function RegionIn(read: map<string, Reading>, name: string): Option<Region> {
    if name in read && read[name].Ok? then read[name].value else None
  }

  ghost predicate Readable(read: map<string, Reading>, name: string) {
    name in read && read[name].Ok?
  }

  /** Two names that fold together, or hold regions of one id or one number. */
  ghost predicate Clash(env: Env, read: map<string, Reading>, a: string, b: string) {
    || env.casefold(a) == env.casefold(b)
    || (RegionIn(read, a).Some? && RegionIn(read, b).Some? &&
        (RegionIn(read, a).value.id == RegionIn(read, b).value.id
         || RegionIn(read, a).value.number == RegionIn(read, b).value.number))
  }

  /** Names the scan finds nothing wrong with. */
  ghost predicate CleanSeen(env: Env, read: map<string, Reading>, seen: set<string>) {
    && (forall n :: n in seen ==> Readable(read, n))
    && (forall a, b {:trigger Clash(env, read, a, b)} :: a in seen && b in seen && a != b ==> !Clash(env, read, a, b))
  }

  ghost predicate FoundKeys(env: Env, seen: set<string>, sc: Scan) {
    && (forall n :: n in seen ==> env.casefold(n) in sc.folded)
    && (forall k :: k in sc.folded ==> sc.folded[k] in seen && env.casefold(sc.folded[k]) == k)
  }

  ghost predicate FoundRegions(read: map<string, Reading>, seen: set<string>, sc: Scan) {
    && (forall n :: n in sc.regions <==> n in seen && RegionIn(read, n).Some?)
    && (forall n :: n in sc.regions ==> RegionIn(read, n) == Some(sc.regions[n]))
    && (forall n :: n in sc.regions ==> sc.regions[n].id in sc.owned && sc.owned[sc.regions[n].id] == n)
    && (forall n :: n in sc.regions ==> sc.regions[n].number in sc.numbers && sc.numbers[sc.regions[n].number] == n)
    && (forall id :: id in sc.owned ==> sc.owned[id] in sc.regions && sc.regions[sc.owned[id]].id == id)
    && (forall k :: k in sc.numbers ==> sc.numbers[k] in sc.regions && sc.regions[sc.numbers[k]].number == k)
  }

  ghost predicate FoundHuman(env: Env, read: map<string, Reading>, seen: set<string>, sc: Scan) {
    forall n :: n in seen && RegionIn(read, n).None? && env.humanNumber(n).Some? ==>
      env.humanNumber(n).value in sc.human
  }

  /** What the scan of the names `seen` found. */
  ghost predicate Found(env: Env, read: map<string, Reading>, seen: set<string>, sc: Scan) {
    FoundKeys(env, seen, sc) && FoundRegions(read, seen, sc) && FoundHuman(env, read, seen, sc)
  }

  lemma StepFoundKeys(env: Env, read: map<string, Reading>, front: set<string>, sc: Scan, name: string)
    requires name in read && FoundKeys(env, front, sc) && name !in front
    ensures FoundKeys(env, front + {name}, ScanStep(env, read, sc, name))
  {
    assert ScanStep(env, read, sc, name).folded == sc.folded[env.casefold(name) := name];
  }

  /** A region seen for the first time claims an id and a number nobody holds. */
  lemma NewClaim(env: Env, read: map<string, Reading>, front: set<string>, sc: Scan, name: string)
    requires FoundRegions(read, front, sc) && CleanSeen(env, read, front + {name}) && name !in front
    requires RegionIn(read, name).Some?
    ensures RegionIn(read, name).value.id !in sc.owned && RegionIn(read, name).value.number !in sc.numbers
  {
    var r := RegionIn(read, name).value;
    if r.id in sc.owned {
      var b := sc.owned[r.id];
      assert b in front && Clash(env, read, name, b);
    }
    if r.number in sc.numbers {
      var b := sc.numbers[r.number];
      assert b in front && Clash(env, read, name, b);
    }
  }

  lemma ClaimRegion(read: map<string, Reading>, front: set<string>, sc: Scan, name: string, r: Region, sc': Scan)
    requires FoundRegions(read, front, sc) && name !in front && RegionIn(read, name) == Some(r)
    requires r.id !in sc.owned && r.number !in sc.numbers
    requires sc'.regions == sc.regions[name := r] && sc'.owned == sc.owned[r.id := name]
      && sc'.numbers == sc.numbers[r.number := name]
    ensures FoundRegions(read, front + {name}, sc')
  {
  }

  lemma StepFoundRegions(env: Env, read: map<string, Reading>, front: set<string>, sc: Scan, name: string)
    requires name in read && FoundRegions(read, front, sc) && CleanSeen(env, read, front + {name}) && name !in front
    ensures FoundRegions(read, front + {name}, ScanStep(env, read, sc, name))
  {
    var sc' := ScanStep(env, read, sc, name);
    assert Readable(read, name);
    if RegionIn(read, name).Some? {
      NewClaim(env, read, front, sc, name);
      ClaimRegion(read, front, sc, name, RegionIn(read, name).value, sc');
    } else {
      assert sc'.regions == sc.regions && sc'.owned == sc.owned && sc'.numbers == sc.numbers;
    }
  }

  lemma StepFoundHuman(env: Env, read: map<string, Reading>, front: set<string>, sc: Scan, name: string)
    requires name in read && FoundHuman(env, read, front, sc) && Readable(read, name)
    ensures FoundHuman(env, read, front + {name}, ScanStep(env, read, sc, name))
  {
  }

  lemma StepClean(env: Env, read: map<string, Reading>, front: set<string>, sc: Scan, name: string)
    requires name in read && Found(env, read, front, sc) && CleanSeen(env, read, front + {name}) && name !in front
    ensures ScanStep(env, read, sc, name).conflicts == sc.conflicts
  {
    assert Readable(read, name);
    var key := env.casefold(name);
    if key in sc.folded { assert sc.folded[key] in front && Clash(env, read, name, sc.folded[key]); }
    if RegionIn(read, name).Some? { NewClaim(env, read, front, sc, name); }
  }

  lemma NoClashWithSeen(env: Env, read: map<string, Reading>, front: set<string>, sc: Scan, name: string, a: string)
    requires name in read && Found(env, read, front, sc) && a in front && a != name
    requires ScanStep(env, read, sc, name).conflicts == {}
    ensures Readable(read, name) && !Clash(env, read, a, name) && !Clash(env, read, name, a)
  {
    assert name !in ScanStep(env, read, sc, name).conflicts;
    assert env.casefold(a) in sc.folded && env.casefold(name) !in sc.folded;
    if RegionIn(read, a).Some? { assert a in sc.regions; }
  }

  lemma StepConflict(env: Env, read: map<string, Reading>, front: set<string>, sc: Scan, name: string)
    requires name in read && Found(env, read, front, sc) && CleanSeen(env, read, front)
    requires ScanStep(env, read, sc, name).conflicts == {}
    ensures CleanSeen(env, read, front + {name})
  {
    assert name !in ScanStep(env, read, sc, name).conflicts;
    assert Readable(read, name);
    forall a | a in front && a != name ensures !Clash(env, read, a, name) && !Clash(env, read, name, a) {
      NoClashWithSeen(env, read, front, sc, name, a);
    }
  }

  function Seen(names: seq<string>): set<string> {
    set n | n in names
  }

  lemma {:induction false} ScanFinds(env: Env, read: map<string, Reading>, names: seq<string>)
    requires forall n :: n in names ==> n in read
    requires forall i, j :: 0 <= i < j < |names| ==> names[i] != names[j]
    ensures ScanOf(env, read, names).conflicts == {} <==> CleanSeen(env, read, Seen(names))
    ensures CleanSeen(env, read, Seen(names)) ==> Found(env, read, Seen(names), ScanOf(env, read, names))
  {
    if names != [] {
      var front, name := names[..|names| - 1], names[|names| - 1];
      ScanFinds(env, read, front);
      assert names == front + [name];
      assert name !in front;
      assert Seen(names) == Seen(front) + {name};
      var sc := ScanOf(env, read, front);
      assert ScanOf(env, read, names) == ScanStep(env, read, sc, name);
      assert sc.conflicts <= ScanStep(env, read, sc, name).conflicts;
      if CleanSeen(env, read, Seen(names)) {
        assert CleanSeen(env, read, Seen(front));
        StepFoundKeys(env, read, Seen(front), sc, name);
        StepFoundRegions(env, read, Seen(front), sc, name);
        StepFoundHuman(env, read, Seen(front), sc, name);
        StepClean(env, read, Seen(front), sc, name);
      }
      if ScanOf(env, read, names).conflicts == {} {
        StepConflict(env, read, Seen(front), sc, name);
      }
    }
  }

  /** The scan reports no conflict exactly when the directory is clean. */
  lemma {:induction false} ScanIsExact(env: Env, dir: Directory, names: seq<string>)
    requires Lists(names, dir)
    ensures var read := Readings(env, dir); var sc := ScanOf(env, read, names);
      && (sc.conflicts == {} <==> CleanSeen(env, read, dir.Keys))
      && (CleanSeen(env, read, dir.Keys) ==> Found(env, read, dir.Keys, sc))
  {
    ScanFinds(env, Readings(env, dir), names);
    assert Seen(names) == dir.Keys;
  }

  /* ---- numbering ---- */

  /** Every region has a valid identity and can be kept. */
  ghost predicate RegionsValid(sc: Scan) {
    forall n :: n in sc.regions ==> Identity(sc.regions[n].id, sc.regions[n].number) && Kept(Some(sc.regions[n]))
  }

  function Base(sc: Scan): nat {
    MaxOf(sc.numbers.Keys + sc.human)
  }

  /** A record that gets a new number: neither human nor owned. */
  predicate Fresh(env: Env, dir: Directory, sc: Scan, id: string) {
    !IsHuman(env, dir, sc, id) && id !in sc.owned
  }

  /** What the numbering loop decides about one record. */
  ghost predicate Decided(env: Env, dir: Directory, sc: Scan, num: Numbering, id: string) {
    && id in num.paths
    && if IsHuman(env, dir, sc, id) then id in num.human && env.source(id) == Some(num.paths[id])
       else
         && id !in num.human && id in num.sequence
         && if id in sc.owned
            then num.paths[id] == sc.owned[id] && sc.owned[id] in sc.regions
              && num.sequence[id] == sc.regions[sc.owned[id]].number
            else Base(sc) < num.sequence[id] <= num.highest && num.sequence[id] <= MAX_NUMBER
                 && env.basename(id, num.sequence[id]) == Some(num.paths[id])
  }

  ghost predicate DecidedKeys(done: set<string>, num: Numbering) {
    num.human <= done && num.paths.Keys == done && num.sequence.Keys == done - num.human
  }

  /** New numbers are pairwise distinct. */
  ghost predicate FreshDistinct(env: Env, dir: Directory, sc: Scan, done: set<string>, num: Numbering) {
    forall a, b :: a in done && b in done && a != b && Fresh(env, dir, sc, a) && Fresh(env, dir, sc, b)
      ==> a in num.sequence && b in num.sequence && num.sequence[a] != num.sequence[b]
  }

  /** What the numbering loop has decided about the records `done`. */
  ghost predicate NumberedSo(env: Env, dir: Directory, sc: Scan, done: set<string>, num: Numbering) {
    && Base(sc) <= num.highest
    && DecidedKeys(done, num)
    && (forall id :: id in done ==> Decided(env, dir, sc, num, id))
    && FreshDistinct(env, dir, sc, done, num)
  }

  ghost predicate Steps(env: Env, dir: Directory, sc: Scan, num: Numbering, id: string, num': Numbering) {
    && id in num'.paths && num'.paths == num.paths[id := num'.paths[id]]
    && num'.human == num.human + (if IsHuman(env, dir, sc, id) then {id} else {})
    && (if IsHuman(env, dir, sc, id) then num'.sequence == num.sequence
        else id in num'.sequence && num'.sequence == num.sequence[id := num'.sequence[id]])
    && num.highest <= num'.highest
  }

  lemma StepShape(env: Env, dir: Directory, sc: Scan, num: Numbering, id: string)
    requires AssignStep(env, dir, sc, num, id).Some?
    ensures Steps(env, dir, sc, num, id, AssignStep(env, dir, sc, num, id).value)
  {
  }

  lemma StepKeepsDecided(env: Env, dir: Directory, sc: Scan, num: Numbering, id: string, num': Numbering, k: string)
    requires Steps(env, dir, sc, num, id, num') && Decided(env, dir, sc, num, k) && k != id
    ensures Decided(env, dir, sc, num', k)
    ensures k in num.sequence ==> k in num'.sequence && num'.sequence[k] == num.sequence[k]
  {
  }

  lemma StepDecides(env: Env, dir: Directory, sc: Scan, num: Numbering, id: string)
    requires Base(sc) <= num.highest && id !in num.human
    requires forall k :: k in sc.owned ==> sc.owned[k] in sc.regions
    requires AssignStep(env, dir, sc, num, id).Some?
    ensures Decided(env, dir, sc, AssignStep(env, dir, sc, num, id).value, id)
    ensures Fresh(env, dir, sc, id) ==> num.highest < AssignStep(env, dir, sc, num, id).value.sequence[id]
  {
  }

  lemma StepKeys(env: Env, dir: Directory, sc: Scan, done: set<string>, num: Numbering, id: string, num': Numbering)
    requires Steps(env, dir, sc, num, id, num') && DecidedKeys(done, num) && id !in done
    ensures DecidedKeys(done + {id}, num')
  {
    assert num'.paths.Keys == num.paths.Keys + {id};
    assert !IsHuman(env, dir, sc, id) ==> num'.sequence.Keys == num.sequence.Keys + {id};
  }

  lemma StepFresh(env: Env, dir: Directory, sc: Scan, done: set<string>, num: Numbering, id: string, num': Numbering)
    requires Steps(env, dir, sc, num, id, num') && id !in done && FreshDistinct(env, dir, sc, done, num)
    requires forall k :: k in done && Fresh(env, dir, sc, k) ==> k in num.sequence && num.sequence[k] <= num.highest
    requires Fresh(env, dir, sc, id) ==> id in num'.sequence && num.highest < num'.sequence[id]
    ensures FreshDistinct(env, dir, sc, done + {id}, num')
  {
    forall k | k in done && Fresh(env, dir, sc, k) ensures k in num'.sequence && num'.sequence[k] == num.sequence[k] {
      assert k != id;
    }
  }

  lemma StepNumbered(env: Env, dir: Directory, sc: Scan, done: set<string>, num: Numbering, id: string)
    requires NumberedSo(env, dir, sc, done, num) && id !in done
    requires forall k :: k in sc.owned ==> sc.owned[k] in sc.regions
    requires AssignStep(env, dir, sc, num, id).Some?
    ensures NumberedSo(env, dir, sc, done + {id}, AssignStep(env, dir, sc, num, id).value)
  {
    var num' := AssignStep(env, dir, sc, num, id).value;
    StepShape(env, dir, sc, num, id);
    StepDecides(env, dir, sc, num, id);
    StepKeys(env, dir, sc, done, num, id, num');
    forall k | k in done ensures Decided(env, dir, sc, num', k) {
      StepKeepsDecided(env, dir, sc, num, id, num', k);
    }
    forall k | k in done && Fresh(env, dir, sc, k) ensures k in num.sequence && num.sequence[k] <= num.highest {
      assert Decided(env, dir, sc, num, k);
    }
    StepFresh(env, dir, sc, done, num, id, num');
  }

  lemma NothingNumbered(env: Env, dir: Directory, sc: Scan)
    ensures NumberedSo(env, dir, sc, {}, Numbering(map[], map[], {}, Base(sc)))
  {
  }

  lemma {:induction false} AssignUnfolds(env: Env, dir: Directory, sc: Scan, ids: seq<string>)
    requires ids != [] && AssignOf(env, dir, sc, ids).Some?
    ensures AssignOf(env, dir, sc, ids[..|ids| - 1]).Some?
    ensures AssignOf(env, dir, sc, ids)
      == AssignStep(env, dir, sc, AssignOf(env, dir, sc, ids[..|ids| - 1]).value, ids[|ids| - 1])
  {
  }

  lemma {:induction false} AssignNumbers(env: Env, dir: Directory, sc: Scan, ids: seq<string>, num: Numbering)
    requires forall i, j :: 0 <= i < j < |ids| ==> ids[i] != ids[j]
    requires forall k :: k in sc.owned ==> sc.owned[k] in sc.regions
    requires AssignOf(env, dir, sc, ids) == Some(num)
    ensures NumberedSo(env, dir, sc, Seen(ids), num)
  {
    if ids == [] {
      NothingNumbered(env, dir, sc);
      assert Seen(ids) == {};
    } else {
      var front, id := ids[..|ids| - 1], ids[|ids| - 1];
      AssignUnfolds(env, dir, sc, ids);
      var before := AssignOf(env, dir, sc, front).value;
      AssignNumbers(env, dir, sc, front, before);
      assert ids == front + [id];
      assert id !in front;
      assert Seen(ids) == Seen(front) + {id};
      StepNumbered(env, dir, sc, Seen(front), before, id);
    }
  }

  /* ---- the desired files ---- */

  function ItemOf(env: Env, num: Numbering, id: string): Item
    requires id in num.paths && id in num.sequence
  {
    Item(num.paths[id], id, num.sequence[id], env.render(id, num.paths))
  }

  lemma {:induction false} RecordItemsMembers(env: Env, num: Numbering, ids: seq<string>)
    requires forall i, j :: 0 <= i < j < |ids| ==> ids[i] != ids[j]
    requires forall id :: id in ids && id !in num.human ==> id in num.paths && id in num.sequence
    ensures forall it :: it in RecordItems(env, num, ids) <==>
              it.id in ids && it.id !in num.human && it == ItemOf(env, num, it.id)
    ensures DistinctIds(RecordItems(env, num, ids))
  {
    if ids != [] {
      var front, id := ids[..|ids| - 1], ids[|ids| - 1];
      assert ids == front + [id];
      assert id !in front;
      RecordItemsMembers(env, num, front);
      var items, before := RecordItems(env, num, ids), RecordItems(env, num, front);
      assert before + [] == before;
      if id !in num.human {
        assert items == before + [ItemOf(env, num, id)];
        assert forall it :: it in before ==> it.id != id;
        AppendDistinct(before, ItemOf(env, num, id));
      } else {
        assert items == before;
      }
    }
  }

  predicate DistinctIds(items: seq<Item>) {
    forall i, j :: 0 <= i < j < |items| ==> items[i].id != items[j].id
  }

  lemma AppendDistinct(items: seq<Item>, item: Item)
    requires DistinctIds(items) && forall it :: it in items ==> it.id != item.id
    ensures DistinctIds(items + [item])
  {
  }

  /** A desired file either is the file its record owns already, under the same number,
      or has a name, an id and a number nobody holds. */
  ghost predicate Fits(env: Env, sc: Scan, item: Item) {
    if env.casefold(item.name) in sc.folded
    then sc.folded[env.casefold(item.name)] == item.name && item.name in sc.regions
         && sc.regions[item.name].id == item.id && sc.regions[item.name].number == item.number
    else item.id !in sc.owned && item.number !in sc.numbers
  }

  function Held(sc: Scan, name: string): Option<Region> {
    if name in sc.regions then Some(sc.regions[name]) else None
  }

  lemma OwnedFits(env: Env, read: map<string, Reading>, seen: set<string>, sc: Scan, item: Item)
    requires Found(env, read, seen, sc) && CleanSeen(env, read, seen)
    requires item.id in sc.owned && item.name == sc.owned[item.id] && item.number == sc.regions[item.name].number
    ensures Fits(env, sc, item)
  {
    assert item.name in sc.regions;
    var key := env.casefold(item.name);
    assert key in sc.folded;
    if sc.folded[key] != item.name { assert Clash(env, read, sc.folded[key], item.name); }
  }

  /** A fresh record that causes no conflict fits. */
  lemma FreshFits(env: Env, read: map<string, Reading>, seen: set<string>, sc: Scan, item: Item)
    requires Found(env, read, seen, sc)
    requires item.id !in sc.owned && item.number !in sc.numbers
    requires env.casefold(item.name) in sc.folded ==>
      sc.folded[env.casefold(item.name)] in sc.regions && sc.regions[sc.folded[env.casefold(item.name)]].id == item.id
    ensures Fits(env, sc, item)
  {
  }

  function Reads(env: Env, item: Item, held: Option<Region>): Reading {
    Parse(env.hash, Printed(env, item, held))
  }

  lemma EmitUnfolds(env: Env, dir: Directory, sc: Scan, items: seq<Item>)
    requires items != [] && EmitAll(env, dir, sc, items).Some?
    ensures var front, item := items[..|items| - 1], items[|items| - 1];
      && EmitAll(env, dir, sc, front).Some? && Emit(env, dir, sc, PlannedKeys(env, front), item).Some?
      && EmitAll(env, dir, sc, items).value
        == EmitAll(env, dir, sc, front).value + [Emit(env, dir, sc, PlannedKeys(env, front), item).value]
  {
  }

  lemma {:induction false} EmitLength(env: Env, dir: Directory, sc: Scan, items: seq<Item>)
    requires EmitAll(env, dir, sc, items).Some?
    ensures |EmitAll(env, dir, sc, items).value| == |items|
  {
    if items != [] {
      EmitUnfolds(env, dir, sc, items);
      EmitLength(env, dir, sc, items[..|items| - 1]);
    }
  }

  lemma {:induction false} EmitAt(env: Env, dir: Directory, sc: Scan, items: seq<Item>, i: nat)
    requires EmitAll(env, dir, sc, items).Some? && i < |items| == |EmitAll(env, dir, sc, items).value|
    ensures Emit(env, dir, sc, PlannedKeys(env, items[..i]), items[i]) == Some(EmitAll(env, dir, sc, items).value[i])
  {
    var n := |items| - 1;
    EmitUnfolds(env, dir, sc, items);
    EmitLength(env, dir, sc, items[..n]);
    if i < n {
      EmitAt(env, dir, sc, items[..n], i);
      assert items[..n][..i] == items[..i];
    }
  }

  lemma {:induction false} EmitEach(env: Env, dir: Directory, sc: Scan, items: seq<Item>)
    requires EmitAll(env, dir, sc, items).Some?
    ensures var changes := EmitAll(env, dir, sc, items).value;
      && |changes| == |items|
      && forall i :: 0 <= i < |items| ==> Emit(env, dir, sc, PlannedKeys(env, items[..i]), items[i]) == Some(changes[i])
  {
    EmitLength(env, dir, sc, items);
    forall i | 0 <= i < |items|
      ensures Emit(env, dir, sc, PlannedKeys(env, items[..i]), items[i]) == Some(EmitAll(env, dir, sc, items).value[i])
    {
      EmitAt(env, dir, sc, items, i);
    }
  }

  /** Emitting a file without conflict, taken apart. */
  lemma EmitAccepts(env: Env, dir: Directory, sc: Scan, planned: set<string>, item: Item)
    requires Emit(env, dir, sc, planned, item).Some? && Emit(env, dir, sc, planned, item).value.action != Conflict
    ensures var key := env.casefold(item.name);
      && key !in planned
      && (key in sc.folded ==> sc.folded[key] in sc.regions && sc.regions[sc.folded[key]].id == item.id)
  {
  }

  ghost predicate DistinctFolds(env: Env, items: seq<Item>) {
    forall i, j :: 0 <= i < j < |items| ==> env.casefold(items[i].name) != env.casefold(items[j].name)
  }

  predicate DistinctNumbers(items: seq<Item>) {
    forall i, j :: 0 <= i < j < |items| ==> items[i].number != items[j].number
  }

  /** The desired files of a conflict-free plan. */
  ghost predicate ItemsOk(env: Env, sc: Scan, items: seq<Item>) {
    && DistinctIds(items) && DistinctNumbers(items) && DistinctFolds(env, items)
    && forall it :: it in items ==> Fits(env, sc, it) && Identity(it.id, it.number)
  }

  lemma {:induction false} AcceptedFolds(env: Env, dir: Directory, sc: Scan, items: seq<Item>)
    requires EmitAll(env, dir, sc, items).Some?
    requires forall c :: c in EmitAll(env, dir, sc, items).value ==> c.action != Conflict
    ensures DistinctFolds(env, items)
    ensures forall it :: it in items && env.casefold(it.name) in sc.folded ==>
      sc.folded[env.casefold(it.name)] in sc.regions && sc.regions[sc.folded[env.casefold(it.name)]].id == it.id
  {
    EmitEach(env, dir, sc, items);
    var changes := EmitAll(env, dir, sc, items).value;
    forall j | 0 <= j < |items|
      ensures env.casefold(items[j].name) !in PlannedKeys(env, items[..j])
      ensures env.casefold(items[j].name) in sc.folded ==>
        sc.folded[env.casefold(items[j].name)] in sc.regions
          && sc.regions[sc.folded[env.casefold(items[j].name)]].id == items[j].id
    {
      assert changes[j] in changes;
      EmitAccepts(env, dir, sc, PlannedKeys(env, items[..j]), items[j]);
    }
    forall i, j | 0 <= i < j < |items| ensures env.casefold(items[i].name) != env.casefold(items[j].name) {
      assert items[..j][i] == items[i];
      assert items[i] in items[..j];
      assert env.casefold(items[i].name) in PlannedKeys(env, items[..j]);
    }
  }

  /** The names and the directory's scan, and the numbering it leads to. */
  ghost predicate Planned(env: Env, dir: Directory, sc: Scan, ids: seq<string>, num: Numbering) {
    && CleanSeen(env, Readings(env, dir), dir.Keys) && Found(env, Readings(env, dir), dir.Keys, sc) && RegionsValid(sc)
    && (forall i, j :: 0 <= i < j < |ids| ==> ids[i] != ids[j])
    && (forall id :: id in ids ==> ValidId(id) && id != INDEX)
    && NumberedSo(env, dir, sc, Seen(ids), num)
  }

  lemma RegionsAreValid(env: Env, dir: Directory, sc: Scan)
    requires FoundRegions(Readings(env, dir), dir.Keys, sc)
    ensures RegionsValid(sc)
  {
    forall n | n in sc.regions ensures Identity(sc.regions[n].id, sc.regions[n].number) && Kept(Some(sc.regions[n])) {
      assert RegionIn(Readings(env, dir), n) == Some(sc.regions[n]);
      if dir[n].Regular? { ParsedRegion(env.hash, dir[n].text); }
    }
  }

  /** Numbers in use are at most the base the new ones start above. */
  lemma BaseAbove(sc: Scan, n: nat)
    requires n in sc.numbers || n in sc.human
    ensures n <= Base(sc)
  {
    assert n in sc.numbers.Keys + sc.human;
  }

  lemma RecordItemFits(env: Env, dir: Directory, sc: Scan, ids: seq<string>, num: Numbering, id: string)
    requires Planned(env, dir, sc, ids, num) && id in ids && id !in num.human && id in num.paths && id in num.sequence
    requires var item := ItemOf(env, num, id); env.casefold(item.name) in sc.folded ==>
      sc.folded[env.casefold(item.name)] in sc.regions && sc.regions[sc.folded[env.casefold(item.name)]].id == id
    ensures Fits(env, sc, ItemOf(env, num, id)) && Identity(id, num.sequence[id])
  {
    var item := ItemOf(env, num, id);
    assert Decided(env, dir, sc, num, id);
    if id in sc.owned {
      OwnedFits(env, Readings(env, dir), dir.Keys, sc, item);
    } else {
      if item.number in sc.numbers { BaseAbove(sc, item.number); }
      FreshFits(env, Readings(env, dir), dir.Keys, sc, item);
    }
  }

  lemma IndexFits(env: Env, dir: Directory, sc: Scan, ids: seq<string>, num: Numbering)
    requires Planned(env, dir, sc, ids, num)
    requires var item := IndexItem(env, sc, num); env.casefold(item.name) in sc.folded ==>
      sc.folded[env.casefold(item.name)] in sc.regions && sc.regions[sc.folded[env.casefold(item.name)]].id == INDEX
    ensures Fits(env, sc, IndexItem(env, sc, num)) && Identity(INDEX, 0)
  {
    var item := IndexItem(env, sc, num);
    if INDEX in sc.owned {
      assert Identity(sc.regions[sc.owned[INDEX]].id, sc.regions[sc.owned[INDEX]].number);
      OwnedFits(env, Readings(env, dir), dir.Keys, sc, item);
    } else {
      assert 0 !in sc.numbers;
      FreshFits(env, Readings(env, dir), dir.Keys, sc, item);
    }
  }

  /** Two records never share a number. */
  lemma SequenceDistinct(env: Env, dir: Directory, sc: Scan, ids: seq<string>, num: Numbering, a: string, b: string)
    requires Planned(env, dir, sc, ids, num) && a in ids && b in ids && a != b && a !in num.human && b !in num.human
    requires a in num.sequence && b in num.sequence
    ensures num.sequence[a] != num.sequence[b]
  {
    assert Decided(env, dir, sc, num, a) && Decided(env, dir, sc, num, b);
    if a in sc.owned { BaseAbove(sc, num.sequence[a]); }
    if b in sc.owned { BaseAbove(sc, num.sequence[b]); }
  }

  lemma {:induction false} PlannedItemsOk(env: Env, dir: Directory, sc: Scan, ids: seq<string>, num: Numbering)
    requires Planned(env, dir, sc, ids, num)
    requires EmitAll(env, dir, sc, Items(env, sc, num, ids)).Some?
    requires forall c :: c in EmitAll(env, dir, sc, Items(env, sc, num, ids)).value ==> c.action != Conflict
    ensures ItemsOk(env, sc, Items(env, sc, num, ids))
  {
    var items := Items(env, sc, num, ids);
    var records := RecordItems(env, num, ids);
    AcceptedFolds(env, dir, sc, items);
    forall id | id in ids && id !in num.human ensures id in num.paths && id in num.sequence {
      assert Decided(env, dir, sc, num, id);
    }
    RecordItemsMembers(env, num, ids);
    AppendDistinct(records, IndexItem(env, sc, num));
    assert IndexItem(env, sc, num) in items;
    IndexFits(env, dir, sc, ids, num);
    forall it | it in records ensures Fits(env, sc, it) && Identity(it.id, it.number) && it in items {
      assert it in items;
      RecordItemFits(env, dir, sc, ids, num, it.id);
    }
    forall i, j | 0 <= i < j < |items| ensures items[i].number != items[j].number {
      assert items[i] == records[i] && records[i] in records;
      if j < |records| {
        assert items[j] == records[j] && records[j] in records;
        SequenceDistinct(env, dir, sc, ids, num, items[i].id, items[j].id);
      }
    }
  }

  /* ---- the directory after the export ---- */

  /** The region a desired file holds once the plan is applied. */
  function RegionAfter(env: Env, sc: Scan, item: Item): Region
    requires Reads(env, item, Held(sc, item.name)).Ok? && Reads(env, item, Held(sc, item.name)).value.Some?
  {
    var planned := Reads(env, item, Held(sc, item.name)).value.value;
    if item.name in sc.regions && sc.regions[item.name].body == planned.body then sc.regions[item.name] else planned
  }

  /** A change that a desired file leads to: nothing, or writing what was printed. */
  ghost predicate DoesSo(item: Item, held: Option<Region>, after: string, planned: Reading, c: Change) {
    && planned.Ok? && planned.value.Some? && c.path == item.name && c.id == item.id
    && if held.Some? && held.value.body == planned.value.value.body then c.action == Unchanged
       else (c.action == Add || c.action == Update) && c.after == Some(after)
  }

  ghost predicate Does(env: Env, sc: Scan, item: Item, c: Change) {
    DoesSo(item, Held(sc, item.name), Printed(env, item, Held(sc, item.name)), Reads(env, item, Held(sc, item.name)), c)
  }

  lemma DecideDoes(item: Item, before: Option<string>, held: Option<Region>, after: string, planned: Reading)
    requires Decide(item.name, item, before, held, after, planned).Some?
    ensures DoesSo(item, held, after, planned, Decide(item.name, item, before, held, after, planned).value)
  {
  }

  /** What stood under the name when it was planned. */
  function Before(dir: Directory, name: string): Option<string> {
    if name in dir && dir[name].Regular? then Some(dir[name].text) else None
  }

  lemma EmitDecides(env: Env, dir: Directory, sc: Scan, planned: set<string>, item: Item)
    requires Emit(env, dir, sc, planned, item).Some? && Emit(env, dir, sc, planned, item).value.action != Conflict
    requires Fits(env, sc, item) && (env.casefold(item.name) !in sc.folded ==> item.name !in sc.regions)
    ensures var held := Held(sc, item.name);
      exists before :: Emit(env, dir, sc, planned, item) ==
        Decide(item.name, item, before, held, Printed(env, item, held), Reads(env, item, held))
  {
    var held := Held(sc, item.name);
    var before := if env.casefold(item.name) in sc.folded then Before(dir, item.name) else None;
    assert Emit(env, dir, sc, planned, item)
      == Decide(item.name, item, before, held, Printed(env, item, held), Reads(env, item, held));
  }

  lemma EmitDoes(env: Env, dir: Directory, sc: Scan, planned: set<string>, item: Item)
    requires Emit(env, dir, sc, planned, item).Some? && Emit(env, dir, sc, planned, item).value.action != Conflict
    requires Fits(env, sc, item) && (env.casefold(item.name) !in sc.folded ==> item.name !in sc.regions)
    ensures Does(env, sc, item, Emit(env, dir, sc, planned, item).value)
  {
    EmitDecides(env, dir, sc, planned, item);
    var held := Held(sc, item.name);
    var before :| Emit(env, dir, sc, planned, item) ==
      Decide(item.name, item, before, held, Printed(env, item, held), Reads(env, item, held));
    DecideDoes(item, before, held, Printed(env, item, held), Reads(env, item, held));
  }

  ghost predicate AllDo(env: Env, sc: Scan, items: seq<Item>, changes: seq<Change>) {
    |changes| == |items| && forall i :: 0 <= i < |items| ==> Does(env, sc, items[i], changes[i])
  }

  predicate Settles(c: Change) {
    c.action == Unchanged || ((c.action == Add || c.action == Update) && c.after.Some?)
  }

  ghost predicate DistinctPaths(changes: seq<Change>) {
    forall i, j :: 0 <= i < j < |changes| ==> changes[i].path != changes[j].path
  }

  /** Applying changes of other paths leaves `n` alone. */
  lemma {:induction false} AppliedElsewhere(dir: Directory, changes: seq<Change>, n: string)
    requires forall i :: 0 <= i < |changes| ==> changes[i].path != n
    ensures var after := ApplyChanges(dir, changes); (n in after <==> n in dir) && (n in dir ==> after[n] == dir[n])
  {
    if changes != [] {
      AppliedElsewhere(dir, changes[..|changes| - 1], n);
    }
  }

  /** What the applied changes leave under the path of one of them. */
  lemma {:induction false} AppliedAt(dir: Directory, changes: seq<Change>, i: nat)
    requires i < |changes| && DistinctPaths(changes) && Settles(changes[i])
    ensures var after, c := ApplyChanges(dir, changes), changes[i];
      if c.action == Unchanged then (c.path in after <==> c.path in dir)
        && (c.path in dir ==> after[c.path] == dir[c.path])
      else c.path in after && after[c.path] == Regular(c.after.value)
  {
    var k := |changes| - 1;
    if i < k {
      AppliedAt(dir, changes[..k], i);
      assert changes[k].path != changes[i].path;
    } else {
      AppliedElsewhere(dir, changes[..k], changes[i].path);
    }
  }

  lemma ChangesSettle(env: Env, sc: Scan, items: seq<Item>, changes: seq<Change>)
    requires AllDo(env, sc, items, changes) && DistinctFolds(env, items)
    ensures DistinctPaths(changes)
    ensures forall i :: 0 <= i < |changes| ==> Settles(changes[i]) && changes[i].path == items[i].name
  {
    forall i | 0 <= i < |changes| ensures Settles(changes[i]) && changes[i].path == items[i].name {
      assert Does(env, sc, items[i], changes[i]);
    }
    forall i, j | 0 <= i < j < |changes| ensures changes[i].path != changes[j].path {
      assert env.casefold(items[i].name) != env.casefold(items[j].name);
    }
  }

  /** An applied file reads back as `RegionAfter`, and printing it again keeps its body. */
  lemma ItemReadsBack(env: Env, sc: Scan, item: Item)
    requires HexHash(env.hash) && Identity(item.id, item.number) && RegionsValid(sc) && Fits(env, sc, item)
    requires env.casefold(item.name) !in sc.folded ==> item.name !in sc.regions
    requires Reads(env, item, Held(sc, item.name)).Ok? && Reads(env, item, Held(sc, item.name)).value.Some?
    ensures var r := RegionAfter(env, sc, item);
      && r.id == item.id && r.number == item.number && Kept(Some(r))
      && Reads(env, item, Some(r)).Ok? && Reads(env, item, Some(r)).value.Some?
        && Reads(env, item, Some(r)).value.value.body == r.body
      && (r != Reads(env, item, Held(sc, item.name)).value.value ==>
        item.name in sc.regions && r == sc.regions[item.name])
  {
    var held := Held(sc, item.name);
    WrapParses(env.hash, item.id, item.number, item.text, held);
    WrapAgain(env.hash, item.id, item.number, item.text, held);
  }

  /** A finished export: the scanned directory, its desired files, and the changes. */
  ghost predicate Export(env: Env, dir: Directory, sc: Scan, ids: seq<string>, num: Numbering, items: seq<Item>,
      changes: seq<Change>) {
    && HexHash(env.hash) && Planned(env, dir, sc, ids, num)
    && items == Items(env, sc, num, ids) && ItemsOk(env, sc, items) && AllDo(env, sc, items, changes)
    && forall it :: it in items && env.casefold(it.name) !in sc.folded ==> it.name !in sc.regions && it.name !in dir
  }

  /** One desired file afterwards: present, and holding `RegionAfter`. */
  lemma {:induction false} ItemAfter(env: Env, dir: Directory, sc: Scan, ids: seq<string>, num: Numbering,
      items: seq<Item>, changes: seq<Change>, i: nat)
    requires Export(env, dir, sc, ids, num, items, changes) && i < |items|
    ensures var after := ApplyChanges(dir, changes);
      && Does(env, sc, items[i], changes[i])
      && items[i].name in after && ParseEntry(env, after[items[i].name]) == Ok(Some(RegionAfter(env, sc, items[i])))
  {
    var item := items[i];
    assert item in items && Does(env, sc, item, changes[i]);
    ChangesSettle(env, sc, items, changes);
    AppliedAt(dir, changes, i);
    ItemReadsBack(env, sc, item);
    if changes[i].action == Unchanged {
      assert RegionIn(Readings(env, dir), item.name) == Some(sc.regions[item.name]);
    }
  }

  ghost predicate Desired(items: seq<Item>, n: string) {
    exists i :: 0 <= i < |items| && items[i].name == n
  }

  lemma {:induction false} OtherAfter(env: Env, dir: Directory, sc: Scan, ids: seq<string>, num: Numbering,
      items: seq<Item>, changes: seq<Change>, n: string)
    requires Export(env, dir, sc, ids, num, items, changes) && !Desired(items, n)
    ensures var after := ApplyChanges(dir, changes); (n in after <==> n in dir) && (n in dir ==> after[n] == dir[n])
  {
    ChangesSettle(env, sc, items, changes);
    AppliedElsewhere(dir, changes, n);
  }
}
