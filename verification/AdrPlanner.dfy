/** The export planner and its application as loops, and what they never write. */
module AdrPlanner {
  import opened Wrappers
  import opened AdrFiles
  import opened Bounds
  import opened AdrExport
  import opened AdrFixpoint
  import opened AdrSettled

  /* ---- which files a plan writes ---- */

  /** What the scan of any directory finds, clean or not. */
  ghost predicate Looks(env: Env, read: map<string, Reading>, seen: set<string>, sc: Scan) {
    && (forall n :: n in seen ==> env.casefold(n) in sc.folded)
    && (forall k :: k in sc.folded ==> sc.folded[k] in seen && env.casefold(sc.folded[k]) == k)
    && (forall n :: n in sc.regions ==> RegionIn(read, n) == Some(sc.regions[n]))
  }

  lemma FoldedLooks(env: Env, seen: set<string>, folded: map<string, string>, name: string)
    requires forall n :: n in seen ==> env.casefold(n) in folded
    requires forall k :: k in folded ==> folded[k] in seen && env.casefold(folded[k]) == k
    ensures var f := folded[env.casefold(name) := name];
      && (forall n :: n in seen + {name} ==> env.casefold(n) in f)
      && (forall k :: k in f ==> f[k] in seen + {name} && env.casefold(f[k]) == k)
  {
  }

  lemma StepFolded(env: Env, read: map<string, Reading>, sc: Scan, name: string)
    requires name in read
    ensures ScanStep(env, read, sc, name).folded == sc.folded[env.casefold(name) := name]
    ensures ScanStep(env, read, sc, name).regions == if RegionIn(read, name).Some?
      then sc.regions[name := RegionIn(read, name).value] else sc.regions
  {
  }

  lemma {:induction false} StepLooks(env: Env, read: map<string, Reading>, seen: set<string>, sc: Scan, name: string)
    requires name in read && Looks(env, read, seen, sc)
    ensures Looks(env, read, seen + {name}, ScanStep(env, read, sc, name))
  {
    StepFolded(env, read, sc, name);
    FoldedLooks(env, seen, sc.folded, name);
  }

  lemma {:induction false} ScanLooks(env: Env, read: map<string, Reading>, names: seq<string>)
    requires forall n :: n in names ==> n in read
    ensures Looks(env, read, Seen(names), ScanOf(env, read, names))
  {
    if names != [] {
      var front, name := names[..|names| - 1], names[|names| - 1];
      assert names == front + [name];
      assert Seen(names) == Seen(front) + {name};
      ScanLooks(env, read, front);
      StepLooks(env, read, Seen(front), ScanOf(env, read, front), name);
    }
  }

  predicate Writes(c: Change) {
    c.action == Add || c.action == Update
  }

  /** What a write replaces: nothing, or a regular file that holds a region of the same record. */
  ghost predicate OwnTarget(env: Env, dir: Directory, c: Change) {
    && c.after.Some?
    && if c.action == Add then c.path !in dir && c.before == None
       else
         && c.path in dir && dir[c.path].Regular? && c.before == Some(dir[c.path].text)
         && RegionIn(Readings(env, dir), c.path).Some?
         && RegionIn(Readings(env, dir), c.path).value.id == c.id
  }

  lemma EmitOwnTarget(env: Env, dir: Directory, sc: Scan, planned: set<string>, item: Item)
    requires Looks(env, Readings(env, dir), dir.Keys, sc)
    requires Emit(env, dir, sc, planned, item).Some? && Writes(Emit(env, dir, sc, planned, item).value)
    ensures OwnTarget(env, dir, Emit(env, dir, sc, planned, item).value)
  {
    var key := env.casefold(item.name);
    if key in sc.folded {
      var other := sc.folded[key];
      assert RegionIn(Readings(env, dir), other) == Some(sc.regions[other]);
      assert dir[other].Regular?;
    }
  }

  lemma {:induction false} EmitsOwnTargets(env: Env, dir: Directory, sc: Scan, items: seq<Item>, c: Change)
    requires Looks(env, Readings(env, dir), dir.Keys, sc)
    requires EmitAll(env, dir, sc, items).Some? && c in EmitAll(env, dir, sc, items).value && Writes(c)
    ensures OwnTarget(env, dir, c)
  {
    EmitEach(env, dir, sc, items);
    var changes := EmitAll(env, dir, sc, items).value;
    var i :| 0 <= i < |changes| && changes[i] == c;
    EmitOwnTarget(env, dir, sc, PlannedKeys(env, items[..i]), items[i]);
  }

  /** No plan, with or without conflicts, writes to a human file or to the file of another record. */
  lemma WritesOwnFilesOnly(env: Env, dir: Directory, names: seq<string>, ids: seq<string>)
    requires Lists(names, dir) && PlanOf(env, dir, names, ids).Some?
    ensures forall c :: c in PlanOf(env, dir, names, ids).value.changes && Writes(c) ==> OwnTarget(env, dir, c)
  {
    var sc := ScanOf(env, Readings(env, dir), names);
    ScanLooks(env, Readings(env, dir), names);
    assert Seen(names) == dir.Keys;
    var items := Items(env, sc, AssignOf(env, dir, sc, ids).value, ids);
    forall c | c in PlanOf(env, dir, names, ids).value.changes && Writes(c) ensures OwnTarget(env, dir, c) {
      EmitsOwnTargets(env, dir, sc, items, c);
    }
  }

  /* ---- names and numbers of a conflict-free plan ---- */

  /** The managed file `n` is the record's. */
  ghost predicate Owns(read: map<string, Reading>, dir: Directory, n: string, id: string) {
    n in dir && RegionIn(read, n).Some? && RegionIn(read, n).value.id == id
  }

  ghost predicate IsNumberedByHand(env: Env, read: map<string, Reading>, dir: Directory, n: string) {
    n in dir && RegionIn(read, n).None? && env.humanNumber(n).Some?
  }

  /** The numbering of a plan: owned files keep their name and number, a new number exceeds
      every generated and human number in the directory, and no two new numbers agree. */
  lemma {:induction false} NumbersAreNew(env: Env, dir: Directory, names: seq<string>, ids: seq<string>)
    requires HexHash(env.hash) && Lists(names, dir)
    requires forall i, j :: 0 <= i < j < |ids| ==> ids[i] != ids[j]
    requires forall id :: id in ids ==> ValidId(id) && id != INDEX
    requires PlanOf(env, dir, names, ids).Some? && PlanOf(env, dir, names, ids).value.ConflictFree()
    ensures var read, sc := Readings(env, dir), ScanOf(env, Readings(env, dir), names);
      && AssignOf(env, dir, sc, ids).Some?
      && var num := AssignOf(env, dir, sc, ids).value;
         && (forall id, n :: id in ids && id !in num.human && Owns(read, dir, n, id) ==>
               && id in num.paths && num.paths[id] == n
               && id in num.sequence && num.sequence[id] == RegionIn(read, n).value.number)
         && (forall id :: id in ids && Fresh(env, dir, sc, id) ==> id in num.sequence && num.sequence[id] <= MAX_NUMBER)
         && (forall id, n :: id in ids && Fresh(env, dir, sc, id) && n in dir && RegionIn(read, n).Some? ==>
               id in num.sequence && RegionIn(read, n).value.number < num.sequence[id])
         && (forall id, n :: id in ids && Fresh(env, dir, sc, id) && IsNumberedByHand(env, read, dir, n) ==>
               id in num.sequence && env.humanNumber(n).value < num.sequence[id])
         && (forall a, b :: a in ids && b in ids && a != b && a !in num.human && b !in num.human ==>
               a in num.sequence && b in num.sequence && num.sequence[a] != num.sequence[b])
  {
    var read, sc := Readings(env, dir), ScanOf(env, Readings(env, dir), names);
    PlanIsExport(env, dir, names, ids);
    var num := AssignOf(env, dir, sc, ids).value;
    AllDecided(env, dir, sc, ids, num);
    forall id, n | id in ids && n in dir
      ensures id !in num.human && RegionIn(read, n).Some? && RegionIn(read, n).value.id == id ==>
        id in num.paths && num.paths[id] == n && id in num.sequence
          && num.sequence[id] == RegionIn(read, n).value.number
      ensures Fresh(env, dir, sc, id) && RegionIn(read, n).Some? ==>
        id in num.sequence && RegionIn(read, n).value.number < num.sequence[id]
      ensures Fresh(env, dir, sc, id) && RegionIn(read, n).None? && env.humanNumber(n).Some? ==>
        id in num.sequence && env.humanNumber(n).value < num.sequence[id]
    {
      NumberOf(env, dir, sc, ids, num, id, n);
    }
    forall a, b | a in ids && b in ids && a != b && a !in num.human && b !in num.human
      ensures num.sequence[a] != num.sequence[b]
    {
      SequenceDistinct(env, dir, sc, ids, num, a, b);
    }
  }

  lemma NumberOf(env: Env, dir: Directory, sc: Scan, ids: seq<string>, num: Numbering, id: string, n: string)
    requires Planned(env, dir, sc, ids, num) && Decided(env, dir, sc, num, id) && n in dir
    ensures var region := RegionIn(Readings(env, dir), n);
      && (id !in num.human && region.Some? && region.value.id == id ==>
            id in num.paths && num.paths[id] == n && id in num.sequence && num.sequence[id] == region.value.number)
      && (Fresh(env, dir, sc, id) && region.Some? ==> id in num.sequence && region.value.number < num.sequence[id])
      && (Fresh(env, dir, sc, id) && region.None? && env.humanNumber(n).Some? ==>
            id in num.sequence && env.humanNumber(n).value < num.sequence[id])
  {
    var region := RegionIn(Readings(env, dir), n);
    if region.Some? {
      assert n in sc.regions;
      BaseAbove(sc, region.value.number);
    } else if env.humanNumber(n).Some? {
      assert FoundHuman(env, Readings(env, dir), dir.Keys, sc);
      BaseAbove(sc, env.humanNumber(n).value);
    }
  }

  /** The paths a conflict-free plan touches differ even ignoring case. */
  lemma PlannedNamesDiffer(env: Env, dir: Directory, names: seq<string>, ids: seq<string>)
    requires HexHash(env.hash) && Lists(names, dir)
    requires forall i, j :: 0 <= i < j < |ids| ==> ids[i] != ids[j]
    requires forall id :: id in ids ==> ValidId(id) && id != INDEX
    requires PlanOf(env, dir, names, ids).Some? && PlanOf(env, dir, names, ids).value.ConflictFree()
    ensures var changes := PlanOf(env, dir, names, ids).value.changes;
      forall i, j :: 0 <= i < j < |changes| ==> env.casefold(changes[i].path) != env.casefold(changes[j].path)
  {
    PlanIsExport(env, dir, names, ids);
    var sc := ScanOf(env, Readings(env, dir), names);
    var num := AssignOf(env, dir, sc, ids).value;
    SamePaths(env, sc, Items(env, sc, num, ids), PlanOf(env, dir, names, ids).value.changes);
  }

  lemma SamePaths(env: Env, sc: Scan, items: seq<Item>, changes: seq<Change>)
    requires AllDo(env, sc, items, changes) && DistinctFolds(env, items)
    ensures forall i, j :: 0 <= i < j < |changes| ==> env.casefold(changes[i].path) != env.casefold(changes[j].path)
  {
    forall i | 0 <= i < |items| ensures changes[i].path == items[i].name {
      assert Does(env, sc, items[i], changes[i]);
    }
    forall i, j | 0 <= i < j < |changes| ensures env.casefold(changes[i].path) != env.casefold(changes[j].path) {
      assert changes[i].path == items[i].name && changes[j].path == items[j].name;
    }
  }

  /* ---- the planner's loops ---- */

  /** One name of the directory. */
  method ScanOne(env: Env, sc: Scan, name: string, reading: Reading) returns (next: Scan)
    ensures next == ScanWith(env, sc, name, reading)
  {
    var folded, regions, owned := sc.folded, sc.regions, sc.owned;
    var numbers, human, conflicts := sc.numbers, sc.human, sc.conflicts;
    var key := env.casefold(name);
    if key in folded {
      conflicts := conflicts + {name};
    }
    folded := folded[key := name];
    match reading {
      case Err(_) =>
        conflicts := conflicts + {name};
      case Ok(None) =>
        var number := env.humanNumber(name);
        if number.Some? {
          human := human + {number.value};
        }
      case Ok(Some(region)) =>
        regions := regions[name := region];
        if region.id in owned || region.number in numbers {
          conflicts := conflicts + {name};
        } else {
          owned := owned[region.id := name];
          numbers := numbers[region.number := name];
        }
    }
    next := Scan(folded, regions, owned, numbers, human, conflicts);
  }

  method ScanDirectory(env: Env, dir: Directory, names: seq<string>) returns (sc: Scan)
    requires forall n :: n in names ==> n in dir
    ensures sc == ScanOf(env, Readings(env, dir), names)
  {
    sc := EMPTY_SCAN;
    for k := 0 to |names|
      invariant sc == ScanOf(env, Readings(env, dir), names[..k])
    {
      assert names[..k + 1][..k] == names[..k];
      sc := ScanOne(env, sc, names[k], ParseEntry(env, dir[names[k]]));
    }
    assert names[..|names|] == names;
  }

  lemma {:induction false} AssignNext(env: Env, dir: Directory, sc: Scan, ids: seq<string>, k: nat, num: Numbering)
    requires k < |ids| && AssignOf(env, dir, sc, ids[..k]) == Some(num)
    ensures AssignOf(env, dir, sc, ids[..k + 1]) == AssignStep(env, dir, sc, num, ids[k])
  {
    assert ids[..k + 1][..k] == ids[..k];
  }

  /** One round of the numbering loop. */
  method AssignOne(env: Env, dir: Directory, sc: Scan, num: Numbering, id: string) returns (next: Option<Numbering>)
    ensures next == AssignStep(env, dir, sc, num, id)
  {
    var paths, sequence, human, highest := num.paths, num.sequence, num.human, num.highest;
    if IsHuman(env, dir, sc, id) {
      paths := paths[id := env.source(id).value];
      human := human + {id};
    } else if id in sc.owned && sc.owned[id] in sc.regions {
      paths := paths[id := sc.owned[id]];
      sequence := sequence[id := sc.regions[sc.owned[id]].number];
    } else {
      if highest >= MAX_NUMBER {
        return None;
      }
      highest := highest + 1;
      var name := env.basename(id, highest);
      if name.None? {
        return None;
      }
      paths := paths[id := name.value];
      sequence := sequence[id := highest];
    }
    next := Some(Numbering(paths, sequence, human, highest));
  }

  method AssignNumbersTo(env: Env, dir: Directory, sc: Scan, ids: seq<string>) returns (num: Option<Numbering>)
    ensures num == AssignOf(env, dir, sc, ids)
  {
    num := Some(Numbering(map[], map[], {}, MaxOf(sc.numbers.Keys + sc.human)));
    for k := 0 to |ids|
      invariant num.Some? && AssignOf(env, dir, sc, ids[..k]) == num
    {
      AssignNext(env, dir, sc, ids, k, num.value);
      num := AssignOne(env, dir, sc, num.value, ids[k]);
      if num.None? {
        AssignRefuses(env, dir, sc, ids, k + 1);
        return;
      }
    }
    assert ids[..|ids|] == ids;
  }

  lemma {:induction false} AssignRefuses(env: Env, dir: Directory, sc: Scan, ids: seq<string>, k: nat)
    requires k <= |ids| && AssignOf(env, dir, sc, ids[..k]).None?
    ensures AssignOf(env, dir, sc, ids).None?
  {
    if k == |ids| {
      assert ids[..k] == ids;
    } else {
      assert ids[..|ids| - 1][..k] == ids[..k];
      AssignRefuses(env, dir, sc, ids[..|ids| - 1], k);
    }
  }

  lemma {:induction false} EmitRefuses(env: Env, dir: Directory, sc: Scan, items: seq<Item>, k: nat)
    requires k <= |items| && EmitAll(env, dir, sc, items[..k]).None?
    ensures EmitAll(env, dir, sc, items).None?
  {
    if k == |items| {
      assert items[..k] == items;
    } else {
      assert items[..|items| - 1][..k] == items[..k];
      EmitRefuses(env, dir, sc, items[..|items| - 1], k);
    }
  }

  method DesiredFiles(env: Env, sc: Scan, num: Numbering, ids: seq<string>) returns (items: seq<Item>)
    ensures items == Items(env, sc, num, ids)
  {
    items := [];
    for k := 0 to |ids|
      invariant items == RecordItems(env, num, ids[..k])
    {
      var id := ids[k];
      assert ids[..k + 1][..k] == ids[..k];
      if id !in num.human && id in num.paths && id in num.sequence {
        items := items + [Item(num.paths[id], id, num.sequence[id], env.render(id, num.paths))];
      }
    }
    assert ids[..|ids|] == ids;
    items := items + [IndexItem(env, sc, num)];
  }

  lemma {:induction false} EmitNext(env: Env, dir: Directory, sc: Scan, items: seq<Item>, k: nat, changes: seq<Change>)
    requires k < |items| && EmitAll(env, dir, sc, items[..k]) == Some(changes)
    ensures var change := Emit(env, dir, sc, PlannedKeys(env, items[..k]), items[k]);
      EmitAll(env, dir, sc, items[..k + 1]) == if change.None? then None else Some(changes + [change.value])
  {
    assert items[..k + 1][..k] == items[..k];
  }

  lemma {:induction false} PlannedNext(env: Env, items: seq<Item>, k: nat)
    requires k < |items|
    ensures PlannedKeys(env, items[..k + 1]) == PlannedKeys(env, items[..k]) + {env.casefold(items[k].name)}
  {
    assert items[..k + 1] == items[..k] + [items[k]];
  }

  method EmitChanges(env: Env, dir: Directory, sc: Scan, items: seq<Item>) returns (result: Option<seq<Change>>)
    ensures result == EmitAll(env, dir, sc, items)
  {
    var changes: seq<Change>, planned: set<string> := [], {};
    for k := 0 to |items|
      invariant EmitAll(env, dir, sc, items[..k]) == Some(changes)
      invariant planned == PlannedKeys(env, items[..k])
    {
      EmitNext(env, dir, sc, items, k, changes);
      PlannedNext(env, items, k);
      var change := Emit(env, dir, sc, planned, items[k]);
      if change.None? {
        EmitRefuses(env, dir, sc, items, k + 1);
        return None;
      }
      changes := changes + [change.value];
      planned := planned + {env.casefold(items[k].name)};
    }
    assert items[..|items|] == items;
    result := Some(changes);
  }

  method PlanExport(env: Env, dir: Directory, names: seq<string>, ids: seq<string>) returns (plan: Option<Plan>)
    requires Lists(names, dir)
    ensures plan == PlanOf(env, dir, names, ids)
  {
    var sc := ScanDirectory(env, dir, names);
    var num := AssignNumbersTo(env, dir, sc, ids);
    if num.None? {
      return None;
    }
    var items := DesiredFiles(env, sc, num.value, ids);
    var changes := EmitChanges(env, dir, sc, items);
    if changes.None? {
      return None;
    }
    var retained := set id | id in sc.owned && id != INDEX && id !in ids;
    plan := Some(Plan(sc.conflicts, num.value.human, changes.value, retained));
  }

  /* ---- applying a plan ---- */

  /** The target still is what the plan saw. */
  predicate Matches(files: Directory, c: Change) {
    if c.before.None? then c.path !in files
    else c.path in files && files[c.path] == Regular(c.before.value)
  }

  predicate AllMatch(files: Directory, changes: seq<Change>) {
    forall c :: c in changes && Writes(c) ==> Matches(files, c)
  }

  datatype Applied = Done | Conflicting | Changed(path: string)

  class Output {
    var files: Directory

    constructor (initial: Directory)
      ensures files == initial
    {
      files := initial;
    }

    /** `apply_plan`: nothing is written unless the plan has no conflict and no target changed. */
    method Apply(plan: Plan) returns (outcome: Applied)
      requires forall c :: c in plan.changes && Writes(c) ==> c.after.Some?
      modifies this
      ensures !plan.ConflictFree() ==> outcome == Conflicting && files == old(files)
      ensures plan.ConflictFree() && !AllMatch(old(files), plan.changes) ==>
        outcome.Changed? && files == old(files)
        && exists c :: c in plan.changes && Writes(c) && c.path == outcome.path && !Matches(files, c)
      ensures plan.ConflictFree() && AllMatch(old(files), plan.changes) && DistinctPaths(plan.changes) ==>
        outcome == Done
      ensures outcome == Done ==> files == ApplyChanges(old(files), plan.changes)
    {
      if !plan.ConflictFree() {
        return Conflicting;
      }
      for k := 0 to |plan.changes|
        invariant files == old(files) && AllMatch(files, plan.changes[..k])
      {
        var c := plan.changes[k];
        if Writes(c) && !Matches(files, c) {
          assert c in plan.changes;
          return Changed(c.path);
        }
      }
      assert plan.changes[..|plan.changes|] == plan.changes;
      for k := 0 to |plan.changes|
        invariant files == ApplyChanges(old(files), plan.changes[..k])
        invariant AllMatch(old(files), plan.changes)
      {
        var c := plan.changes[k];
        assert plan.changes[..k + 1][..k] == plan.changes[..k];
        if Writes(c) {
          if DistinctPaths(plan.changes) {
            AppliedElsewhere(old(files), plan.changes[..k], c.path);
            assert c in plan.changes;
          }
          if !Matches(files, c) {
            return Changed(c.path);
          }
          files := files[c.path := Regular(c.after.value)];
        }
      }
      outcome := Done;
    }
  }

  /** Applying a conflict-free plan to the directory it was made from cannot fail. */
  lemma PlanApplies(env: Env, dir: Directory, names: seq<string>, ids: seq<string>)
    requires HexHash(env.hash) && Lists(names, dir)
    requires forall i, j :: 0 <= i < j < |ids| ==> ids[i] != ids[j]
    requires forall id :: id in ids ==> ValidId(id) && id != INDEX
    requires PlanOf(env, dir, names, ids).Some? && PlanOf(env, dir, names, ids).value.ConflictFree()
    ensures var changes := PlanOf(env, dir, names, ids).value.changes;
      AllMatch(dir, changes) && DistinctPaths(changes) && forall c :: c in changes && Writes(c) ==> c.after.Some?
  {
    WritesOwnFilesOnly(env, dir, names, ids);
    PlannedNamesDiffer(env, dir, names, ids);
  }
}
