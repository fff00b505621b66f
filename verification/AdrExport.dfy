/**
  Planning an ADR export over a flat directory, and applying the plan.

  The directory is a map from Markdown file names to their text; `Special` is an
  entry that is not a regular file.  Rendering, case folding, the file-name template,
  the number of a human file and the local source of a record are parameters.
 */
module AdrExport {
  import opened Wrappers
  import opened AdrIdentity
  import opened AdrFiles
  import opened Bounds

  datatype Entry = Regular(text: string) | Special

  type Directory = map<string, Entry>
  type Paths = map<string, string>

  datatype Env = Env(
    hash: Hash,
    casefold: string -> string,
    basename: (string, nat) -> Option<string>,
    humanNumber: string -> Option<nat>,
    source: string -> Option<string>,
    render: (string, Paths) -> string,
    renderIndex: Paths -> string)

  datatype Action = Add | Update | Unchanged | HumanSource | Conflict | Retained

  datatype Change = Change(path: string, id: string, action: Action, before: Option<string>, after: Option<string>)

  /* ---- scanning the directory ---- */

  datatype Scan = Scan(
    folded: map<string, string>, regions: map<string, Region>, owned: map<string, string>,
    numbers: map<nat, string>, human: set<nat>, conflicts: set<string>)

  const EMPTY_SCAN := Scan(map[], map[], map[], map[], {}, {})

  type Reading = Result<Option<Region>, Refusal>

  function ParseEntry(env: Env, e: Entry): Reading {
    if e.Special? then Err(MissingRegion) else Parse(env.hash, e.text)
  }

  /** What reading every file of the directory gives. */
  function Readings(env: Env, dir: Directory): map<string, Reading> {
    map n | n in dir :: ParseEntry(env, dir[n])
  }

  /** One name of the loop over `out.iterdir()`, and how its file reads. */
  function ScanWith(env: Env, sc: Scan, name: string, reading: Reading): Scan {
    var key := env.casefold(name);
    var clash := if key in sc.folded then {name} else {};
    var seen := sc.(folded := sc.folded[key := name], conflicts := sc.conflicts + clash);
    match reading
    case Err(_) => seen.(conflicts := seen.conflicts + {name})
    case Ok(None) =>
      var n := env.humanNumber(name);
      if n.Some? then seen.(human := seen.human + {n.value}) else seen
    case Ok(Some(r)) =>
      var claimed := seen.(regions := seen.regions[name := r]);
      if r.id in sc.owned || r.number in sc.numbers then claimed.(conflicts := claimed.conflicts + {name})
      else claimed.(owned := claimed.owned[r.id := name], numbers := claimed.numbers[r.number := name])
  }

  function ScanStep(env: Env, read: map<string, Reading>, sc: Scan, name: string): Scan
    requires name in read
  {
    ScanWith(env, sc, name, read[name])
  }

  function ScanOf(env: Env, read: map<string, Reading>, names: seq<string>): Scan
    requires forall n :: n in names ==> n in read
  {
    if names == [] then EMPTY_SCAN
    else ScanStep(env, read, ScanOf(env, read, names[..|names| - 1]), names[|names| - 1])
  }

  ghost predicate Lists(names: seq<string>, dir: Directory) {
    && (forall n :: n in names <==> n in dir)
    && forall i, j :: 0 <= i < j < |names| ==> names[i] != names[j]
  }

  /* ---- numbering ---- */

  datatype Numbering = Numbering(paths: Paths, sequence: map<string, nat>, human: set<string>, highest: nat)

  predicate IsHuman(env: Env, dir: Directory, sc: Scan, id: string) {
    && env.source(id).Some?
    && env.source(id).value in dir && dir[env.source(id).value].Regular? && env.source(id).value !in sc.regions
  }

  /** One record of the numbering loop; None when the export is refused as a whole. */
  function AssignStep(env: Env, dir: Directory, sc: Scan, num: Numbering, id: string): Option<Numbering> {
    if IsHuman(env, dir, sc, id) then
      Some(num.(paths := num.paths[id := env.source(id).value], human := num.human + {id}))
    else if id in sc.owned && sc.owned[id] in sc.regions then
      Some(num.(paths := num.paths[id := sc.owned[id]],
        sequence := num.sequence[id := sc.regions[sc.owned[id]].number]))
    else if num.highest >= MAX_NUMBER then None
    else
      var n := num.highest + 1;
      match env.basename(id, n)
      case None => None
      case Some(name) =>
        Some(num.(paths := num.paths[id := name], sequence := num.sequence[id := n], highest := n))
  }

  function AssignOf(env: Env, dir: Directory, sc: Scan, ids: seq<string>): Option<Numbering> {
    if ids == [] then Some(Numbering(map[], map[], {}, MaxOf(sc.numbers.Keys + sc.human)))
    else
      match AssignOf(env, dir, sc, ids[..|ids| - 1])
      case None => None
      case Some(num) => AssignStep(env, dir, sc, num, ids[|ids| - 1])
  }

  /* ---- the desired files ---- */

  datatype Item = Item(name: string, id: string, number: nat, text: string)

  /** The generated records in export order, without the human ones. */
  function RecordItems(env: Env, num: Numbering, ids: seq<string>): seq<Item> {
    if ids == [] then []
    else
      var id := ids[|ids| - 1];
      RecordItems(env, num, ids[..|ids| - 1]) +
      if id !in num.human && id in num.paths && id in num.sequence
      then [Item(num.paths[id], id, num.sequence[id], env.render(id, num.paths))] else []
  }

  function IndexItem(env: Env, sc: Scan, num: Numbering): Item {
    Item(if INDEX in sc.owned then sc.owned[INDEX] else "index.md", INDEX, 0, env.renderIndex(num.paths))
  }

  function Items(env: Env, sc: Scan, num: Numbering, ids: seq<string>): seq<Item> {
    RecordItems(env, num, ids) + [IndexItem(env, sc, num)]
  }

  function Printed(env: Env, item: Item, before: Option<Region>): string {
    Wrap(env.hash, item.id, item.number, Escape(item.text, true), before)
  }

  /** What the export does with one desired file; None when it is refused as a whole. */
  function Emit(env: Env, dir: Directory, sc: Scan, planned: set<string>, item: Item): Option<Change> {
    var key := env.casefold(item.name);
    if key in planned then Some(Change(item.name, item.id, Conflict, None, None))
    else
      var other := if key in sc.folded then Some(sc.folded[key]) else None;
      var before := if other.Some? && other.value in dir && dir[other.value].Regular? then Some(dir[other.value].text)
        else None;
      var held := if other.Some? && other.value in sc.regions then Some(sc.regions[other.value]) else None;
      if other.Some? && (held.None? || held.value.id != item.id) then
        Some(Change(item.name, item.id, Conflict, before, None))
      else
        var name := if other.Some? then other.value else item.name;
        var after := Printed(env, item, held);
        Decide(name, item, before, held, after, Parse(env.hash, after))
  }

  /** The change to a file that may be written, from how the printed text reads back. */
  function Decide(name: string, item: Item, before: Option<string>, held: Option<Region>, after: string,
      planned: Reading): Option<Change> {
    match planned
    case Err(_) => None
    case Ok(None) => None
    case Ok(Some(region)) =>
      if held.Some? && held.value.body == region.body
      then Some(Change(name, item.id, Unchanged, before, before))
      else Some(Change(name, item.id, if before.None? then Add else Update, before, Some(after)))
  }

  function EmitAll(env: Env, dir: Directory, sc: Scan, items: seq<Item>): Option<seq<Change>> {
    if items == [] then Some([])
    else
      var front, item := items[..|items| - 1], items[|items| - 1];
      match EmitAll(env, dir, sc, front)
      case None => None
      case Some(changes) =>
        match Emit(env, dir, sc, PlannedKeys(env, front), item)
        case None => None
        case Some(change) => Some(changes + [change])
  }

  function PlannedKeys(env: Env, items: seq<Item>): set<string> {
    set i | i in items :: env.casefold(i.name)
  }

  datatype Plan = Plan(scanConflicts: set<string>, human: set<string>, changes: seq<Change>, retained: set<string>)
  {
    predicate ConflictFree() {
      scanConflicts == {} && forall c :: c in changes ==> c.action != Conflict
    }
  }

  /** `plan_export`; None when it raises. */
  function PlanOf(env: Env, dir: Directory, names: seq<string>, ids: seq<string>): Option<Plan>
    requires Lists(names, dir)
  {
    var sc := ScanOf(env, Readings(env, dir), names);
    match AssignOf(env, dir, sc, ids)
    case None => None
    case Some(num) =>
      match EmitAll(env, dir, sc, Items(env, sc, num, ids))
      case None => None
      case Some(changes) =>
        Some(Plan(sc.conflicts, num.human, changes, set id | id in sc.owned && id != INDEX && id !in ids))
  }

  /** `apply_plan`, when no target changed since the plan. */
  function ApplyChanges(dir: Directory, changes: seq<Change>): Directory {
    if changes == [] then dir
    else
      var c := changes[|changes| - 1];
      var rest := ApplyChanges(dir, changes[..|changes| - 1]);
      if (c.action == Add || c.action == Update) && c.after.Some? then rest[c.path := Regular(c.after.value)] else rest
  }
}
