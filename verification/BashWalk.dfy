/** Following one shell line: its commands, the working directory, and the files it reads. */
module BashWalk {
  import opened Wrappers
  import opened BashTokens

  /* ---- commands ---- */

  datatype Command = Run(words: seq<string>) | Open | Close

  datatype Gathered = Gathered(commands: seq<Command>, current: seq<string>)
  {
    function Flushed(): seq<Command> {
      commands + if current == [] then [] else [Run(current)]
    }
  }

  function Gather(tokens: seq<Token>): Gathered {
    if tokens == [] then Gathered([], [])
    else
      var g := Gather(tokens[..|tokens| - 1]);
      match tokens[|tokens| - 1]
      case Word(text) => g.(current := g.current + [text])
      case Op(text) =>
        Gathered(g.Flushed() + (if text == "(" then [Open] else if text == ")" then [Close] else []), [])
  }

  function Commands(tokens: seq<Token>): seq<Command> {
    Gather(tokens).Flushed()
  }

  /* ---- the command word ---- */

  const KEYWORDS: set<string> := {"{", "do", "then", "else", "!", "if", "while", "until", "time"}
  const WRAPPERS: set<string> := {"timeout", "env", "sudo", "command", "nice", "nohup"}
  const SHELLS: set<string> := {"bash", "sh", "zsh"}
  const READERS: set<string> := {"cat", "sed", "grep", "rg"}

  predicate NameChar(c: char, first: bool) {
    'A' <= c <= 'Z' || 'a' <= c <= 'z' || c == '_' || (!first && '0' <= c <= '9')
  }

  predicate AssignmentFrom(w: string, first: bool) {
    w != "" && ((!first && w[0] == '=') || (NameChar(w[0], first) && AssignmentFrom(w[1..], false)))
  }

  /** Options of a wrapper that take the next argument. */
  function ValueOptions(wrapper: string): set<string> {
    if wrapper == "timeout" then {"-s", "-k", "--signal", "--kill-after"}
    else if wrapper == "env" then {"-u", "--unset", "-C", "--chdir"}
    else if wrapper == "sudo" then
      {"-u", "-g", "-C", "-h", "-p", "-r", "-t", "-U", "-D", "-R", "-T",
       "--user", "--group", "--host", "--prompt", "--role", "--type", "--chdir"}
    else if wrapper == "nice" then {"-n", "--adjustment"}
    else {}
  }

  predicate Dashed(w: string) {
    w != "" && w[0] == '-'
  }

  /** `a` is the end of `b`. */
  predicate Suffix(a: seq<string>, b: seq<string>) {
    |a| <= |b| && a == b[|b| - |a|..]
  }

  lemma SuffixSelf(a: seq<string>)
    ensures Suffix(a, a)
  {
  }

  lemma SuffixTail(a: seq<string>)
    requires a != []
    ensures Suffix(a[1..], a)
  {
  }

  lemma SuffixTransitive(a: seq<string>, b: seq<string>, c: seq<string>)
    requires Suffix(a, b) && Suffix(b, c)
    ensures Suffix(a, c)
  {
    assert b[|b| - |a|..] == c[|c| - |b|..][|b| - |a|..] == c[|c| - |a|..];
  }

  function Drop(words: seq<string>, n: nat): (r: seq<string>)
    ensures Suffix(r, words) && (n > 0 && words != [] ==> |r| < |words|)
  {
    if n <= |words| then words[n..] else []
  }

  /** The words after a wrapper's options, and its duration for `timeout`. */
  function SkipOptions(wrapper: string, words: seq<string>): (r: seq<string>)
    ensures |r| <= |words|
    decreases |words|
  {
    if words != [] && Dashed(words[0])
      then SkipOptions(wrapper, Drop(words, if words[0] in ValueOptions(wrapper) then 2 else 1))
    else if wrapper == "timeout" then Drop(words, 1) else words
  }

  datatype Env = Env(
    home: string, basename: string -> string, absolute: string -> bool, join: (string, string) -> string,
    normal: string -> string, resolve: (string, Option<string>) -> Option<string>)

  predicate Prefixed(env: Env, word: string) {
    AssignmentFrom(word, true) || word in KEYWORDS || env.basename(word) in WRAPPERS
  }

  lemma {:induction false} SkipIsSuffix(wrapper: string, words: seq<string>)
    ensures Suffix(SkipOptions(wrapper, words), words)
    decreases |words|
  {
    SuffixSelf(words);
    if words != [] && Dashed(words[0]) {
      var rest := Drop(words, if words[0] in ValueOptions(wrapper) then 2 else 1);
      SkipIsSuffix(wrapper, rest);
      SuffixTransitive(SkipOptions(wrapper, rest), rest, words);
    }
  }

  /** One prefix taken off. */
  function AfterPrefix(env: Env, words: seq<string>): (r: seq<string>)
    requires words != [] && Prefixed(env, words[0])
    ensures |r| < |words|
  {
    if AssignmentFrom(words[0], true) || words[0] in KEYWORDS then words[1..]
    else SkipOptions(env.basename(words[0]), words[1..])
  }

  /** `_command_words`. */
  function CommandWords(env: Env, words: seq<string>): (r: seq<string>)
    ensures |r| <= |words|
    ensures r != [] ==> !Prefixed(env, r[0])
    decreases |words|
  {
    if words == [] || !Prefixed(env, words[0]) then words else CommandWords(env, AfterPrefix(env, words))
  }

  lemma AfterPrefixSuffix(env: Env, words: seq<string>)
    requires words != [] && Prefixed(env, words[0])
    ensures Suffix(AfterPrefix(env, words), words)
  {
    SuffixTail(words);
    SkipIsSuffix(env.basename(words[0]), words[1..]);
    if !(AssignmentFrom(words[0], true) || words[0] in KEYWORDS) {
      SuffixTransitive(AfterPrefix(env, words), words[1..], words);
    }
  }

  /** What runs is the end of what was written, and finding it again changes nothing. */
  lemma {:induction false} CommandWordsSuffix(env: Env, words: seq<string>)
    ensures Suffix(CommandWords(env, words), words)
    ensures CommandWords(env, CommandWords(env, words)) == CommandWords(env, words)
    decreases |words|
  {
    if words != [] && Prefixed(env, words[0]) {
      var rest := AfterPrefix(env, words);
      AfterPrefixSuffix(env, words);
      CommandWordsSuffix(env, rest);
      SuffixTransitive(CommandWords(env, rest), rest, words);
    } else {
      SuffixSelf(words);
    }
  }

  /* ---- what a read command reads ---- */

  datatype Spec = Spec(
    takesPattern: bool, shortValue: set<char>, longValue: set<string>, shortPattern: set<char>,
    longPattern: set<string>, optionalAttached: set<char>, patternless: set<string>)

  const GREP_SHORT: set<char> := {'e', 'f', 'A', 'B', 'C', 'm', 'd', 'D'}
  const GREP_LONG: set<string> := {
    "regexp", "file", "max-count", "context", "after-context", "before-context", "include", "exclude", "exclude-dir",
    "exclude-from", "include-dir", "directories", "devices", "label", "binary-files", "group-separator"}
  const RG_SHORT: set<char> := {'A', 'B', 'C', 'e', 'E', 'f', 'g', 'j', 'm', 'M', 'r', 'T', 't', 'd'}
  const RG_LONG: set<string> := {
    "regexp", "file", "glob", "iglob", "type", "type-not", "type-add", "type-clear", "max-count", "max-depth",
    "maxdepth", "max-columns", "max-filesize", "context", "after-context", "before-context", "replace", "threads",
    "sort", "sortr", "encoding", "pre", "pre-glob", "path-separator", "color", "colors", "context-separator",
    "field-context-separator", "field-match-separator", "ignore-file", "engine", "dfa-size-limit", "regex-size-limit",
    "hyperlink-format"}

  function SpecOf(name: string): Spec {
    if name == "sed" then
      Spec(true, {'e', 'f', 'l'}, {"expression", "file", "line-length"}, {'e', 'f'}, {"expression", "file"}, {'i'}, {})
    else if name == "grep" then Spec(true, GREP_SHORT, GREP_LONG, {'e', 'f'}, {"regexp", "file"}, {}, {})
    else if name == "rg" then Spec(true, RG_SHORT, RG_LONG, {'e', 'f'}, {"regexp", "file"}, {}, {"files", "type-list"})
    else Spec(false, {}, {}, {}, {}, {}, {})
  }

  /** An option cluster: whether it states a pattern, and whether it takes the next argument. */
  function Cluster(spec: Spec, letters: string, next: Option<string>): (bool, bool) {
    if letters == "" then (false, false)
    else
      var letter, last := letters[0], |letters| == 1;
      if letter in spec.shortValue then (letter in spec.shortPattern, last)
      else if letter in spec.optionalAttached then (false, last && next == Some(""))
      else Cluster(spec, letters[1..], next)
  }

  /** The name before the first `=`, and whether there is one. */
  function BeforeEquals(s: string): (string, bool) {
    if s == "" then ("", false)
    else if s[0] == '=' then ("", true)
    else var (name, attached) := BeforeEquals(s[1..]); ([s[0]] + name, attached)
  }

  predicate Numeric(s: string) {
    s != "" && forall k :: 0 <= k < |s| ==> '0' <= s[k] <= '9'
  }

  datatype Scan = Scan(positionals: seq<string>, havePattern: bool)

  /** The arguments that are neither options nor their values, and whether an option gave the pattern. */
  function Arguments(spec: Spec, args: seq<string>, ended: bool): Scan
    decreases |args|
  {
    if args == [] then Scan([], false)
    else
      var arg, rest := args[0], args[1..];
      if ended || !Dashed(arg) || arg == "-" then
        var s := Arguments(spec, rest, ended);
        s.(positionals := [arg] + s.positionals)
      else if arg == "--" then Arguments(spec, rest, true)
      else if StartsAt(arg, 0, "--") then
        var (name, attached) := BeforeEquals(arg[2..]);
        var s := Arguments(spec, if name in spec.longValue && !attached then Drop(rest, 1) else rest, false);
        s.(havePattern := s.havePattern || name in spec.longPattern || name in spec.patternless)
      else if Numeric(arg[1..]) then Arguments(spec, rest, false)
      else
        var (pattern, takes) := Cluster(spec, arg[1..], if rest == [] then None else Some(rest[0]));
        var s := Arguments(spec, if takes then Drop(rest, 1) else rest, false);
        s.(havePattern := s.havePattern || pattern)
  }

  /** `_positionals`. */
  function Positionals(spec: Spec, args: seq<string>): seq<string> {
    var s := Arguments(spec, args, false);
    if spec.takesPattern && !s.havePattern && s.positionals != [] then s.positionals[1..] else s.positionals
  }

  /** After `--` everything is an operand. */
  lemma {:induction false} AfterDashes(spec: Spec, args: seq<string>)
    ensures Arguments(spec, args, true) == Scan(args, false)
  {
    if args != [] {
      AfterDashes(spec, args[1..]);
      assert args == [args[0]] + args[1..];
    }
  }

  lemma {:induction false} PlainArguments(spec: Spec, args: seq<string>, files: seq<string>)
    requires forall a :: a in args ==> !Dashed(a) || a == "-"
    ensures Arguments(spec, args + ["--"] + files, false) == Scan(args + files, false)
  {
    if args == [] {
      assert ["--"] + files == [] + ["--"] + files;
      assert (["--"] + files)[1..] == files;
      AfterDashes(spec, files);
      assert [] + files == files;
    } else {
      var all := args + ["--"] + files;
      assert all[1..] == args[1..] + ["--"] + files;
      PlainArguments(spec, args[1..], files);
      assert [args[0]] + (args[1..] + files) == args + files;
    }
  }

  /** `grep PATTERN -- FILES` reads exactly the files, whatever they are called. */
  lemma FilesAfterDashes(spec: Spec, pattern: string, files: seq<string>)
    requires spec.takesPattern && !Dashed(pattern)
    ensures Positionals(spec, [pattern, "--"] + files) == files
  {
    PlainArguments(spec, [pattern], files);
    assert [pattern] + ["--"] + files == [pattern, "--"] + files;
    assert ([pattern] + files)[1..] == files;
  }

  lemma {:induction false} NameBefore(name: string, value: string)
    requires '=' !in name
    ensures BeforeEquals(name + "=" + value) == (name, true)
  {
    var s := name + "=" + value;
    if name == "" {
      assert s[0] == '=';
    } else {
      assert name == [name[0]] + name[1..];
      assert name[0] != '=' && s[0] == name[0] && s[1..] == name[1..] + "=" + value;
      NameBefore(name[1..], value);
    }
  }

  /** A long option with an attached value, even an empty one, leaves the next argument alone. */
  lemma {:induction false} AttachedKeepsNext(spec: Spec, name: string, value: string, rest: seq<string>)
    requires '=' !in name
    ensures Arguments(spec, ["--" + name + "=" + value] + rest, false).positionals
      == Arguments(spec, rest, false).positionals
  {
    var arg := "--" + name + "=" + value;
    assert arg[2..] == name + "=" + value && arg[..2] == "--" && ([arg] + rest)[1..] == rest;
    assert Dashed(arg) && arg != "-" && arg != "--";
    NameBefore(name, value);
  }

  /* ---- the walk ---- */

  predicate Opaque(arg: string) {
    '$' in arg || '`' in arg || '\0' in arg
  }

  function FirstOperand(args: seq<string>): Option<string> {
    if args == [] then None
    else if args[0] != "--" && (args[0] == "-" || !Dashed(args[0])) then Some(args[0])
    else FirstOperand(args[1..])
  }

  /** `_change_directory`. */
  function ChangeDirectory(env: Env, cwd: Option<string>, args: seq<string>): Option<string> {
    match FirstOperand(args)
    case None => None
    case Some(target) =>
      if target == "-" || Opaque(target) || target == "~" then None
      else if StartsAt(target, 0, "~/") then Some(env.normal(env.join(env.home, target[2..])))
      else if StartsAt(target, 0, "~") then None
      else if env.absolute(target) then Some(env.normal(target))
      else if cwd.None? then None
      else Some(env.normal(env.join(cwd.value, target)))
  }

  predicate CommandFlag(arg: string) {
    |arg| >= 2 && arg[0] == '-' && 'c' in arg[1..] && forall k :: 1 <= k < |arg| ==>
      'A' <= arg[k] <= 'Z' || 'a' <= arg[k] <= 'z'
  }

  function ScriptOf(args: seq<string>): Option<string> {
    if |args| < 2 then None
    else if CommandFlag(args[0]) then Some(args[1])
    else ScriptOf(args[1..])
  }

  /** The files among the arguments that exist, added once each. */
  function AddFiles(env: Env, cwd: Option<string>, args: seq<string>, found: seq<string>): seq<string> {
    if args == [] then found
    else
      var before := AddFiles(env, cwd, args[..|args| - 1], found);
      var file := env.resolve(args[|args| - 1], cwd);
      if file.Some? && file.value !in before then before + [file.value] else before
  }

  datatype Place = Place(cwd: Option<string>, saved: seq<Option<string>>, found: seq<string>)

  function Perform(env: Env, nested: bool, p: Place, command: Command): Place
    decreases if nested then 0 else 1, 0, 0
  {
    match command
    case Open => p.(saved := p.saved + [p.cwd])
    case Close =>
      if p.saved == [] then p else p.(cwd := p.saved[|p.saved| - 1], saved := p.saved[..|p.saved| - 1])
    case Run(all) =>
      var words := CommandWords(env, all);
      if words == [] then p
      else
        var name, args := env.basename(words[0]), words[1..];
        if name == "cd" then p.(cwd := ChangeDirectory(env, p.cwd, args))
        else if name == "pushd" || name == "popd" then p.(cwd := None)
        else if name in SHELLS then
          var script := ScriptOf(args);
          if script.Some? && !nested then
            var inner := WalkLine(env, script.value, p.cwd, p.found, true);
            if inner.Some? then p.(found := inner.value) else p
          else p
        else if name in READERS then p.(found := AddFiles(env, p.cwd, Positionals(SpecOf(name), args), p.found))
        else p
  }

  function WalkCommands(env: Env, nested: bool, p: Place, commands: seq<Command>): Place
    decreases if nested then 0 else 1, 1, |commands|
  {
    if commands == [] then p
    else Perform(env, nested, WalkCommands(env, nested, p, commands[..|commands| - 1]), commands[|commands| - 1])
  }

  /** `_walk_line`: what is found afterwards; None for a line that cannot be read. */
  function WalkLine(env: Env, text: string, cwd: Option<string>, found: seq<string>, nested: bool): Option<seq<string>>
    decreases if nested then 0 else 1, 2, 0
  {
    match Tokens(text)
    case None => None
    case Some(tokens) => Some(WalkCommands(env, nested, Place(cwd, [], found), Commands(tokens)).found)
  }

  /* ---- what the walk keeps ---- */

  /** The nesting depth after the commands; None once a `)` closes nothing. */
  function Nesting(commands: seq<Command>): Option<nat> {
    if commands == [] then Some(0)
    else
      match Nesting(commands[..|commands| - 1])
      case None => None
      case Some(d) =>
        match commands[|commands| - 1]
        case Open => Some(d + 1)
        case Close => if d == 0 then None else Some(d - 1)
        case Run(_) => Some(d)
  }

  /** Directories saved before a stretch of commands stay below those it saves. */
  lemma {:induction false} SavedBelow(env: Env, nested: bool, p: Place, commands: seq<Command>)
    requires Nesting(commands).Some?
    ensures var after := WalkCommands(env, nested, p, commands).saved;
      |after| == |p.saved| + Nesting(commands).value && after[..|p.saved|] == p.saved
  {
    if commands != [] {
      var k := |commands| - 1;
      SavedBelow(env, nested, p, commands[..k]);
      SavedStep(env, nested, WalkCommands(env, nested, p, commands[..k]), commands[k], |p.saved|);
    }
  }

  lemma {:induction false} SavedStep(env: Env, nested: bool, p: Place, command: Command, low: nat)
    requires low <= |p.saved| && (command.Close? ==> low < |p.saved|)
    ensures var after := Perform(env, nested, p, command).saved;
      && |after| == |p.saved| + (match command { case Open => 1 case Close => -1 case Run(_) => 0 })
      && after[..low] == p.saved[..low]
  {
  }

  lemma {:induction false} WalkConcat(env: Env, nested: bool, p: Place, a: seq<Command>, b: seq<Command>)
    ensures WalkCommands(env, nested, p, a + b) == WalkCommands(env, nested, WalkCommands(env, nested, p, a), b)
  {
    if b == [] {
      assert a + b == a;
    } else {
      assert (a + b)[..|a + b| - 1] == a + b[..|b| - 1];
      WalkConcat(env, nested, p, a, b[..|b| - 1]);
    }
  }

  /** MAIN: a balanced group leaves the working directory and the saved ones as they were,
      whatever it runs. */
  lemma {:induction false} GroupIsolated(env: Env, nested: bool, p: Place, group: seq<Command>)
    requires Nesting(group) == Some(0)
    ensures var after := WalkCommands(env, nested, p, [Open] + group + [Close]);
      after.cwd == p.cwd && after.saved == p.saved
  {
    var entered := WalkCommands(env, nested, p, [Open]);
    assert [Open][..0] == [];
    assert WalkCommands(env, nested, p, [Open][..0]) == p;
    assert entered == Perform(env, nested, p, Open);
    assert entered == p.(saved := p.saved + [p.cwd]);
    WalkConcat(env, nested, p, [Open], group);
    SavedBelow(env, nested, entered, group);
    var inside := WalkCommands(env, nested, p, [Open] + group);
    assert inside.saved == p.saved + [p.cwd] by {
      assert inside.saved[..|entered.saved|] == inside.saved;
    }
    assert ([Open] + group + [Close])[..|group| + 1] == [Open] + group;
    assert (p.saved + [p.cwd])[..|p.saved|] == p.saved;
  }

  predicate Distinct(found: seq<string>) {
    forall i, j :: 0 <= i < j < |found| ==> found[i] != found[j]
  }

  ghost predicate Extends(before: seq<string>, after: seq<string>) {
    before <= after && (Distinct(before) ==> Distinct(after))
  }

  lemma {:induction false} AddExtends(env: Env, cwd: Option<string>, args: seq<string>, found: seq<string>)
    ensures Extends(found, AddFiles(env, cwd, args, found))
  {
    if args != [] {
      AddExtends(env, cwd, args[..|args| - 1], found);
    }
  }

  /** A walk only ever adds files, each at most once. */
  lemma {:induction false} WalkExtends(env: Env, nested: bool, p: Place, commands: seq<Command>)
    ensures Extends(p.found, WalkCommands(env, nested, p, commands).found)
    decreases if nested then 0 else 1, |commands|
  {
    if commands != [] {
      WalkExtends(env, nested, p, commands[..|commands| - 1]);
      var before := WalkCommands(env, nested, p, commands[..|commands| - 1]);
      PerformExtends(env, nested, before, commands[|commands| - 1]);
    }
  }

  lemma {:induction false} PerformExtends(env: Env, nested: bool, p: Place, command: Command)
    ensures Extends(p.found, Perform(env, nested, p, command).found)
    decreases if nested then 0 else 1, 0
  {
    if command.Run? && CommandWords(env, command.words) != [] {
      var words := CommandWords(env, command.words);
      var name, args := env.basename(words[0]), words[1..];
      if name in SHELLS && !nested && ScriptOf(args).Some? && Tokens(ScriptOf(args).value).Some? {
        WalkExtends(env, true, Place(p.cwd, [], p.found), Commands(Tokens(ScriptOf(args).value).value));
      } else if name in READERS {
        AddExtends(env, p.cwd, Positionals(SpecOf(name), args), p.found);
      }
    }
  }

  /* ---- the walk as the source runs it ---- */

  class Walk {
    const env: Env
    var found: seq<string>

    constructor (env: Env)
      ensures this.env == env && found == []
    {
      this.env := env;
      found := [];
    }

    method Gathering(tokens: seq<Token>) returns (commands: seq<Command>)
      ensures commands == Commands(tokens)
    {
      commands := [];
      var current: seq<string> := [];
      for k := 0 to |tokens|
        invariant Gathered(commands, current) == Gather(tokens[..k])
      {
        assert tokens[..k + 1][..k] == tokens[..k];
        if tokens[k].Word? {
          current := current + [tokens[k].text];
          continue;
        }
        if current != [] {
          commands := commands + [Run(current)];
          current := [];
        }
        if tokens[k].text == "(" {
          commands := commands + [Open];
        } else if tokens[k].text == ")" {
          commands := commands + [Close];
        }
      }
      assert tokens[..|tokens|] == tokens;
      if current != [] {
        commands := commands + [Run(current)];
      }
    }

    /** `_walk_line`; `readable` is false when tokenizing raised, and then nothing was found. */
    method Line(text: string, start: Option<string>, nested: bool) returns (readable: bool)
      modifies this
      ensures readable <==> WalkLine(env, text, start, old(found), nested).Some?
      ensures found == if readable then WalkLine(env, text, start, old(found), nested).value else old(found)
      decreases !nested
    {
      var tokens := Tokenize(text);
      if tokens.None? {
        return false;
      }
      var commands := Gathering(tokens.value);
      var cwd, saved: seq<Option<string>> := start, [];
      ghost var from := Place(start, [], found);
      for k := 0 to |commands|
        invariant Place(cwd, saved, found) == WalkCommands(env, nested, from, commands[..k])
      {
        assert commands[..k + 1][..k] == commands[..k];
        match commands[k]
        case Open =>
          saved := saved + [cwd];
        case Close =>
          if saved != [] {
            cwd, saved := saved[|saved| - 1], saved[..|saved| - 1];
          }
        case Run(all) =>
          var words := CommandWords(env, all);
          if words != [] {
            var name, args := env.basename(words[0]), words[1..];
            if name == "cd" {
              cwd := ChangeDirectory(env, cwd, args);
            } else if name == "pushd" || name == "popd" {
              cwd := None;
            } else if name in SHELLS {
              var script := ScriptOf(args);
              if script.Some? && !nested {
                var _ := Line(script.value, cwd, true);
              }
            } else if name in READERS {
              found := AddFiles(env, cwd, Positionals(SpecOf(name), args), found);
            }
          }
      }
      assert commands[..|commands|] == commands;
      readable := true;
    }
  }

  /** `read_paths`: each file once, in the order the line names them; none for an unreadable line. */
  method ReadPaths(env: Env, command: string, cwd: string, root: string) returns (files: seq<string>)
    ensures Distinct(files)
    ensures var start := if cwd == "" then root else cwd;
      files == match WalkLine(env, command, Some(start), [], false) { case None => [] case Some(found) => found }
  {
    var walk := new Walk(env);
    var start := if cwd == "" then root else cwd;
    var readable := walk.Line(command, Some(start), false);
    if readable {
      WalkExtends(env, false, Place(Some(start), [], []), Commands(Tokens(command).value));
    }
    files := walk.found;
  }
}
