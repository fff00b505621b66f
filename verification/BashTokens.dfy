/** Reading one shell line: groups, words, tokens; `None` is a line that ends inside a quote
    or a group. */
module BashTokens {
  import opened Wrappers

  predicate StartsAt(t: string, i: nat, p: string) {
    i + |p| <= |t| && t[i..i + |p|] == p
  }

  lemma FirstChar(t: string, i: nat, p: string)
    requires p != ""
    ensures StartsAt(t, i, p) ==> i < |t| && t[i] == p[0]
  {
    if StartsAt(t, i, p) {
      assert t[i..i + |p|][0] == t[i];
    }
  }

  predicate Break(c: char) {
    c in " \t\r\n;&|()<>"
  }

  function Rest(t: string, i: nat): nat {
    if i < |t| then |t| - i else 0
  }

  /* ---- groups ---- */

  /** The closing quote at or after `j`; a backslash escapes inside double quotes only. */
  function QuoteEnd(t: string, j: nat, quote: char): (r: Option<nat>)
    ensures r.Some? ==> j <= r.value < |t| && t[r.value] == quote
    decreases Rest(t, j)
  {
    if j >= |t| then None
    else if t[j] == quote then Some(j)
    else QuoteEnd(t, j + (if quote == '"' && t[j] == '\\' then 2 else 1), quote)
  }

  predicate Opens(close: char, c: char) {
    (close == ')' && c == '(') || (close == '}' && c == '{')
  }

  /** Just after the `close` that ends a group of this depth. */
  function GroupEnd(t: string, i: nat, close: char, depth: nat): (r: Option<nat>)
    requires depth >= 1
    ensures r.Some? ==> i < r.value <= |t| && t[r.value - 1] == close
    decreases Rest(t, i)
  {
    if i >= |t| then None
    else
      var c := t[i];
      if c == '\\' then GroupEnd(t, i + 2, close, depth)
      else if c == '\'' || c == '"' then
        match QuoteEnd(t, i + 1, c)
        case None => None
        case Some(j) => GroupEnd(t, j + 1, close, depth)
      else if Opens(close, c) then GroupEnd(t, i + 1, close, depth + 1)
      else if c == close then if depth == 1 then Some(i + 1) else GroupEnd(t, i + 1, close, depth - 1)
      else GroupEnd(t, i + 1, close, depth)
  }

  /** `_scan_group`. */
  method ScanGroup(t: string, start: nat, close: char) returns (r: Option<nat>)
    ensures r == GroupEnd(t, start, close, 1)
  {
    var i: nat, depth: nat := start, 1;
    while i < |t|
      invariant depth >= 1 && GroupEnd(t, i, close, depth) == GroupEnd(t, start, close, 1)
      decreases Rest(t, i)
    {
      var c := t[i];
      if c == '\\' {
        i := i + 2;
        continue;
      }
      if c == '\'' || c == '"' {
        var j := i + 1;
        while j < |t| && t[j] != c
          invariant i < j && QuoteEnd(t, j, c) == QuoteEnd(t, i + 1, c)
          decreases Rest(t, j)
        {
          j := j + if c == '"' && t[j] == '\\' then 2 else 1;
        }
        if j >= |t| {
          return None;
        }
        i := j + 1;
        continue;
      }
      if Opens(close, c) {
        depth := depth + 1;
      } else if c == close {
        depth := depth - 1;
        if depth == 0 {
          return Some(i + 1);
        }
      }
      i := i + 1;
    }
    r := None;
  }

  /* ---- words ---- */

  type Piece = Option<(string, nat)>

  function Prepend(p: string, rest: Piece): Piece {
    match rest
    case None => None
    case Some((s, end)) => Some((p + s, end))
  }

  predicate Substitutes(t: string, i: nat) {
    StartsAt(t, i, "$(") || StartsAt(t, i, "${")
  }

  /** A `$( … )`, `${ … }` or backtick group, kept verbatim. */
  function Verbatim(t: string, i: nat): (r: Piece)
    requires i < |t| && (Substitutes(t, i) || t[i] == '`')
    ensures r.Some? ==> i < r.value.1 <= |t|
  {
    var end := if t[i] == '`' then GroupEnd(t, i + 1, '`', 1)
               else GroupEnd(t, i + 2, if t[i + 1] == '(' then ')' else '}', 1);
    match end
    case None => None
    case Some(j) => Some((t[i..j], j))
  }

  function InSingle(t: string, i: nat): (r: Piece)
    ensures r.Some? ==> i < r.value.1 <= |t|
    decreases Rest(t, i)
  {
    if i >= |t| then None
    else if t[i] == '\'' then Some(("", i + 1))
    else Prepend([t[i]], InSingle(t, i + 1))
  }

  /** What a backslash and the next character give inside double quotes. */
  function DoubleEscape(next: char): string {
    if next == '\n' then "" else if next in "\"\\$`" then [next] else ['\\', next]
  }

  function InDouble(t: string, i: nat): (r: Piece)
    ensures r.Some? ==> i < r.value.1 <= |t|
    decreases Rest(t, i)
  {
    if i >= |t| then None
    else if t[i] == '"' then Some(("", i + 1))
    else if t[i] == '\\' && i + 1 < |t| then Prepend(DoubleEscape(t[i + 1]), InDouble(t, i + 2))
    else if Substitutes(t, i) || t[i] == '`' then
      match Verbatim(t, i)
      case None => None
      case Some((p, j)) => Prepend(p, InDouble(t, j))
    else Prepend([t[i]], InDouble(t, i + 1))
  }

  /** One piece of a word. */
  function ReadPiece(t: string, i: nat): (r: Piece)
    requires i < |t| && !Break(t[i])
    ensures r.Some? ==> i < r.value.1 <= |t|
  {
    var c := t[i];
    if c == '\\' then
      if StartsAt(t, i, "\\\n") then Some(("", i + 2))
      else if i + 1 < |t| then Some(([t[i + 1]], i + 2))
      else Some(("", i + 1))
    else if c == '\'' then InSingle(t, i + 1)
    else if c == '"' then InDouble(t, i + 1)
    else if Substitutes(t, i) || c == '`' then Verbatim(t, i)
    else Some(([c], i + 1))
  }

  /** The word at `i`: its text, and where it ends; a word moves past its first character. */
  function WordAt(t: string, i: nat): (r: Piece)
    requires i <= |t|
    ensures r.Some? ==> i <= r.value.1 <= |t| && (r.value.1 < |t| ==> Break(t[r.value.1]))
    ensures r.Some? && i < |t| && !Break(t[i]) ==> i < r.value.1
    decreases |t| - i
  {
    if i == |t| || Break(t[i]) then Some(("", i))
    else
      match ReadPiece(t, i)
      case None => None
      case Some((p, j)) => Prepend(p, WordAt(t, j))
  }

  lemma PrependTwice(a: string, b: string, rest: Piece)
    ensures Prepend(a, Prepend(b, rest)) == Prepend(a + b, rest)
  {
    if rest.Some? {
      assert a + (b + rest.value.0) == (a + b) + rest.value.0;
    }
  }

  lemma PrependNothing(rest: Piece)
    ensures Prepend("", rest) == rest
  {
    if rest.Some? {
      assert "" + rest.value.0 == rest.value.0;
    }
  }

  method NextPiece(t: string, i: nat) returns (piece: Piece)
    requires i < |t| && !Break(t[i])
    ensures piece == ReadPiece(t, i)
  {
    if t[i] == '"' {
      piece := ReadDouble(t, i + 1);
    } else {
      piece := ReadPiece(t, i);
    }
  }

  lemma {:induction false} WordNext(t: string, start: nat, i: nat, out: string, piece: Piece)
    requires start <= |t| && i < |t| && !Break(t[i]) && piece == ReadPiece(t, i)
      && Prepend(out, WordAt(t, i)) == WordAt(t, start)
    ensures piece.None? ==> WordAt(t, start).None?
    ensures piece.Some? ==> Prepend(out + piece.value.0, WordAt(t, piece.value.1)) == WordAt(t, start)
  {
    if piece.Some? {
      PrependTwice(out, piece.value.0, WordAt(t, piece.value.1));
    }
  }

  /** `_read_word`. */
  method ReadWord(t: string, start: nat) returns (r: Piece)
    requires start <= |t|
    ensures r == WordAt(t, start)
  {
    var out, i := "", start;
    PrependNothing(WordAt(t, start));
    while i < |t| && !Break(t[i])
      invariant start <= i <= |t| && Prepend(out, WordAt(t, i)) == WordAt(t, start)
      decreases |t| - i
    {
      var piece := NextPiece(t, i);
      WordNext(t, start, i, out, piece);
      if piece.None? {
        return None;
      }
      out := out + piece.value.0;
      i := piece.value.1;
    }
    assert out + "" == out;
    r := Some((out, i));
  }

  /** The inner loop of `_read_word` between double quotes. */
  method ReadDouble(t: string, start: nat) returns (r: Piece)
    ensures r == InDouble(t, start)
  {
    var out, i := "", start;
    PrependNothing(InDouble(t, start));
    while true
      invariant start <= i && Prepend(out, InDouble(t, i)) == InDouble(t, start)
      decreases Rest(t, i)
    {
      if i >= |t| {
        return None;
      }
      if t[i] == '"' {
        assert out + "" == out;
        return Some((out, i + 1));
      }
      var piece := if t[i] == '\\' && i + 1 < |t| then Some((DoubleEscape(t[i + 1]), i + 2))
                   else if Substitutes(t, i) || t[i] == '`' then Verbatim(t, i)
                   else Some(([t[i]], i + 1));
      if piece.None? {
        return None;
      }
      PrependTwice(out, piece.value.0, InDouble(t, piece.value.1));
      out := out + piece.value.0;
      i := piece.value.1;
    }
  }

  /* ---- tokens ---- */

  datatype Token = Word(text: string) | Op(text: string)

  datatype Expect = Nothing | Target | Delimiter

  datatype State = State(i: nat, tokens: seq<Token>, lastWordEnd: int, awaits: Expect, heredocs: seq<string>)

  function LineEnd(t: string, i: nat): (j: nat)
    requires i <= |t|
    ensures i <= j <= |t| && (j < |t| ==> t[j] == '\n')
    decreases |t| - i
  {
    if i == |t| || t[i] == '\n' then i else LineEnd(t, i + 1)
  }

  predicate Space(c: char) {
    c in " \t\n\r" || c == 11 as char || c == 12 as char
  }

  function StripLeft(s: string): string {
    if s != "" && Space(s[0]) then StripLeft(s[1..]) else s
  }

  function StripRight(s: string): string {
    if s != "" && Space(s[|s| - 1]) then StripRight(s[..|s| - 1]) else s
  }

  function Strip(s: string): string {
    StripRight(StripLeft(s))
  }

  /** Past the line that closes one heredoc, or the end. */
  function AfterBody(t: string, i: nat, delimiter: string): (j: nat)
    requires i <= |t|
    ensures i <= j <= |t|
    decreases |t| - i
  {
    if i == |t| then i
    else
      var end := LineEnd(t, i);
      var next := if end == |t| then |t| else end + 1;
      if Strip(t[i..end]) == delimiter then next else AfterBody(t, next, delimiter)
  }

  function AfterBodies(t: string, i: nat, delimiters: seq<string>): (j: nat)
    requires i <= |t|
    ensures i <= j <= |t|
    decreases |delimiters|
  {
    if delimiters == [] then i else AfterBodies(t, AfterBody(t, i, delimiters[0]), delimiters[1..])
  }

  function RedirectWidth(t: string, i: nat): (width: nat)
    requires i < |t| && (t[i] in "<>" || StartsAt(t, i, "&>"))
    ensures 1 <= width && i + width <= |t|
  {
    if t[i] == '&' then if StartsAt(t, i, "&>>") then 3 else 2
    else if StartsAt(t, i, "<<<") || StartsAt(t, i, "<<-") then 3
    else if i + 2 <= |t| && t[i..i + 2] in {"<<", ">>", ">&", "<&", ">|", "<>"} then 2
    else 1
  }

  predicate Digits(s: string) {
    s != "" && forall k :: 0 <= k < |s| ==> '0' <= s[k] <= '9'
  }

  function WithoutDescriptor(st: State): seq<Token> {
    var n := |st.tokens|;
    if n > 0 && st.tokens[n - 1].Word? && Digits(st.tokens[n - 1].text) && st.lastWordEnd == st.i
    then st.tokens[..n - 1] else st.tokens
  }

  function Operator(t: string, i: nat): (r: (string, nat))
    requires i < |t| && t[i] in ";&|()"
    ensures 1 <= r.1 && i + r.1 <= |t|
  {
    var two := if i + 2 <= |t| then t[i..i + 2] else [t[i]];
    if two == "&&" || two == "||" then (two, 2)
    else if two == "|&" then ("|", 2)
    else if two == ";;" then (";", 2)
    else ([t[i]], 1)
  }

  function Max(a: nat, b: nat): nat {
    if a >= b then a else b
  }

  /** One round of `_tokenize`; it moves on for every text. */
  function Step(t: string, st: State): (r: Option<State>)
    requires st.i < |t|
    ensures r.Some? ==> st.i < r.value.i <= |t|
  {
    var i, c := st.i, t[st.i];
    if c in " \t\r" then Some(st.(i := i + 1))
    else if StartsAt(t, i, "\\\n") then Some(st.(i := i + 2))
    else if c == '\n' then
      Some(State(AfterBodies(t, i + 1, st.heredocs), st.tokens + [Op("\n")], st.lastWordEnd, Nothing, []))
    else if c == '#' then HashStep(t, st)
    else if c in "<>" && StartsAt(t, i + 1, "(") then
      match GroupEnd(t, i + 2, ')', 1)
      case None => None
      case Some(j) =>
        if st.awaits.Nothing? then Some(st.(i := j, tokens := st.tokens + [Word(t[i..j])], lastWordEnd := j))
        else Some(st.(i := j, awaits := Nothing))
    else if c in "<>" || StartsAt(t, i, "&>") then
      Some(st.(
        i := i + RedirectWidth(t, i), tokens := WithoutDescriptor(st),
        awaits := if StartsAt(t, i, "<<") && !StartsAt(t, i, "<<<") then Delimiter else Target))
    else if c in ";&|()" then
      var (operator, width) := Operator(t, i);
      Some(st.(i := i + width, tokens := st.tokens + [Op(operator)], awaits := Nothing))
    else WordStep(t, st)
  }

  function HashStep(t: string, st: State): (r: Option<State>)
    requires st.i < |t| && t[st.i] == '#'
    ensures r.Some? ==> st.i < r.value.i <= |t|
  {
    Some(st.(i := LineEnd(t, st.i + 1)))
  }

  function WordStep(t: string, st: State): (r: Option<State>)
    requires st.i < |t| && !Break(t[st.i])
    ensures r.Some? ==> st.i < r.value.i <= |t|
  {
    match WordAt(t, st.i)
    case None => None
    case Some((word, end)) =>
      var moved := st.(i := Max(end, st.i + 1), awaits := Nothing);
      match st.awaits
      case Delimiter => Some(moved.(heredocs := st.heredocs + [word]))
      case Nothing => Some(moved.(tokens := st.tokens + [Word(word)], lastWordEnd := end))
      case Target => Some(moved)
  }

  const START := State(0, [], -1, Nothing, [])

  function TokensFrom(t: string, st: State): Option<seq<Token>>
    requires st.i <= |t|
    decreases |t| - st.i
  {
    if st.i == |t| then Some(st.tokens)
    else
      match Step(t, st)
      case None => None
      case Some(next) => TokensFrom(t, next)
  }

  function Tokens(t: string): Option<seq<Token>> {
    TokensFrom(t, START)
  }

  /** A quote or a group opens at `i` and the text ends before it closes. */
  predicate Unclosed(t: string, i: nat) {
    i < |t| &&
    if t[i] == '\'' then InSingle(t, i + 1).None?
    else if t[i] == '"' then InDouble(t, i + 1).None?
    else if Substitutes(t, i) || t[i] == '`' then Verbatim(t, i).None?
    else t[i] in "<>" && StartsAt(t, i + 1, "(") && GroupEnd(t, i + 2, ')', 1).None?
  }

  lemma {:induction false} SingleStaysOpen(t: string, i: nat)
    ensures InSingle(t, i).None? <==> forall k :: i <= k < |t| ==> t[k] != '\''
    decreases Rest(t, i)
  {
    if i < |t| && t[i] != '\'' { SingleStaysOpen(t, i + 1); }
  }

  lemma {:induction false} WordUnclosed(t: string, i: nat) returns (k: nat)
    requires i <= |t| && WordAt(t, i).None?
    ensures i <= k && Unclosed(t, k)
    decreases |t| - i
  {
    if ReadPiece(t, i).None? {
      k := i;
    } else {
      k := WordUnclosed(t, ReadPiece(t, i).value.1);
    }
  }

  lemma StepUnclosed(t: string, st: State) returns (k: nat)
    requires st.i < |t| && Step(t, st).None?
    ensures st.i <= k && Unclosed(t, k)
  {
    if t[st.i] in "<>" { k := st.i; } else { k := WordUnclosed(t, st.i); }
  }

  /** A line is unreadable only because a quote or a group in it never closes. */
  lemma {:induction false} UnreadableIsUnclosed(t: string, st: State) returns (k: nat)
    requires st.i <= |t| && TokensFrom(t, st).None?
    ensures st.i <= k && Unclosed(t, k)
    decreases |t| - st.i
  {
    if Step(t, st).None? {
      k := StepUnclosed(t, st);
    } else {
      k := UnreadableIsUnclosed(t, Step(t, st).value);
    }
  }

  /** `_tokenize`: terminates for every text, because every round moves on. */
  method Tokenize(t: string) returns (r: Option<seq<Token>>)
    ensures r == Tokens(t)
  {
    var i: nat, tokens: seq<Token>, lastWordEnd: int, awaits: Expect, heredocs: seq<string> := 0, [], -1, Nothing, [];
    while i < |t|
      invariant i <= |t| && TokensFrom(t, State(i, tokens, lastWordEnd, awaits, heredocs)) == Tokens(t)
      decreases |t| - i
    {
      var c := t[i];
      var st := State(i, tokens, lastWordEnd, awaits, heredocs);
      if c in " \t\r" {
        i := i + 1;
      } else if StartsAt(t, i, "\\\n") {
        i := i + 2;
      } else if c == '\n' {
        tokens, awaits := tokens + [Op("\n")], Nothing;
        i := SkipBodies(t, i + 1, heredocs);
        heredocs := [];
      } else if c == '#' {
        i := LineEnd(t, i + 1);
      } else if c in "<>" && StartsAt(t, i + 1, "(") {
        var end := ScanGroup(t, i + 2, ')');
        if end.None? {
          return None;
        }
        if awaits == Nothing {
          tokens, lastWordEnd := tokens + [Word(t[i..end.value])], end.value;
        }
        i, awaits := end.value, Nothing;
      } else if c in "<>" || StartsAt(t, i, "&>") {
        tokens := WithoutDescriptor(st);
        awaits := if StartsAt(t, i, "<<") && !StartsAt(t, i, "<<<") then Delimiter else Target;
        i := i + RedirectWidth(t, i);
      } else if c in ";&|()" {
        var (operator, width) := Operator(t, i);
        tokens, awaits, i := tokens + [Op(operator)], Nothing, i + width;
      } else {
        var word := ReadWord(t, i);
        if word.None? {
          return None;
        }
        if awaits == Delimiter {
          heredocs := heredocs + [word.value.0];
        } else if awaits == Nothing {
          tokens, lastWordEnd := tokens + [Word(word.value.0)], word.value.1;
        }
        i, awaits := Max(word.value.1, i + 1), Nothing;
      }
      assert Step(t, st) == Some(State(i, tokens, lastWordEnd, awaits, heredocs));
    }
    r := Some(tokens);
  }

  /** The lines of every pending heredoc. */
  method SkipBodies(t: string, start: nat, delimiters: seq<string>) returns (i: nat)
    requires start <= |t|
    ensures i == AfterBodies(t, start, delimiters)
  {
    i := start;
    for k := 0 to |delimiters|
      invariant i <= |t| && AfterBodies(t, i, delimiters[k..]) == AfterBodies(t, start, delimiters)
    {
      ghost var from := i;
      assert delimiters[k..][1..] == delimiters[k + 1..];
      var closed := false;
      while i < |t| && !closed
        invariant i <= |t|
        invariant AfterBody(t, from, delimiters[k]) == if closed then i else AfterBody(t, i, delimiters[k])
        decreases |t| - i, !closed
      {
        var end := LineEnd(t, i);
        closed := Strip(t[i..end]) == delimiters[k];
        i := if end == |t| then |t| else end + 1;
      }
    }
  }

  /* ---- quoting ---- */

  /** How one character is written inside single quotes. */
  function Head(c: char): string {
    if c == '\'' then "'\\''" else [c]
  }

  /** What follows the opening quote: a quote in the word closes, is escaped, and reopens
      (section 2.2.2 of the POSIX Shell Command Language keeps every other character). */
  function Inside(w: string): string {
    if w == "" then "'"
    else Head(w[0]) + Inside(w[1..])
  }

  function Quoted(w: string): string {
    "'" + Inside(w)
  }

  function Line(words: seq<string>): string {
    if words == [] then ""
    else if |words| == 1 then Quoted(words[0])
    else Quoted(words[0]) + " " + Line(words[1..])
  }

  /** From inside the quotes: the rest of the quoted text and of the word. */
  function FromInside(t: string, i: nat): Piece {
    match InSingle(t, i)
    case None => None
    case Some((p, j)) => Prepend(p, WordAt(t, j))
  }

  lemma PlainInside(t: string, i: nat, rest: string, end: nat)
    requires i < |t| && t[i] != '\'' && FromInside(t, i + 1) == Some((rest, end))
    ensures FromInside(t, i) == Some(([t[i]] + rest, end))
  {
    var (p, j) := InSingle(t, i + 1).value;
    assert InSingle(t, i) == Some(([t[i]] + p, j));
    PrependTwice([t[i]], p, WordAt(t, j));
  }

  lemma EscapedInside(t: string, i: nat, rest: string, end: nat)
    requires i + 4 <= |t| && t[i] == '\'' && t[i + 1] == '\\' && t[i + 2] == '\'' && t[i + 3] == '\''
    requires FromInside(t, i + 4) == Some((rest, end))
    ensures FromInside(t, i) == Some((['\''] + rest, end))
  {
    assert InSingle(t, i) == Some(("", i + 1));
    assert t[i + 1..i + 3][1] == '\'';
    assert ReadPiece(t, i + 1) == Some((['\''], i + 3));
    assert WordAt(t, i + 3) == FromInside(t, i + 4);
    PrependNothing(WordAt(t, i + 1));
  }

  /** A stretch of the text, character by character. */
  lemma Stretch(t: string, i: nat, head: string, rest: string)
    requires StartsAt(t, i, head + rest)
    ensures i + |head| + |rest| <= |t| && StartsAt(t, i + |head|, rest)
    ensures forall k :: 0 <= k < |head| ==> t[i + k] == head[k]
  {
    var whole := t[i..i + |head + rest|];
    forall k | 0 <= k < |head| ensures t[i + k] == head[k] {
      assert t[i + k] == whole[k];
    }
    assert t[i + |head|..i + |head| + |rest|] == whole[|head|..];
  }

  lemma EmptyInside(t: string, i: nat)
    requires i < |t| && t[i] == '\'' && (i + 1 < |t| ==> Break(t[i + 1]))
    ensures FromInside(t, i) == Some(("", i + 1))
  {
    assert InSingle(t, i) == Some(("", i + 1)) && WordAt(t, i + 1) == Some(("", i + 1));
    PrependNothing(WordAt(t, i + 1));
  }

  lemma QuoteInside(t: string, i: nat, rest: string, end: nat)
    requires i + 4 <= |t| && (forall k :: 0 <= k < 4 ==> t[i + k] == Head('\'')[k])
    requires FromInside(t, i + 4) == Some((rest, end))
    ensures FromInside(t, i) == Some((['\''] + rest, end))
  {
    var head := Head('\'');
    assert head[0] == '\'' && head[1] == '\\' && head[2] == '\'' && head[3] == '\'';
    assert t[i + 0] == head[0] && t[i + 1] == head[1] && t[i + 2] == head[2] && t[i + 3] == head[3];
    EscapedInside(t, i, rest, end);
  }

  lemma HeadInside(t: string, i: nat, c: char, rest: string, end: nat)
    requires i + |Head(c)| <= |t| && (forall k :: 0 <= k < |Head(c)| ==> t[i + k] == Head(c)[k])
    requires FromInside(t, i + |Head(c)|) == Some((rest, end))
    ensures FromInside(t, i) == Some(([c] + rest, end))
  {
    if c == '\'' {
      QuoteInside(t, i, rest, end);
    } else {
      assert t[i + 0] == Head(c)[0];
      PlainInside(t, i, rest, end);
    }
  }

  lemma {:induction false} InsideParts(t: string, i: nat, w: string)
    requires w != "" && StartsAt(t, i, Inside(w))
    ensures |Inside(w)| == |Head(w[0])| + |Inside(w[1..])|
    ensures i + |Head(w[0])| <= |t| && StartsAt(t, i + |Head(w[0])|, Inside(w[1..]))
    ensures forall k :: 0 <= k < |Head(w[0])| ==> t[i + k] == Head(w[0])[k]
  {
    Stretch(t, i, Head(w[0]), Inside(w[1..]));
  }

  lemma {:induction false} InsideReads(t: string, i: nat, w: string, end: nat)
    requires StartsAt(t, i, Inside(w)) && end == i + |Inside(w)|
    requires end < |t| ==> Break(t[end])
    ensures FromInside(t, i) == Some((w, end))
    decreases |w|
  {
    if w == "" {
      Stretch(t, i, "'", "");
      EmptyInside(t, i);
    } else {
      InsideParts(t, i, w);
      var c, rest := w[0], w[1..];
      InsideReads(t, i + |Head(c)|, rest, end);
      HeadInside(t, i, c, rest, end);
      assert w == [c] + rest;
    }
  }

  lemma {:induction false} QuotedReads(t: string, i: nat, w: string)
    requires StartsAt(t, i, Quoted(w))
    requires i + |Quoted(w)| < |t| ==> Break(t[i + |Quoted(w)|])
    ensures WordAt(t, i) == Some((w, i + |Quoted(w)|))
  {
    assert t[i..i + |Quoted(w)|] == Quoted(w);
    assert t[i] == Quoted(w)[0];
    assert t[i + 1..i + |Quoted(w)|] == Inside(w);
    InsideReads(t, i + 1, w, i + |Quoted(w)|);
  }

  function AsWords(words: seq<string>): seq<Token> {
    seq(|words|, k requires 0 <= k < |words| => Word(words[k]))
  }

  lemma LineStep(t: string, st: State, w: string)
    requires StartsAt(t, st.i, Quoted(w)) && st.awaits.Nothing?
    requires st.i + |Quoted(w)| < |t| ==> Break(t[st.i + |Quoted(w)|])
    ensures var end := st.i + |Quoted(w)|;
      Step(t, st) == Some(st.(i := end, tokens := st.tokens + [Word(w)], lastWordEnd := end))
  {
    QuotedReads(t, st.i, w);
    assert t[st.i] == t[st.i..st.i + |Quoted(w)|][0] == '\'';
    FirstChar(t, st.i, "\\\n");
    FirstChar(t, st.i, "&>");
  }

  lemma {:induction false} LineReads(t: string, st: State, words: seq<string>)
    requires st.i <= |t| && t[st.i..] == Line(words) && st.awaits.Nothing?
    ensures TokensFrom(t, st) == Some(st.tokens + AsWords(words))
    decreases |words|
  {
    if words == [] {
      assert st.tokens + AsWords(words) == st.tokens;
    } else {
      var q := Quoted(words[0]);
      assert t[st.i..][..|q|] == q;
      LineStep(t, st, words[0]);
      var next := Step(t, st).value;
      if |words| == 1 {
        assert next.i == |t|;
        assert AsWords(words) == [Word(words[0])];
      } else {
        assert t[st.i..][|q|] == ' ';
        var after := Step(t, next).value;
        assert t[after.i..] == t[st.i..][|q| + 1..] == Line(words[1..]);
        LineReads(t, after, words[1..]);
        assert st.tokens + AsWords(words) == (st.tokens + [Word(words[0])]) + AsWords(words[1..]);
      }
    }
  }

  /** MAIN: quoting any words and tokenizing the line gives back exactly those words. */
  lemma {:induction false} QuotingRoundTrip(words: seq<string>)
    ensures Tokens(Line(words)) == Some(AsWords(words))
  {
    LineReads(Line(words), START, words);
    assert START.tokens + AsWords(words) == AsWords(words);
  }
}
