/**
  Reserved marker lines and the text operations around them.

  A file is modelled as its decoded text; the byte-order mark is the character
  U+FEFF.  Case folding is ASCII.
 */
module AdrIdentity {
  const MARKER_PREFIX := "<!-- sidegraph-adr:"
  const END_PREFIX := "<!-- /sidegraph-adr"
  const END_MARKER := "<!-- /sidegraph-adr -->"
  const BOM: char := '\U{FEFF}'

  function Fold(c: char): char {
    if 'A' <= c <= 'Z' then (c as int + 32) as char else c
  }

  /** `text` starts with `pat`, ignoring case. */
  predicate StartsFolded(pat: string, text: string) {
    pat == "" || (text != "" && Fold(text[0]) == Fold(pat[0]) && StartsFolded(pat[1..], text[1..]))
  }

  predicate ReservedAt(text: string) {
    StartsFolded(MARKER_PREFIX, text) || StartsFolded(END_PREFIX, text)
  }

  /** `reserved_lines`: a reserved prefix at the start of some line; `bol` says whether
      `text` itself starts a line. */
  predicate HasReserved(text: string, bol: bool) {
    text != "" && ((bol && ReservedAt(text)) || HasReserved(text[1..], text[0] == '\n'))
  }

  /** `escape_markers`: the `<` of every reserved line start becomes `&lt;`. */
  function Escape(text: string, bol: bool): string {
    if text == "" then ""
    else (if bol && ReservedAt(text) then "&lt;" else [text[0]]) + Escape(text[1..], text[0] == '\n')
  }

  predicate Inline(pat: string) {
    forall i :: 0 <= i < |pat| ==> pat[i] != '\n' && pat[i] != '\r'
  }

  lemma {:induction false} EscapeMatches(pat: string, text: string)
    requires Inline(pat) && StartsFolded(pat, Escape(text, false))
    ensures StartsFolded(pat, text)
  {
    if pat != "" {
      assert text != "";
      var rest := Escape(text[1..], text[0] == '\n');
      assert Escape(text, false) == [text[0]] + rest;
      assert text[0] != '\n';
      assert ([text[0]] + rest)[1..] == rest;
      EscapeMatches(pat[1..], text[1..]);
    }
  }

  lemma MarkersInline()
    ensures Inline(MARKER_PREFIX) && Inline(END_PREFIX) && Inline(END_MARKER)
  {
  }

  lemma {:induction false} EscapedNotReserved(text: string)
    ensures !ReservedAt(Escape(text, true))
  {
    if text != "" {
      var rest := Escape(text[1..], text[0] == '\n');
      if ReservedAt(text) {
        assert Escape(text, true) == "&lt;" + rest;
        assert Escape(text, true)[0] == '&';
      } else {
        assert Escape(text, true) == [text[0]] + rest == Escape(text, false);
        MarkersInline();
        if StartsFolded(MARKER_PREFIX, Escape(text, false)) { EscapeMatches(MARKER_PREFIX, text); }
        if StartsFolded(END_PREFIX, Escape(text, false)) { EscapeMatches(END_PREFIX, text); }
      }
    }
  }

  lemma {:induction false} NoReservedInPrefix(a: string, b: string, bol: bool)
    requires Inline(a) && !bol
    ensures HasReserved(a + b, bol) == HasReserved(b, bol && a == "")
  {
    if a != "" {
      assert (a + b)[1..] == a[1..] + b;
      NoReservedInPrefix(a[1..], b, false);
    } else {
      assert a + b == b;
    }
  }

  /** Escaping leaves no reserved line. */
  lemma {:induction false} EscapeLeavesNone(text: string, bol: bool)
    ensures !HasReserved(Escape(text, bol), bol)
  {
    if text != "" {
      var rest := Escape(text[1..], text[0] == '\n');
      EscapeLeavesNone(text[1..], text[0] == '\n');
      if bol { EscapedNotReserved(text); }
      if bol && ReservedAt(text) {
        assert Fold(text[0]) == Fold('<');
        var t := Escape(text, bol);
        assert t == ['&'] + ("lt;" + rest);
        assert t[1..] == "lt;" + rest;
        NoReservedInPrefix("lt;", rest, false);
      } else {
        assert Escape(text, bol) == [text[0]] + rest;
        assert ([text[0]] + rest)[1..] == rest;
      }
    }
  }

  /** Escaping changes nothing exactly when there is no reserved line. */
  lemma {:induction false} EscapeIdentity(text: string, bol: bool)
    ensures Escape(text, bol) == text <==> !HasReserved(text, bol)
  {
    if text != "" {
      EscapeIdentity(text[1..], text[0] == '\n');
      var rest := Escape(text[1..], text[0] == '\n');
      assert text == [text[0]] + text[1..];
      if bol && ReservedAt(text) {
        assert Fold(text[0]) == Fold('<');
        assert ("&lt;" + rest)[0] == '&';
        assert text[0] != '&';
      } else {
        assert Escape(text, bol)[1..] == rest;
      }
    }
  }

  /* ---- generated projections ---- */

  /** The line boundaries of `str.splitlines`. */
  predicate Boundary(c: char) {
    '\n' <= c <= '\r' || c in {'\U{1C}', '\U{1D}', '\U{1E}', '\U{85}', '\U{2028}', '\U{2029}'}
  }

  /** `str.splitlines`, with `cur` the part of the current line already read. */
  function LinesFrom(text: string, cur: string): seq<string> {
    if text == "" then if cur == "" then [] else [cur]
    else if text[0] == '\r' && |text| > 1 && text[1] == '\n' then [cur] + LinesFrom(text[2..], "")
    else if Boundary(text[0]) then [cur] + LinesFrom(text[1..], "")
    else LinesFrom(text[1..], cur + [text[0]])
  }

  function Run(c: char, line: string): (n: nat)
    ensures n <= |line|
  {
    if line == "" || line[0] != c then 0 else 1 + Run(c, line[1..])
  }

  predicate Blank(line: string) {
    forall i :: 0 <= i < |line| ==> line[i] == ' ' || line[i] == '\t' || Boundary(line[i])
  }

  /** An opening or closing code fence: up to three spaces, then three or more backticks or tildes. */
  datatype Fence = NoFence | Fence(c: char, length: nat, bare: bool)

  function FenceOf(line: string): Fence {
    var pad := Run(' ', line);
    if pad > 3 then NoFence
    else
      var rest := line[pad..];
      var ticks, tildes := Run('`', rest), Run('~', rest);
      if ticks >= 3 then Fence('`', ticks, Blank(rest[ticks..]))
      else if tildes >= 3 then Fence('~', tildes, Blank(rest[tildes..]))
      else NoFence
  }

  /** A reserved claim on a line outside code fences. */
  predicate Claims(lines: seq<string>, open: Fence) {
    lines != [] &&
    var f := FenceOf(lines[0]);
    if f.Fence? then
      var next :=
        if open.NoFence? then f
        else if f.c == open.c && f.length >= open.length && f.bare then NoFence
        else open;
      Claims(lines[1..], next)
    else (open.NoFence? && StartsFolded(MARKER_PREFIX, lines[0])) || Claims(lines[1..], open)
  }

  function StripBom(text: string): string {
    if text != "" && text[0] == BOM then text[1..] else text
  }

  /** `generated_projection`. */
  predicate GeneratedProjection(text: string) {
    Claims(LinesFrom(StripBom(text), ""), NoFence)
  }

  lemma {:induction false} FinalNewlineClaims(text: string, cur: string, open: Fence)
    ensures Claims(LinesFrom(text + "\n", cur), open) == Claims(LinesFrom(text, cur), open)
    decreases |text|, 0
  {
    var more := text + "\n";
    if text == "" {
      assert more[1..] == "";
      assert LinesFrom("\n", cur) == [cur];
      assert [cur][1..] == [];
    } else if text[0] == '\r' && |text| > 1 && text[1] == '\n' {
      assert more[2..] == text[2..] + "\n";
      ClaimsStep(cur, LinesFrom(text[2..], ""), LinesFrom(more[2..], ""), open, text[2..]);
    } else if text == "\r" {
      assert more[2..] == "" && text[1..] == "";
    } else if Boundary(text[0]) {
      assert more[1..] == text[1..] + "\n";
      ClaimsStep(cur, LinesFrom(text[1..], ""), LinesFrom(more[1..], ""), open, text[1..]);
    } else {
      assert more[1..] == text[1..] + "\n";
      FinalNewlineClaims(text[1..], cur + [text[0]], open);
    }
  }

  lemma {:induction false} ClaimsStep(line: string, a: seq<string>, b: seq<string>, open: Fence, rest: string)
    requires a == LinesFrom(rest, "") && b == LinesFrom(rest + "\n", "")
    ensures Claims([line] + b, open) == Claims([line] + a, open)
    decreases |rest|, 1
  {
    assert ([line] + a)[1..] == a && ([line] + b)[1..] == b;
    forall o: Fence ensures Claims(b, o) == Claims(a, o) {
      FinalNewlineClaims(rest, "", o);
    }
  }

  /** A final newline never makes or hides a claim. */
  lemma FinalNewlineKeepsClaims(text: string)
    ensures GeneratedProjection(text + "\n") == GeneratedProjection(text)
  {
    FinalNewlineClaims(StripBom(text), "", NoFence);
    if text == "" {
      assert StripBom("\n") == "\n";
    } else {
      assert StripBom(text + "\n") == StripBom(text) + "\n";
    }
  }
}
