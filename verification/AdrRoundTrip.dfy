/** Printing a managed file and reading it back. */
module AdrRoundTrip {
  import opened Wrappers
  import opened AdrIdentity
  import opened AdrFiles

  /* ---- line endings and reserved lines ---- */

  lemma {:induction false} LfStarts(pat: string, t: string)
    requires Inline(pat)
    ensures StartsFolded(pat, Lf(t)) == StartsFolded(pat, t)
  {
    if pat != "" && t != "" {
      if t[0] == '\r' && |t| > 1 && t[1] == '\n' {
        assert Lf(t) == Lf(t[1..]) && Lf(t[1..])[0] == '\n';
        assert Fold(pat[0]) != '\n' && Fold(pat[0]) != '\r';
      } else {
        assert Lf(t)[1..] == Lf(t[1..]);
        LfStarts(pat[1..], t[1..]);
      }
    }
  }

  lemma {:induction false} LfReservedAt(t: string)
    ensures ReservedAt(Lf(t)) == ReservedAt(t)
  {
    MarkersInline();
    LfStarts(MARKER_PREFIX, t);
    LfStarts(END_PREFIX, t);
  }

  /** Converting line endings neither makes nor removes a reserved line. */
  lemma {:induction false} LfReserved(t: string, bol: bool)
    ensures HasReserved(Lf(t), bol) == HasReserved(t, bol)
  {
    if t != "" {
      LfReservedAt(t);
      if t[0] == '\r' && |t| > 1 && t[1] == '\n' {
        LfReserved(t[1..], bol);
        assert !ReservedAt(t) && !ReservedAt(t[1..]);
      } else {
        LfReserved(t[1..], t[0] == '\n');
        assert Lf(t)[1..] == Lf(t[1..]);
      }
    }
  }

  lemma {:induction false} NewlineStarts(pat: string, t: string)
    requires Inline(pat)
    ensures StartsFolded(pat, t + "\n") == StartsFolded(pat, t)
  {
    if pat != "" {
      if t == "" {
        assert Fold(pat[0]) != '\n';
      } else {
        assert (t + "\n")[1..] == t[1..] + "\n";
        NewlineStarts(pat[1..], t[1..]);
      }
    }
  }

  lemma {:induction false} NewlineReserved(t: string, bol: bool)
    ensures HasReserved(t + "\n", bol) == HasReserved(t, bol)
  {
    MarkersInline();
    NewlineStarts(MARKER_PREFIX, t);
    NewlineStarts(END_PREFIX, t);
    if t != "" {
      assert (t + "\n")[1..] == t[1..] + "\n";
      NewlineReserved(t[1..], t[0] == '\n');
    } else {
      assert "\n"[1..] == "";
      assert !StartsFolded(MARKER_PREFIX, "") && !StartsFolded(END_PREFIX, "");
    }
  }

  lemma {:induction false} BodyNotReserved(text: string)
    requires !HasReserved(text, true)
    ensures !HasReserved(BodyOf(text), true)
    ensures !HasReserved(Lf(BodyOf(text)), true)
  {
    LfReserved(text, true);
    NewlineReserved(Lf(text), true);
    LfReserved(BodyOf(text), true);
  }

  /** `\r\n` occurs in `t`. */
  predicate HasCrLf(t: string) {
    exists i :: 0 <= i < |t| - 1 && t[i] == '\r' && t[i + 1] == '\n'
  }

  predicate HasCrCrLf(t: string) {
    exists i :: 0 <= i < |t| - 2 && t[i] == '\r' && t[i + 1] == '\r' && t[i + 2] == '\n'
  }

  lemma {:induction false} LfIdentity(t: string)
    ensures Lf(t) == t <==> !HasCrLf(t)
    ensures |Lf(t)| <= |t| && (HasCrLf(t) ==> |Lf(t)| < |t|)
  {
    if t != "" {
      LfIdentity(t[1..]);
      assert t == [t[0]] + t[1..];
      if i :| 0 <= i < |t| - 1 && t[i] == '\r' && t[i + 1] == '\n' && i > 0 {
        assert t[1..][i - 1] == '\r' && t[1..][i] == '\n';
        assert HasCrLf(t[1..]);
      }
      if j :| 0 <= j < |t[1..]| - 1 && t[1..][j] == '\r' && t[1..][j + 1] == '\n' {
        assert t[j + 1] == '\r' && t[j + 2] == '\n';
        assert HasCrLf(t);
      }
    }
  }

  /** What is left of a `\r\r\n` after one conversion is still a `\r\n`, and nothing else is. */
  lemma {:induction false} LfLeavesCrLf(t: string)
    ensures HasCrLf(Lf(t)) <==> HasCrCrLf(t)
  {
    if |t| >= 2 {
      LfLeavesCrLf(t[1..]);
      var u := t[1..];
      if i :| 0 <= i < |t| - 2 && t[i] == '\r' && t[i + 1] == '\r' && t[i + 2] == '\n' && i > 0 {
        assert u[i - 1] == '\r' && u[i] == '\r' && u[i + 1] == '\n';
        assert HasCrCrLf(u);
      }
      if j :| 0 <= j < |u| - 2 && u[j] == '\r' && u[j + 1] == '\r' && u[j + 2] == '\n' {
        assert t[j + 1] == '\r' && t[j + 2] == '\r' && t[j + 3] == '\n';
        assert HasCrCrLf(t);
      }
      if !(t[0] == '\r' && t[1] == '\n') {
        var a := Lf(u);
        assert Lf(t) == [t[0]] + a;
        LfHead(u);
        if k :| 0 <= k < |Lf(t)| - 1 && Lf(t)[k] == '\r' && Lf(t)[k + 1] == '\n' {
          if k > 0 {
            assert a[k - 1] == '\r' && a[k] == '\n';
            assert HasCrLf(a);
          } else {
            assert a[0] == '\n';
            assert u[0] == '\r' && u[1] == '\n';
            assert t[0] == '\r' && t[1] == '\r' && t[2] == '\n';
          }
        }
        if k :| 0 <= k < |a| - 1 && a[k] == '\r' && a[k + 1] == '\n' {
          assert Lf(t)[k + 1] == '\r' && Lf(t)[k + 2] == '\n';
          assert HasCrLf(Lf(t));
        }
        if t[0] == '\r' && t[1] == '\r' && |t| > 2 && t[2] == '\n' {
          assert Lf(u) == Lf(u[1..]) && u[1] == '\n';
          assert a[0] == '\n';
          assert Lf(t)[0] == '\r' && Lf(t)[1] == '\n';
          assert HasCrLf(Lf(t));
        }
      }
    }
  }

  lemma {:induction false} LfHead(t: string)
    requires t != ""
    ensures Lf(t) != "" && (Lf(t)[0] == '\n' <==> t[0] == '\n' || (t[0] == '\r' && |t| > 1 && t[1] == '\n'))
  {
    if t[0] == '\r' && |t| > 1 && t[1] == '\n' {
      assert t[1..][0] == '\n';
    }
  }

  /** One conversion is enough for a text exactly when it has no `\r\r\n`. */
  lemma {:induction false} LfStable(t: string)
    ensures Lf(Lf(t)) == Lf(t) <==> !HasCrCrLf(t)
  {
    LfIdentity(Lf(t));
    LfLeavesCrLf(t);
  }

  /* ---- the closing marker ---- */

  lemma {:induction false} PrefixStarts(pat: string, t: string)
    requires pat <= t
    ensures StartsFolded(pat, t)
  {
    if pat != "" {
      assert t[0] == pat[0] && pat[1..] <= t[1..];
      PrefixStarts(pat[1..], t[1..]);
    }
  }

  /** A line of the body that is not reserved does not read as the closing marker,
      whatever follows the body. */
  lemma NotEndInBody(t: string, after: string)
    requires t != "" && t[|t| - 1] == '\n' && !ReservedAt(t)
    ensures !EndAt(t + after)
  {
    MarkersInline();
    if END_MARKER <= t + after {
      assert (t + after)[|t| - 1] == '\n';
      assert |t| > |END_MARKER|;
      assert END_PREFIX <= END_MARKER;
      assert END_PREFIX <= t;
      PrefixStarts(END_PREFIX, t);
    }
  }

  /** In a body without reserved lines the first closing marker is the printed one. */
  lemma {:induction false} FirstEndIsPrinted(body: string, after: string, bol: bool)
    requires !HasReserved(body, bol) && (if body == "" then bol else body[|body| - 1] == '\n')
    requires EndAt(after)
    ensures FindEnd(body + after, bol) == Some((|body|, |body| + EndWidth(after)))
    decreases |body|
  {
    if body == "" {
      assert body + after == after;
      assert after != "" by { assert END_MARKER <= after; }
    } else {
      if bol { NotEndInBody(body, after); }
      assert (body + after)[1..] == body[1..] + after;
      if body[1..] == "" { assert body[0] == '\n'; }
      FirstEndIsPrinted(body[1..], after, body[0] == '\n');
    }
  }

  lemma {:induction false} FirstLineOf(line: string, rest: string)
    requires forall i :: 0 <= i < |line| ==> line[i] != '\n'
    ensures FirstLine(line + "\n" + rest) == (line, true, rest)
  {
    var all := line + "\n" + rest;
    if line == "" {
      assert all[1..] == rest;
    } else {
      assert all[1..] == line[1..] + "\n" + rest;
      FirstLineOf(line[1..], rest);
      assert [line[0]] + line[1..] == line;
    }
  }

  lemma PrintedEnd(tail: string)
    ensures var t := END_MARKER + "\n" + tail; EndAt(t) && t[EndWidth(t)..] == tail
  {
    var t := END_MARKER + "\n" + tail;
    assert t[|END_MARKER|..] == "\n" + tail;
  }

  lemma HeaderInline(id: string, number: nat, digest: string)
    requires ValidId(id) && HexDigest(digest)
    ensures var line := HeaderLine(id, number, digest);
      && (forall i :: 0 <= i < |line| ==> line[i] != '\n')
      && line != "" && line[0] == '<' && DropCR(line) == line
  {
    var third := Join(H3, digest, H4);
    var second := Join(H2, Dec(number), third);
    JoinInline(H3, digest, H4);
    JoinInline(H2, Dec(number), third);
    JoinInline(H1, id, second);
    JoinLast(H3, digest, H4);
    JoinLast(H2, Dec(number), third);
    JoinLast(H1, id, second);
  }

  predicate NoBreak(s: string) {
    forall i :: 0 <= i < |s| ==> s[i] != '\n'
  }

  lemma JoinInline(tag: string, field: string, rest: string)
    requires NoBreak(tag) && NoBreak(field) && NoBreak(rest)
    ensures NoBreak(Join(tag, field, rest))
  {
  }

  lemma JoinLast(tag: string, field: string, rest: string)
    requires rest != ""
    ensures Join(tag, field, rest) != "" && Join(tag, field, rest)[|Join(tag, field, rest)| - 1] == rest[|rest| - 1]
  {
  }

  /* ---- the round trip ---- */

  /** The region kept from an old file, as `Parse` returns it. */
  predicate Kept(before: Option<Region>) {
    before.Some? ==> (before.value.bom == "" || before.value.bom == [BOM]) && !GeneratedProjection(before.value.tail)
  }

  /** What identifies a managed file. */
  predicate Identity(id: string, number: nat) {
    ValidId(id) && number <= MAX_NUMBER && ((id == INDEX) <==> (number == 0))
  }

  lemma TailHasNoClaim(before: Option<Region>)
    requires Kept(before)
    ensures !GeneratedProjection(TailOf(before))
  {
    if before.Some? {
      FinalNewlineKeepsClaims(before.value.tail);
    } else {
      DefaultTailPlain();
    }
  }

  lemma {:induction false} NoAngleNoClaim(text: string, cur: string, open: Fence)
    requires '<' !in text && '<' !in cur
    ensures !Claims(LinesFrom(text, cur), open)
    decreases |text|
  {
    if text == "" {
      if cur != "" { PlainLine(cur, [], open); }
    } else if text[0] == '\r' && |text| > 1 && text[1] == '\n' {
      forall o: Fence ensures !Claims(LinesFrom(text[2..], ""), o) { NoAngleNoClaim(text[2..], "", o); }
      PlainLine(cur, LinesFrom(text[2..], ""), open);
    } else if Boundary(text[0]) {
      forall o: Fence ensures !Claims(LinesFrom(text[1..], ""), o) { NoAngleNoClaim(text[1..], "", o); }
      PlainLine(cur, LinesFrom(text[1..], ""), open);
    } else {
      NoAngleNoClaim(text[1..], cur + [text[0]], open);
    }
  }

  lemma {:induction false} PlainLine(line: string, rest: seq<string>, open: Fence)
    requires '<' !in line && forall o: Fence :: !Claims(rest, o)
    ensures !Claims([line] + rest, open)
  {
    assert ([line] + rest)[1..] == rest;
  }

  lemma DefaultTailPlain()
    ensures !GeneratedProjection(DEFAULT_TAIL)
  {
    NoAngleNoClaim(DEFAULT_TAIL, "", NoFence);
  }

  /** A body without reserved lines and what follows it, read as a region. */
  lemma {:induction false} RegionAt(hash: Hash, h: Header, body: string, after: string, bom: string)
    requires body != "" && body[|body| - 1] == '\n' && !HasReserved(body, true) && !HasReserved(Lf(body), true)
    requires EndAt(after) && !GeneratedProjection(after[EndWidth(after)..])
    ensures ParseRegion(hash, h, body + after, bom)
      == if Checksum(hash, h.id, h.number, Lf(body)) == h.digest
         then Ok(Region(h.id, h.number, Lf(body), after[EndWidth(after)..], bom)) else Err(Edited)
  {
    FirstEndIsPrinted(body, after, true);
    assert (body + after)[..|body|] == body;
    assert (body + after)[|body| + EndWidth(after)..] == after[EndWidth(after)..];
  }

  lemma {:induction false} RegionPrinted(hash: Hash, h: Header, body: string, tail: string, bom: string)
    requires body != "" && body[|body| - 1] == '\n' && !HasReserved(body, true) && !HasReserved(Lf(body), true)
    requires !GeneratedProjection(tail)
    ensures ParseRegion(hash, h, body + (END_MARKER + "\n" + tail), bom)
      == if Checksum(hash, h.id, h.number, Lf(body)) == h.digest
         then Ok(Region(h.id, h.number, Lf(body), tail, bom)) else Err(Edited)
  {
    PrintedEnd(tail);
    RegionAt(hash, h, body, END_MARKER + "\n" + tail, bom);
  }

  predicate IsBom(bom: string) {
    bom == "" || bom == [BOM]
  }

  lemma BomStripped(bom: string, value: string)
    requires IsBom(bom) && value != "" && value[0] == '<'
    ensures StripBom(bom + value) == value
    ensures (if bom + value != "" && (bom + value)[0] == BOM then [BOM] else "") == bom
  {
    if bom == "" {
      assert bom + value == value;
    } else {
      assert (bom + value)[0] == BOM && (bom + value)[1..] == value;
    }
  }

  /** A first line that is a header, whichever way it ends, hands the rest to the region. */
  lemma {:induction false} HeaderRead(hash: Hash, h: Header, first: string, rest: string, bom: string)
    requires IsBom(bom) && (forall i :: 0 <= i < |first| ==> first[i] != '\n') && first != "" && first[0] == '<'
    requires ParseHeader(DropCR(first)) == Some(h) && ((h.id == INDEX) <==> (h.number == 0))
    ensures var r := ParseRegion(hash, h, rest, bom);
      Parse(hash, bom + (first + "\n" + rest)) == if r.Ok? then Ok(Some(r.value)) else Err(r.error)
  {
    FirstLineOf(first, rest);
    BomStripped(bom, first + "\n" + rest);
  }

  lemma {:induction false} HeaderPrinted(hash: Hash, id: string, number: nat, digest: string, rest: string, bom: string)
    requires Identity(id, number) && HexDigest(digest) && IsBom(bom)
    ensures var r := ParseRegion(hash, Header(id, number, digest), rest, bom);
      Parse(hash, bom + (HeaderLine(id, number, digest) + "\n" + rest)) == if r.Ok? then Ok(Some(r.value))
        else Err(r.error)
  {
    HeaderInline(id, number, digest);
    HeaderRoundTrip(id, number, digest);
    HeaderRead(hash, Header(id, number, digest), HeaderLine(id, number, digest), rest, bom);
  }

  /** The bytes `Wrap` prints, read back. */
  lemma {:induction false} ParsePrinted(hash: Hash, id: string, number: nat, digest: string, body: string, tail: string,
      bom: string)
    requires Identity(id, number) && HexDigest(digest) && (bom == "" || bom == [BOM])
    requires body != "" && body[|body| - 1] == '\n' && !HasReserved(body, true) && !HasReserved(Lf(body), true)
    requires !GeneratedProjection(tail)
    ensures Parse(hash, Print(id, number, digest, body, tail, bom))
      == if Checksum(hash, id, number, Lf(body)) == digest
         then Ok(Some(Region(id, number, Lf(body), tail, bom))) else Err(Edited)
  {
    HeaderPrinted(hash, id, number, digest, body + (END_MARKER + "\n" + tail), bom);
    RegionPrinted(hash, Header(id, number, digest), body, tail, bom);
  }

  /** What `Wrap` printed, read back: the checksum decides. */
  lemma {:induction false} WrapReads(hash: Hash, id: string, number: nat, text: string, before: Option<Region>)
    requires HexHash(hash) && Identity(id, number) && Kept(before)
    ensures var body := BodyOf(Escape(text, true));
      Parse(hash, Wrap(hash, id, number, Escape(text, true), before))
        == if Checksum(hash, id, number, Lf(body)) == Checksum(hash, id, number, body)
           then Ok(Some(Region(id, number, Lf(body), TailOf(before), BomOf(before)))) else Err(Edited)
  {
    var body := BodyOf(Escape(text, true));
    EscapeLeavesNone(text, true);
    BodyNotReserved(Escape(text, true));
    TailHasNoClaim(before);
    ParsePrinted(hash, id, number, Checksum(hash, id, number, body), body, TailOf(before), BomOf(before));
  }

  /** `\r\r\r\n` begins the text, or `\r\r` is all of it. */
  predicate StuttersHere(text: string) {
    |text| > 1 && text[0] == '\r' && text[1] == '\r'
      && (|text| == 2 || (|text| > 3 && text[2] == '\r' && text[3] == '\n'))
  }

  /** The texts a conversion does not settle: `\r\r\r\n` occurs, or `\r\r` ends them. */
  predicate Stutters(text: string) {
    text != "" && (StuttersHere(text) || Stutters(text[1..]))
  }

  predicate CrCrLfHere(t: string) {
    |t| > 2 && t[0] == '\r' && t[1] == '\r' && t[2] == '\n'
  }

  predicate CrCrLfFrom(t: string) {
    t != "" && (CrCrLfHere(t) || CrCrLfFrom(t[1..]))
  }

  lemma {:induction false} CrCrLfFound(t: string)
    ensures CrCrLfFrom(t) <==> HasCrCrLf(t)
  {
    if t != "" {
      var u := t[1..];
      CrCrLfFound(u);
      if i :| 0 <= i < |t| - 2 && t[i] == '\r' && t[i + 1] == '\r' && t[i + 2] == '\n' && i > 0 {
        assert u[i - 1] == '\r' && u[i] == '\r' && u[i + 1] == '\n';
        assert HasCrCrLf(u);
      }
      if j :| 0 <= j < |u| - 2 && u[j] == '\r' && u[j + 1] == '\r' && u[j + 2] == '\n' {
        assert t[j + 1] == '\r' && t[j + 2] == '\r' && t[j + 3] == '\n';
        assert HasCrCrLf(t);
      }
    }
  }

  predicate CrLfHere(t: string) {
    |t| > 1 && t[0] == '\r' && t[1] == '\n'
  }

  /** A body begins with a line break exactly when its text does. */
  lemma {:induction false} BodyHead(w: string)
    requires w != ""
    ensures BodyOf(w)[0] == '\n' <==> w[0] == '\n' || CrLfHere(w)
    ensures CrLfHere(w) ==> BodyOf(w) == BodyOf(w[1..])
    ensures !CrLfHere(w) ==>
      BodyOf(w) == [w[0]] + (if |w| > 1 then BodyOf(w[1..]) else if w[0] == '\n' then "" else "\n")
  {
    LfHead(w);
    if |w| > 1 {
      var u := Lf(w[1..]);
      LfHead(w[1..]);
      assert u != "";
      if !CrLfHere(w) {
        assert Lf(w) == [w[0]] + u;
        assert Lf(w)[|Lf(w)| - 1] == u[|u| - 1];
        assert [w[0]] + (u + "\n") == ([w[0]] + u) + "\n";
      }
    }
  }

  lemma {:induction false} BodyStartsCrLf(w: string)
    requires w != ""
    ensures CrLfHere(BodyOf(w)) <==> w == "\r" || CrCrLfHere(w)
  {
    BodyHead(w);
    if |w| > 1 {
      BodyHead(w[1..]);
      assert w == [w[0]] + w[1..];
    }
  }

  lemma {:induction false} BodyStutters(text: string)
    ensures CrCrLfFrom(BodyOf(text)) <==> Stutters(text)
  {
    if |text| > 1 {
      var u := text[1..];
      BodyStutters(u);
      BodyHead(text);
      BodyStartsCrLf(u);
      if !CrLfHere(text) {
        assert BodyOf(text)[1..] == BodyOf(u);
        assert CrCrLfHere(BodyOf(text)) <==> text[0] == '\r' && CrLfHere(BodyOf(u));
      }
    } else if text != "" {
      BodyHead(text);
      assert |BodyOf(text)| <= 2;
      assert text[1..] == "";
      ShortHasNone(BodyOf(text));
    } else {
      ShortHasNone(BodyOf(text));
    }
  }

  lemma {:induction false} ShortHasNone(t: string)
    requires |t| <= 2
    ensures !CrCrLfFrom(t)
  {
    if t != "" { ShortHasNone(t[1..]); }
  }

  predicate LineBreaks(p: string) {
    forall i :: 0 <= i < |p| ==> p[i] == '\r' || p[i] == '\n'
  }

  /** Escaping does not touch line breaks. */
  lemma {:induction false} EscapeKeepsBreaks(p: string, text: string, bol: bool)
    requires LineBreaks(p)
    ensures p <= Escape(text, bol) <==> p <= text
    ensures Escape(text, bol) == p <==> text == p
  {
    if p != "" && text != "" {
      var rest := Escape(text[1..], text[0] == '\n');
      if bol && ReservedAt(text) {
        assert text[0] == '<';
        assert Escape(text, bol)[0] == '&';
      } else {
        EscapeKeepsBreaks(p[1..], text[1..], text[0] == '\n');
        assert Escape(text, bol) == [text[0]] + rest;
        assert p == [p[0]] + p[1..] && text == [text[0]] + text[1..];
      }
    }
  }

  lemma StuttersText(t: string)
    ensures StuttersHere(t) <==> t == "\r\r" || "\r\r\r\n" <= t
  {
    if |t| > 3 {
      assert t[..4] == [t[0], t[1], t[2], t[3]];
    }
  }

  lemma {:induction false} StuttersAfter(c: char, rest: string)
    requires c != '\r'
    ensures Stutters([c] + rest) == Stutters(rest)
  {
    assert ([c] + rest)[1..] == rest;
    assert !StuttersHere([c] + rest);
  }

  lemma {:induction false} EscapeStutters(text: string, bol: bool)
    ensures Stutters(Escape(text, bol)) == Stutters(text)
  {
    if text != "" {
      var rest := Escape(text[1..], text[0] == '\n');
      EscapeStutters(text[1..], text[0] == '\n');
      if bol && ReservedAt(text) {
        assert text[0] == '<';
        assert !StuttersHere(text);
        StuttersAfter(';', rest);
        StuttersAfter('t', [';'] + rest);
        StuttersAfter('l', ['t'] + ([';'] + rest));
        StuttersAfter('&', ['l'] + (['t'] + ([';'] + rest)));
        assert Escape(text, bol) == ['&'] + (['l'] + (['t'] + ([';'] + rest)));
      } else {
        EscapeKeepsBreaks("\r\r\r\n", text, bol);
        EscapeKeepsBreaks("\r\r", text, bol);
        StuttersText(text);
        StuttersText(Escape(text, bol));
        assert Escape(text, bol)[1..] == rest;
      }
    }
  }

  /** The digest does not tell the printed body from its second conversion. */
  predicate SameDigest(hash: Hash, id: string, number: nat, body: string) {
    Checksum(hash, id, number, Lf(body)) == Checksum(hash, id, number, body)
  }

  /** Reading back a printed file succeeds exactly when the text does not stutter, or the
      digest fails to tell two bodies apart; it then returns the same id, number, byte-order
      mark and tail, and the body as converted.  Any other file reads as edited. */
  lemma {:induction false} WrapParses(hash: Hash, id: string, number: nat, text: string, before: Option<Region>)
    requires HexHash(hash) && Identity(id, number) && Kept(before)
    ensures var body := BodyOf(Escape(text, true));
      Parse(hash, Wrap(hash, id, number, Escape(text, true), before)) ==
        if !Stutters(text) || SameDigest(hash, id, number, body)
        then Ok(Some(Region(id, number, Lf(body), TailOf(before), BomOf(before)))) else Err(Edited)
  {
    var body := BodyOf(Escape(text, true));
    WrapReads(hash, id, number, text, before);
    EscapeStutters(text, true);
    BodyStutters(Escape(text, true));
    CrCrLfFound(body);
    LfStable(body);
  }

  /** A digest that sees carriage returns. */
  function ReturnHash(s: string): string {
    seq(64, _ => if '\r' in s then '1' else '0')
  }

  lemma {:induction false} ReturnHashSees(id: string, number: nat, body: string)
    requires ValidId(id) && '\r' in Lf(body) && '\r' !in Lf(Lf(body))
    ensures HexHash(ReturnHash) && !SameDigest(ReturnHash, id, number, body)
  {
    var head := "v1\n" + id + "\n" + Dec(number) + "\n";
    assert '\r' !in Dec(number) && '\r' !in id;
    assert '\r' !in head;
    assert ReturnHash(head + Lf(Lf(body)))[0] == '0' && ReturnHash(head + Lf(body))[0] == '1';
  }

  const TWO_RETURNS := "x\r\r"

  /** COUNTEREXAMPLE.  A text that ends in two carriage returns is printed as a file that reads as edited. */
  lemma {:induction false} TwoReturnsRefused(id: string, number: nat)
    requires Identity(id, number)
    ensures HexHash(ReturnHash)
    ensures Parse(ReturnHash, Wrap(ReturnHash, id, number, Escape(TWO_RETURNS, true), None)) == Err(Edited)
  {
    TwoReturnsBody();
    ReturnHashSees(id, number, BodyOf(Escape(TWO_RETURNS, true)));
    WrapParses(ReturnHash, id, number, TWO_RETURNS, None);
  }

  lemma {:induction false} TwoReturnsBody()
    ensures Stutters(TWO_RETURNS)
    ensures var body := BodyOf(Escape(TWO_RETURNS, true)); '\r' in Lf(body) && '\r' !in Lf(Lf(body))
  {
    var text, body := TWO_RETURNS, "x\r\r\n";
    assert text[1..] == "\r\r" && text[1..][1..] == "\r" && text[1..][1..][1..] == "";
    EscapeKeepsBreaks("\r\r", "\r\r", false);
    assert MARKER_PREFIX[0] == '<' && END_PREFIX[0] == '<' && !ReservedAt(text);
    assert Escape(text, true) == text;
    assert Lf("\r") == "\r" && Lf("\r\r") == "\r\r" && Lf(text) == text;
    assert BodyOf(text) == body;
    assert body[1..] == "\r\r\n" && body[1..][1..] == "\r\n" && body[1..][1..][1..] == "\n" && "\n"[1..] == "";
    assert Lf("\n") == "\n" && Lf("\r\n") == "\n" && Lf("\r\r\n") == "\r\n" && Lf(body) == "x\r\n";
    assert "x\r\n"[1..] == "\r\n" && Lf("x\r\n") == "x\n";
  }

  /** MAIN RESULT.  For text without carriage returns, printing and parsing undo each
      other: same id and number, the newline-terminated escaped text as body, the old
      byte-order mark, and the old tail with a final newline. */
  lemma {:induction false} PlainRoundTrip(hash: Hash, id: string, number: nat, text: string, before: Option<Region>)
    requires HexHash(hash) && Identity(id, number) && Kept(before) && '\r' !in text
    ensures Parse(hash, Wrap(hash, id, number, Escape(text, true), before))
         == Ok(Some(Region(id, number, EndLine(Escape(text, true)), TailOf(before), BomOf(before))))
  {
    EscapeNoCR(text, true);
    LfIdentity(Escape(text, true));
    LfIdentity(EndLine(Escape(text, true)));
    assert !HasCrCrLf(BodyOf(Escape(text, true)));
    CrCrLfFound(BodyOf(Escape(text, true)));
    BodyStutters(Escape(text, true));
    EscapeStutters(text, true);
    WrapParses(hash, id, number, text, before);
  }

  lemma {:induction false} EscapeNoCR(text: string, bol: bool)
    requires '\r' !in text
    ensures '\r' !in Escape(text, bol)
  {
    if text != "" { EscapeNoCR(text[1..], text[0] == '\n'); }
  }

  /** Printing a parsed region again, with the text it was printed from, gives the same file. */
  lemma {:induction false} WrapAgain(hash: Hash, id: string, number: nat, text: string, before: Option<Region>)
    requires HexHash(hash) && Identity(id, number) && Kept(before)
    requires Parse(hash, Wrap(hash, id, number, Escape(text, true), before)).Ok?
    ensures var data := Wrap(hash, id, number, Escape(text, true), before);
      && Parse(hash, data).value.Some?
      && Kept(Parse(hash, data).value)
      && Wrap(hash, id, number, Escape(text, true), Parse(hash, data).value) == data
  {
    WrapParses(hash, id, number, text, before);
    TailHasNoClaim(before);
  }

  /* ---- what a parsed region guarantees ---- */

  function Pow10(n: nat): nat {
    if n == 0 then 1 else 10 * Pow10(n - 1)
  }

  lemma {:induction false} UndecBound(s: string)
    requires forall i :: 0 <= i < |s| ==> '0' <= s[i] <= '9'
    ensures Undec(s) < Pow10(|s|)
  {
    if s != "" { UndecBound(s[..|s| - 1]); }
  }

  lemma {:induction false} EightDigits(s: string)
    requires ValidNumber(s)
    ensures Undec(s) <= MAX_NUMBER
  {
    UndecBound(s);
    assert Pow10(4) == 10000;
    assert Pow10(8) == 10000 * Pow10(4);
    assert Pow10(|s|) <= Pow10(8) by {
      assert |s| == 1 || |s| == 2 || |s| == 3 || |s| == 4 || |s| == 5 || |s| == 6 || |s| == 7 || |s| == 8;
    }
  }

  lemma HeaderValid(line: string)
    requires ParseHeader(line).Some?
    ensures ValidId(ParseHeader(line).value.id) && ParseHeader(line).value.number <= MAX_NUMBER
  {
    var afterId := Field(H1, line).value.1;
    EightDigits(Field(H2, afterId).value.0);
  }

  /** A managed file has a valid identity, and its tail and byte-order mark can be kept. */
  lemma ParsedRegion(hash: Hash, data: string)
    requires Parse(hash, data).Ok? && Parse(hash, data).value.Some?
    ensures var r := Parse(hash, data).value.value; Identity(r.id, r.number) && Kept(Some(r))
  {
    HeaderValid(DropCR(FirstLine(StripBom(data)).0));
  }

  /* ---- a checkout that converts line endings ---- */

  /** Every `\n` becomes `\r\n`. */
  function CrLf(t: string): string {
    if t == "" then "" else (if t[0] == '\n' then "\r\n" else [t[0]]) + CrLf(t[1..])
  }

  lemma {:induction false} CrLfConcat(a: string, b: string)
    ensures CrLf(a + b) == CrLf(a) + CrLf(b)
  {
    if a == "" {
      assert a + b == b;
    } else {
      assert (a + b)[1..] == a[1..] + b;
      CrLfConcat(a[1..], b);
    }
  }

  lemma {:induction false} CrLfUndone(t: string)
    requires '\r' !in t
    ensures Lf(CrLf(t)) == t
  {
    if t != "" {
      CrLfUndone(t[1..]);
      var rest := CrLf(t[1..]);
      if t[0] == '\n' {
        assert CrLf(t) == ['\r'] + (['\n'] + rest);
        assert CrLf(t)[1..] == ['\n'] + rest;
        assert (['\n'] + rest)[1..] == rest;
      } else {
        assert CrLf(t) == [t[0]] + rest;
        assert ([t[0]] + rest)[1..] == rest;
      }
      assert t == [t[0]] + t[1..];
    }
  }

  lemma {:induction false} CrLfLines(t: string, cur: string)
    requires '\r' !in t
    ensures LinesFrom(CrLf(t), cur) == LinesFrom(t, cur)
  {
    if t != "" {
      var rest := CrLf(t[1..]);
      if t[0] == '\n' {
        assert CrLf(t) == "\r\n" + rest;
        assert ("\r\n" + rest)[2..] == rest;
        CrLfLines(t[1..], "");
      } else {
        assert CrLf(t) == [t[0]] + rest;
        assert ([t[0]] + rest)[1..] == rest;
        CrLfLines(t[1..], if Boundary(t[0]) then "" else cur + [t[0]]);
      }
    }
  }

  lemma {:induction false} CrLfInline(t: string)
    requires NoBreak(t)
    ensures CrLf(t) == t
  {
    if t != "" {
      CrLfInline(t[1..]);
      assert t == [t[0]] + t[1..];
    }
  }

  lemma {:induction false} CrLfClaims(tail: string)
    requires '\r' !in tail
    ensures GeneratedProjection(CrLf(tail)) == GeneratedProjection(tail)
  {
    if tail != "" {
      var rest := CrLf(tail[1..]);
      if tail[0] == BOM {
        assert CrLf(tail) == [BOM] + rest;
        assert ([BOM] + rest)[1..] == rest;
        CrLfLines(tail[1..], "");
      } else {
        assert CrLf(tail)[0] != BOM;
        CrLfLines(tail, "");
      }
    }
  }

  lemma {:induction false} CrLfLastNewline(t: string)
    requires t != "" && t[|t| - 1] == '\n'
    ensures CrLf(t) != "" && CrLf(t)[|CrLf(t)| - 1] == '\n'
  {
    if t[1..] == "" {
      assert CrLf(t) == "\r\n" + "";
    } else {
      CrLfLastNewline(t[1..]);
    }
  }

  lemma Assoc(a: string, b: string, c: string)
    ensures (a + b) + c == a + (b + c)
  {
  }

  lemma CrLfNewline()
    ensures CrLf("\n") == "\r\n"
  {
    assert CrLf("\n") == "\r\n" + CrLf("\n"[1..]) == "\r\n";
  }

  lemma {:induction false} ConvertedLine(marker: string, tail: string)
    requires NoBreak(marker)
    ensures CrLf(marker + "\n" + tail) == marker + ("\r\n" + CrLf(tail))
  {
    CrLfNewline();
    CrLfConcat(marker + "\n", tail);
    CrLfConcat(marker, "\n");
    CrLfInline(marker);
    Assoc(marker, "\r\n", CrLf(tail));
  }

  lemma ConvertedEnd(tail: string)
    ensures var t := END_MARKER + ("\r\n" + tail); EndAt(t) && t[EndWidth(t)..] == tail
  {
    var t := END_MARKER + ("\r\n" + tail);
    assert t[|END_MARKER|..] == "\r\n" + tail;
  }

  lemma {:induction false} ConvertedBody(body: string)
    requires '\r' !in body && body != "" && body[|body| - 1] == '\n' && !HasReserved(body, true)
    ensures Lf(CrLf(body)) == body && !HasReserved(CrLf(body), true)
    ensures CrLf(body) != "" && CrLf(body)[|CrLf(body)| - 1] == '\n'
  {
    CrLfUndone(body);
    LfReserved(CrLf(body), true);
    CrLfLastNewline(body);
  }

  lemma {:induction false} ConvertedRegion(hash: Hash, h: Header, body: string, tail: string, bom: string)
    requires '\r' !in body && '\r' !in tail
    requires body != "" && body[|body| - 1] == '\n' && !HasReserved(body, true) && !GeneratedProjection(tail)
    ensures ParseRegion(hash, h, CrLf(body) + CrLf(END_MARKER + "\n" + tail), bom)
      == if Checksum(hash, h.id, h.number, body) == h.digest
         then Ok(Region(h.id, h.number, body, CrLf(tail), bom)) else Err(Edited)
  {
    MarkersInline();
    ConvertedLine(END_MARKER, tail);
    ConvertedEnd(CrLf(tail));
    ConvertedBody(body);
    CrLfClaims(tail);
    RegionAt(hash, h, CrLf(body), END_MARKER + ("\r\n" + CrLf(tail)), bom);
  }

  lemma {:induction false} ConvertedText(line: string, rest: string)
    requires NoBreak(line)
    ensures CrLf(line + "\n" + rest) == (line + "\r") + "\n" + CrLf(rest)
  {
    ConvertedLine(line, rest);
    assert "\r\n" == "\r" + "\n";
    Assoc(line, "\r", "\n");
    Assoc(line, "\r\n", CrLf(rest));
  }

  lemma ReturnedLine(line: string)
    requires forall i :: 0 <= i < |line| ==> line[i] != '\n'
    ensures DropCR(line + "\r") == line && forall i :: 0 <= i < |line + "\r"| ==> (line + "\r")[i] != '\n'
  {
    assert (line + "\r")[..|line|] == line;
  }

  lemma {:induction false} ConvertedHeader(hash: Hash, id: string, number: nat, digest: string, rest: string)
    requires Identity(id, number) && HexDigest(digest)
    ensures var r := ParseRegion(hash, Header(id, number, digest), CrLf(rest), [BOM]);
      Parse(hash, [BOM] + CrLf(HeaderLine(id, number, digest) + "\n" + rest)) == if r.Ok? then Ok(Some(r.value))
        else Err(r.error)
  {
    var line := HeaderLine(id, number, digest);
    HeaderInline(id, number, digest);
    HeaderRoundTrip(id, number, digest);
    ConvertedText(line, rest);
    ReturnedLine(line);
    HeaderRead(hash, Header(id, number, digest), line + "\r", CrLf(rest), [BOM]);
  }

  lemma {:induction false} ConvertedFile(hash: Hash, id: string, number: nat, body: string, tail: string)
    requires HexHash(hash) && Identity(id, number) && '\r' !in body && '\r' !in tail
    requires body != "" && body[|body| - 1] == '\n' && !HasReserved(body, true) && !GeneratedProjection(tail)
    ensures var digest := Checksum(hash, id, number, body);
      Parse(hash, [BOM] + CrLf(HeaderLine(id, number, digest) + "\n" + (body + (END_MARKER + "\n" + tail))))
        == Ok(Some(Region(id, number, body, CrLf(tail), [BOM])))
  {
    var digest := Checksum(hash, id, number, body);
    ConvertedHeader(hash, id, number, digest, body + (END_MARKER + "\n" + tail));
    CrLfConcat(body, END_MARKER + "\n" + tail);
    ConvertedRegion(hash, Header(id, number, digest), body, tail, [BOM]);
  }

  /** A checkout that adds a byte-order mark and converts every line ending reads as the
      same record, number and body: a planner then finds nothing to update. */
  lemma {:induction false} ConvertedCheckoutReads(hash: Hash, id: string, number: nat, text: string,
      before: Option<Region>)
    requires HexHash(hash) && Identity(id, number) && Kept(before) && BomOf(before) == ""
    requires '\r' !in text && '\r' !in TailOf(before)
    ensures Parse(hash, [BOM] + CrLf(Wrap(hash, id, number, Escape(text, true), before)))
         == Ok(Some(Region(id, number, EndLine(Escape(text, true)), CrLf(TailOf(before)), [BOM])))
  {
    PlainBody(text);
    TailHasNoClaim(before);
    var body, tail := BodyOf(Escape(text, true)), TailOf(before);
    ConvertedFile(hash, id, number, body, tail);
    NoBom(HeaderLine(id, number, Checksum(hash, id, number, body)) + "\n" + (body + (END_MARKER + "\n" + tail)));
  }

  lemma NoBom(s: string)
    ensures "" + s == s
  {
  }

  lemma {:induction false} PlainBody(text: string)
    requires '\r' !in text
    ensures var body := BodyOf(Escape(text, true));
      body == EndLine(Escape(text, true)) && '\r' !in body && !HasReserved(body, true)
  {
    EscapeNoCR(text, true);
    LfIdentity(Escape(text, true));
    EscapeLeavesNone(text, true);
    BodyNotReserved(Escape(text, true));
  }
}
