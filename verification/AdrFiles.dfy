/** One managed file: printing it, and reading it back. */
module AdrFiles {
  import opened Wrappers
  import opened AdrIdentity

  const INDEX := "@index"
  const MAX_NUMBER := 99999999
  const DEFAULT_TAIL := "\n## Local notes\n\n"

  datatype Region = Region(id: string, number: nat, body: string, tail: string, bom: string)

  datatype Refusal =
    | MalformedHeader | MissingRegion | BadSequence | MissingClosing | NestedClaims | Edited

  /** `_lf`: every `\r\n` becomes `\n`. */
  function Lf(text: string): string {
    if text == "" then ""
    else if text[0] == '\r' && |text| > 1 && text[1] == '\n' then Lf(text[1..])
    else [text[0]] + Lf(text[1..])
  }

  /* ---- numbers ---- */

  function DigitChar(d: nat): char
    requires d < 10
  {
    (48 + d) as char
  }

  /** Decimal printing, without leading zeros. */
  function Dec(n: nat): (s: string)
    ensures s != ""
    ensures forall i :: 0 <= i < |s| ==> '0' <= s[i] <= '9'
    ensures n > 0 ==> s[0] != '0'
  {
    if n < 10 then [DigitChar(n)] else Dec(n / 10) + [DigitChar(n % 10)]
  }

  function Undec(s: string): nat
    requires forall i :: 0 <= i < |s| ==> '0' <= s[i] <= '9'
  {
    if s == "" then 0 else Undec(s[..|s| - 1]) * 10 + (s[|s| - 1] as int - 48)
  }

  lemma {:induction false} DecRoundTrip(n: nat)
    ensures Undec(Dec(n)) == n
  {
    var s := Dec(n);
    if n < 10 {
      assert s[..0] == "";
    } else {
      DecRoundTrip(n / 10);
      assert s[..|s| - 1] == Dec(n / 10);
    }
  }

  /** Numbers up to eight digits print in at most eight characters. */
  lemma {:induction false} DecWidth(n: nat)
    requires n <= MAX_NUMBER
    ensures |Dec(n)| <= 8
  {
    var a := n / 10; var b := a / 10; var c := b / 10; var d := c / 10;
    var e := d / 10; var f := e / 10; var g := f / 10;
    assert g < 10;
    assert |Dec(g)| == 1 && |Dec(f)| <= 2 && |Dec(e)| <= 3 && |Dec(d)| <= 4;
    assert |Dec(c)| <= 5 && |Dec(b)| <= 6 && |Dec(a)| <= 7;
  }

  /* ---- the header line ---- */

  const H1 := "<!-- sidegraph-adr:v1 id="
  const H2 := " number="
  const H3 := " sha256="
  const H4 := " -->"

  predicate IdChar(c: char) {
    'A' <= c <= 'Z' || 'a' <= c <= 'z' || '0' <= c <= '9' || c in {'.', '_', '-'}
  }

  /** `[A-Za-z0-9][A-Za-z0-9._-]{0,127}|@index`. */
  predicate ValidId(id: string) {
    id == INDEX ||
    (1 <= |id| <= 128 && id[0] !in {'.', '_', '-'} && forall i :: 0 <= i < |id| ==> IdChar(id[i]))
  }

  /** `0|[1-9][0-9]{0,7}`. */
  predicate ValidNumber(s: string) {
    && 1 <= |s| <= 8 && (forall i :: 0 <= i < |s| ==> '0' <= s[i] <= '9')
    && (s[0] == '0' ==> |s| == 1)
  }

  predicate HexDigest(s: string) {
    |s| == 64 && forall i :: 0 <= i < |s| ==> '0' <= s[i] <= '9' || 'a' <= s[i] <= 'f'
  }

  datatype Header = Header(id: string, number: nat, digest: string)

  function HeaderLine(id: string, number: nat, digest: string): string {
    Join(H1, id, Join(H2, Dec(number), Join(H3, digest, H4)))
  }

  function Join(tag: string, field: string, rest: string): string {
    tag + field + rest
  }

  /** The part before the first space, and what follows it. */
  function CutSpace(s: string): (string, string) {
    if s == "" || s[0] == ' ' then ("", s)
    else
      var (head, rest) := CutSpace(s[1..]);
      ([s[0]] + head, rest)
  }

  /** A field after its tag, up to the next space. */
  function Field(tag: string, s: string): Option<(string, string)> {
    if tag <= s then Some(CutSpace(s[|tag|..])) else None
  }

  /** `_HEADER.fullmatch`: no field contains a space, so the spaces delimit the fields. */
  function ParseHeader(line: string): Option<Header> {
    match Field(H1, line)
    case None => None
    case Some((id, afterId)) =>
      match Field(H2, afterId)
      case None => None
      case Some((digits, afterNumber)) =>
        match Field(H3, afterNumber)
        case None => None
        case Some((digest, end)) =>
          if ValidId(id) && ValidNumber(digits) && HexDigest(digest) && end == H4
          then Some(Header(id, Undec(digits), digest)) else None
  }

  lemma {:induction false} CutAt(head: string, rest: string)
    requires forall i :: 0 <= i < |head| ==> head[i] != ' '
    requires rest != "" && rest[0] == ' '
    ensures CutSpace(head + rest) == (head, rest)
  {
    if head == "" {
      assert head + rest == rest;
    } else {
      assert (head + rest)[1..] == head[1..] + rest;
      CutAt(head[1..], rest);
      assert [head[0]] + head[1..] == head;
    }
  }

  lemma FieldJoin(tag: string, field: string, rest: string)
    requires forall i :: 0 <= i < |field| ==> field[i] != ' '
    requires rest != "" && rest[0] == ' '
    ensures Field(tag, Join(tag, field, rest)) == Some((field, rest))
  {
    assert Join(tag, field, rest)[|tag|..] == field + rest;
    CutAt(field, rest);
  }

  lemma JoinStarts(tag: string, field: string, rest: string)
    requires tag != "" && tag[0] == ' '
    ensures Join(tag, field, rest) != "" && Join(tag, field, rest)[0] == ' '
  {
  }

  lemma {:induction false} DecValid(n: nat)
    requires n <= MAX_NUMBER
    ensures ValidNumber(Dec(n)) && Undec(Dec(n)) == n
  {
    DecWidth(n);
    DecRoundTrip(n);
  }

  lemma HeaderRoundTrip(id: string, number: nat, digest: string)
    requires ValidId(id) && number <= MAX_NUMBER && HexDigest(digest)
    ensures ParseHeader(HeaderLine(id, number, digest)) == Some(Header(id, number, digest))
  {
    var d := Dec(number);
    var third := Join(H3, digest, H4);
    var second := Join(H2, d, third);
    DecValid(number);
    JoinStarts(H3, digest, H4);
    JoinStarts(H2, d, third);
    FieldJoin(H3, digest, H4);
    FieldJoin(H2, d, third);
    FieldJoin(H1, id, second);
  }

  /* ---- the region ---- */

  type Hash = string -> string

  /** The digest is 64 lower-case hexadecimal characters. */
  ghost predicate HexHash(hash: Hash) {
    forall s :: HexDigest(hash(s))
  }

  function Checksum(hash: Hash, id: string, number: nat, body: string): string {
    hash("v1\n" + id + "\n" + Dec(number) + "\n" + Lf(body))
  }

  predicate EndAt(t: string) {
    END_MARKER <= t &&
    var rest := t[|END_MARKER|..];
    rest == "" || rest[0] == '\n' || (|rest| > 1 && rest[0] == '\r' && rest[1] == '\n')
  }

  function EndWidth(t: string): (n: nat)
    requires EndAt(t)
    ensures n <= |t|
  {
    var rest := t[|END_MARKER|..];
    |END_MARKER| + if rest == "" then 0 else if rest[0] == '\n' then 1 else 2
  }

  /** The first closing marker at a line start: where it begins and where it ends. */
  function FindEnd(t: string, bol: bool): (span: Option<(nat, nat)>)
    ensures span.Some? ==> span.value.0 <= span.value.1 <= |t|
  {
    if t == "" then None
    else if bol && EndAt(t) then Some((0, EndWidth(t)))
    else
      match FindEnd(t[1..], t[0] == '\n')
      case None => None
      case Some((a, b)) => Some((a + 1, b + 1))
  }

  /** `value.partition(b"\n")`: the first line, whether a newline ended it, and the rest. */
  function FirstLine(t: string): (string, bool, string) {
    if t == "" then ("", false, "")
    else if t[0] == '\n' then ("", true, t[1..])
    else
      var (line, sep, rest) := FirstLine(t[1..]);
      ([t[0]] + line, sep, rest)
  }

  function DropCR(line: string): string {
    if line != "" && line[|line| - 1] == '\r' then line[..|line| - 1] else line
  }

  /** The region below a header, or why it is refused. */
  function ParseRegion(hash: Hash, h: Header, rest: string, bom: string): Result<Region, Refusal> {
    match FindEnd(rest, true)
    case None => Err(MissingClosing)
    case Some((start, end)) =>
      var body := Lf(rest[..start]);
      var tail := rest[end..];
      if HasReserved(body, true) || GeneratedProjection(tail) then Err(NestedClaims)
      else if Checksum(hash, h.id, h.number, body) != h.digest then Err(Edited)
      else Ok(Region(h.id, h.number, body, tail, bom))
  }

  /** `_parse`: None for a human file, else the managed region or a refusal. */
  function Parse(hash: Hash, data: string): Result<Option<Region>, Refusal> {
    var bom := if data != "" && data[0] == BOM then [BOM] else "";
    var value := StripBom(data);
    var (line, separated, rest) := FirstLine(value);
    match ParseHeader(DropCR(line))
    case None => if GeneratedProjection(value) then Err(MalformedHeader) else Ok(None)
    case Some(h) =>
      if !separated then Err(MissingRegion)
      else if (h.id == INDEX) != (h.number == 0) then Err(BadSequence)
      else
        match ParseRegion(hash, h, rest, bom)
        case Err(e) => Err(e)
        case Ok(region) => Ok(Some(region))
  }

  function EndLine(t: string): (r: string)
    ensures r != "" && r[|r| - 1] == '\n'
  {
    if t != "" && t[|t| - 1] == '\n' then t else t + "\n"
  }

  function BodyOf(text: string): string {
    EndLine(Lf(text))
  }

  /** The tail kept from the old file, with a final newline when it is not empty. */
  function TailOf(before: Option<Region>): string {
    if before.None? then DEFAULT_TAIL else if before.value.tail == "" then "" else EndLine(before.value.tail)
  }

  function BomOf(before: Option<Region>): string {
    if before.None? then "" else before.value.bom
  }

  /** The text of a managed file. */
  function Print(id: string, number: nat, digest: string, body: string, tail: string, bom: string): string {
    bom + (HeaderLine(id, number, digest) + "\n" + (body + (END_MARKER + "\n" + tail)))
  }

  /** `_wrap`. */
  function Wrap(hash: Hash, id: string, number: nat, text: string, before: Option<Region>): string {
    var body := BodyOf(text);
    Print(id, number, Checksum(hash, id, number, body), body, TailOf(before), BomOf(before))
  }
}
