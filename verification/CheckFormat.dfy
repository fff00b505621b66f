/** A format that keeps the encoder's promises, so that theorems about lawful formats say something. */
module CheckFormat {
  import opened Wrappers
  import opened CheckStore

  /** `n` ones and an end mark. */
  function Unary(n: nat): Bytes {
    if n == 0 then [66] else [65] + Unary(n - 1)
  }

  function Spelled(ns: seq<nat>): Bytes {
    if ns == [] then [] else Unary(ns[0]) + Spelled(ns[1..])
  }

  lemma {:induction false} UnaryApart(m: nat, n: nat, a: Bytes, b: Bytes)
    requires Unary(m) + a == Unary(n) + b
    ensures m == n && a == b
  {
    assert (Unary(m) + a)[0] == (Unary(n) + b)[0];
    if m == 0 || n == 0 {
      assert a == (Unary(m) + a)[1..] && b == (Unary(n) + b)[1..];
    } else {
      assert Unary(m - 1) + a == (Unary(m) + a)[1..] && Unary(n - 1) + b == (Unary(n) + b)[1..];
      UnaryApart(m - 1, n - 1, a, b);
    }
  }

  lemma {:induction false} SpelledApart(a: seq<nat>, b: seq<nat>)
    requires Spelled(a) == Spelled(b)
    ensures a == b
  {
    if a != [] && b != [] {
      UnaryApart(a[0], b[0], Spelled(a[1..]), Spelled(b[1..]));
      SpelledApart(a[1..], b[1..]);
      assert a == [a[0]] + a[1..] && b == [b[0]] + b[1..];
    }
  }

  predicate Marks(bytes: Bytes) {
    bytes != [] && bytes[|bytes| - 1] == 66 && forall i :: 0 <= i < |bytes| ==> bytes[i] == 65 || bytes[i] == 66
  }

  lemma {:induction false} UnaryMarks(n: nat)
    ensures Marks(Unary(n))
  {
    if n > 0 { UnaryMarks(n - 1); }
  }

  lemma {:induction false} SpelledMarks(ns: seq<nat>)
    requires ns != []
    ensures Marks(Spelled(ns))
  {
    UnaryMarks(ns[0]);
    if |ns| > 1 { SpelledMarks(ns[1..]); }
  }

  function Codes(s: string): seq<nat> {
    seq(|s|, i requires 0 <= i < |s| => s[i] as int)
  }

  /** Every field of an encodable body as a number. */
  function Numbers(b: Body): seq<nat> {
    [if b.id.Some? then b.id.value + 1 else 0, if b.decision.Some? then |b.decision.value| + 1 else 0,
     if b.valid then 1 else 0, if b.hasNaN then 1 else 0]
    + (if b.decision.Some? then Codes(b.decision.value) else []) + Codes(b.rest)
  }

  lemma CodesApart(a: string, b: string)
    requires Codes(a) == Codes(b)
    ensures a == b
  {
    assert |a| == |Codes(a)| == |b|;
    forall i | 0 <= i < |a| ensures a[i] == b[i] {
      assert Codes(a)[i] == Codes(b)[i];
    }
  }

  lemma NumbersApart(a: Body, b: Body)
    requires a.encodable && b.encodable && Numbers(a) == Numbers(b)
    ensures a == b
  {
    var x, y := Numbers(a), Numbers(b);
    assert x[0] == y[0] && x[1] == y[1] && x[2] == y[2] && x[3] == y[3];
    if a.decision.Some? {
      var n := 4 + |a.decision.value|;
      assert x[4..n] == Codes(a.decision.value) && y[4..n] == Codes(b.decision.value);
      assert x[n..] == Codes(a.rest) && y[n..] == Codes(b.rest);
      CodesApart(a.decision.value, b.decision.value);
    } else {
      assert x[4..] == Codes(a.rest) && y[4..] == Codes(b.rest);
    }
    CodesApart(a.rest, b.rest);
  }

  function Encode(b: Body): Option<Bytes> {
    if b.encodable then Some(Spelled(Numbers(b))) else None
  }

  ghost predicate Encodes(b: Body, line: Bytes) {
    Encode(b) == Some(line)
  }

  ghost function Decode(line: Bytes): Option<Body> {
    if b :| Encodes(b, line) then Some(b) else None
  }

  ghost function Plain(): Format {
    Format((line: Bytes) => Decode(line), (b: Body) => Encode(b), (path: string) => None)
  }

  lemma DecodeEncode(b: Body)
    requires b.encodable
    ensures CleanLine(Encode(b).value) && Decode(Encode(b).value) == Some(b)
  {
    var line := Encode(b).value;
    SpelledMarks(Numbers(b));
    assert !Space(line[|line| - 1]);
    assert Encodes(b, line);
    var c := Decode(line).value;
    SpelledApart(Numbers(b), Numbers(c));
    NumbersApart(b, c);
  }

  lemma PlainIsLawful()
    ensures Lawful(Plain())
  {
    forall b: Body | b.encodable
      ensures CleanLine(Plain().encode(b).value) && Plain().decode(Plain().encode(b).value) == Some(b)
    {
      DecodeEncode(b);
    }
  }
}
