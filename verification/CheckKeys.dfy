/** Check keys are 26 Crockford base-32 characters: comparing them as strings is
    comparing the numbers they spell, which is why `CheckStore.Key` is a number. */
module CheckKeys {
  import opened Ordering

  predicate KeyChar(c: char) {
    '0' <= c <= '9' || ('A' <= c <= 'Z' && c !in {'I', 'L', 'O', 'U'})
  }

  function Digit(c: char): (d: nat)
    requires KeyChar(c)
    ensures d < 32
  {
    var n := c as int;
    if c <= '9' then n - 48
    else if c <= 'H' then n - 65 + 10
    else if c <= 'K' then n - 74 + 18
    else if c <= 'N' then n - 77 + 20
    else if c <= 'T' then n - 80 + 22
    else n - 86 + 27
  }

  function Pow32(n: nat): (p: nat)
    ensures p >= 1
  {
    if n == 0 then 1 else 32 * Pow32(n - 1)
  }

  function Value(s: string): nat
    requires forall i :: 0 <= i < |s| ==> KeyChar(s[i])
  {
    if s == "" then 0 else Digit(s[0]) * Pow32(|s| - 1) + Value(s[1..])
  }

  lemma Scale(a: nat, b: nat, p: nat)
    requires a < b
    ensures a * p + p <= b * p
  {
    assert (a + 1) * p <= b * p;
  }

  lemma {:induction false} ValueBound(s: string)
    requires forall i :: 0 <= i < |s| ==> KeyChar(s[i])
    ensures Value(s) < Pow32(|s|)
  {
    if s != "" {
      ValueBound(s[1..]);
      Scale(Digit(s[0]), 32, Pow32(|s| - 1));
    }
  }

  lemma {:induction false} OrderIsNumeric(a: string, b: string)
    requires |a| == |b|
    requires forall i :: 0 <= i < |a| ==> KeyChar(a[i]) && KeyChar(b[i])
    ensures LexLess(a, b) <==> Value(a) < Value(b)
    ensures a == b <==> Value(a) == Value(b)
  {
    if a != "" {
      var p := Pow32(|a| - 1);
      ValueBound(a[1..]);
      ValueBound(b[1..]);
      OrderIsNumeric(a[1..], b[1..]);
      if a[0] < b[0] {
        Scale(Digit(a[0]), Digit(b[0]), p);
      } else if b[0] < a[0] {
        Scale(Digit(b[0]), Digit(a[0]), p);
      } else {
        assert a == b <==> a[1..] == b[1..] by {
          assert a == [a[0]] + a[1..] && b == [b[0]] + b[1..];
        }
      }
    }
  }
}
