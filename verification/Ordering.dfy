/** Strict total orders, the sorted list of a finite set, and Python's string order. */
module Ordering {
  /** Code-point order of strings, as Python compares them. */
  predicate LexLess(a: string, b: string) {
    if b == "" then false
    else if a == "" then true
    else a[0] < b[0] || (a[0] == b[0] && LexLess(a[1..], b[1..]))
  }

  /** The order of lists of strings. */
  predicate ListLess(a: seq<string>, b: seq<string>) {
    if b == [] then false
    else if a == [] then true
    else LexLess(a[0], b[0]) || (a[0] == b[0] && ListLess(a[1..], b[1..]))
  }

  predicate PairLess(a: (string, string), b: (string, string)) {
    LexLess(a.0, b.0) || (a.0 == b.0 && LexLess(a.1, b.1))
  }

  ghost predicate StrictTotal<T(!new)>(less: (T, T) -> bool) {
    && (forall a, b :: less(a, b) ==> !less(b, a))
    && (forall a, b :: a == b || less(a, b) || less(b, a))
    && (forall a, b, c :: less(a, b) && less(b, c) ==> less(a, c))
  }

  lemma {:induction false} LexAsym(a: string, b: string)
    ensures !(LexLess(a, b) && LexLess(b, a))
  {
    if a != "" && b != "" { LexAsym(a[1..], b[1..]); }
  }

  lemma {:induction false} LexConnected(a: string, b: string)
    ensures a == b || LexLess(a, b) || LexLess(b, a)
  {
    if a != "" && b != "" {
      LexConnected(a[1..], b[1..]);
      if a[1..] == b[1..] { assert a == [a[0]] + a[1..] && b == [b[0]] + b[1..]; }
    }
  }

  lemma {:induction false} LexTransitive(a: string, b: string, c: string)
    requires LexLess(a, b) && LexLess(b, c)
    ensures LexLess(a, c)
  {
    if a != "" && a[0] == b[0] == c[0] { LexTransitive(a[1..], b[1..], c[1..]); }
  }

  lemma LexTotal()
    ensures StrictTotal(LexLess)
  {
    forall a, b ensures !(LexLess(a, b) && LexLess(b, a)) { LexAsym(a, b); }
    forall a, b ensures a == b || LexLess(a, b) || LexLess(b, a) { LexConnected(a, b); }
    forall a, b, c | LexLess(a, b) && LexLess(b, c) ensures LexLess(a, c) { LexTransitive(a, b, c); }
  }

  lemma {:induction false} ListConnected(a: seq<string>, b: seq<string>)
    ensures a == b || ListLess(a, b) || ListLess(b, a)
  {
    if a != [] && b != [] {
      LexConnected(a[0], b[0]);
      ListConnected(a[1..], b[1..]);
      if a[1..] == b[1..] { assert a == [a[0]] + a[1..] && b == [b[0]] + b[1..]; }
    }
  }

  lemma {:induction false} ListTransitive(a: seq<string>, b: seq<string>, c: seq<string>)
    requires ListLess(a, b) && ListLess(b, c)
    ensures ListLess(a, c)
  {
    if a != [] {
      if a[0] == b[0] == c[0] && !LexLess(a[0], b[0]) && !LexLess(b[0], c[0]) {
        ListTransitive(a[1..], b[1..], c[1..]);
      } else if LexLess(a[0], b[0]) && LexLess(b[0], c[0]) {
        LexTransitive(a[0], b[0], c[0]);
      }
    }
  }

  lemma PairTotal()
    ensures StrictTotal(PairLess)
  {
    LexTotal();
    forall a, b ensures !(PairLess(a, b) && PairLess(b, a)) {
      LexAsym(a.0, b.0);
      LexAsym(a.0, a.0);
      LexAsym(a.1, b.1);
    }
    forall a, b ensures a == b || PairLess(a, b) || PairLess(b, a) {
      LexConnected(a.0, b.0);
      LexConnected(a.1, b.1);
    }
    forall a, b, c | PairLess(a, b) && PairLess(b, c) ensures PairLess(a, c) {
      PairTransitive(a, b, c);
    }
  }

  lemma PairTransitive(a: (string, string), b: (string, string), c: (string, string))
    requires PairLess(a, b) && PairLess(b, c)
    ensures PairLess(a, c)
  {
    if LexLess(a.0, b.0) && LexLess(b.0, c.0) { LexTransitive(a.0, b.0, c.0); }
    if LexLess(a.1, b.1) && LexLess(b.1, c.1) { LexTransitive(a.1, b.1, c.1); }
  }

  predicate Increasing<T(!new)>(xs: seq<T>, less: (T, T) -> bool) {
    forall i, j :: 0 <= i < j < |xs| ==> less(xs[i], xs[j])
  }

  ghost predicate Least<T(!new)>(s: set<T>, less: (T, T) -> bool, m: T) {
    m in s && forall k :: k in s ==> k == m || less(m, k)
  }

  lemma LeastWith<T(!new)>(rest: set<T>, less: (T, T) -> bool, m: T, x: T)
    requires StrictTotal(less) && Least(rest, less, m)
    ensures Least(rest + {x}, less, if less(x, m) then x else m)
  {
    forall k | k in rest && less(x, m) ensures k == x || less(x, k) {
      assert k == m || less(m, k);
    }
  }

  lemma {:induction false} MinExists<T(!new)>(s: set<T>, less: (T, T) -> bool)
    requires StrictTotal(less) && s != {}
    ensures exists m :: Least(s, less, m)
  {
    var x :| x in s;
    var rest := s - {x};
    if rest == {} {
      assert s == {x};
      assert Least(s, less, x);
    } else {
      MinExists(rest, less);
      var m :| Least(rest, less, m);
      LeastWith(rest, less, m, x);
      assert s == rest + {x};
    }
  }

  /** Python's `sorted` on the elements of a set. */
  function Sorted<T(!new,==)>(s: set<T>, less: (T, T) -> bool): (r: seq<T>)
    requires StrictTotal(less)
    ensures Increasing(r, less)
    ensures forall x :: x in r <==> x in s
  {
    if s == {} then []
    else
      MinExists(s, less);
      assert exists m :: m in s && forall k :: k in s ==> k == m || less(m, k) by {
        var m :| Least(s, less, m);
      }
      var m :| m in s && forall k :: k in s ==> k == m || less(m, k);
      [m] + Sorted(s - {m}, less)
  }

  lemma {:induction false} SortedSize<T(!new)>(s: set<T>, less: (T, T) -> bool)
    requires StrictTotal(less)
    ensures |Sorted(s, less)| == |s|
    decreases |s|
  {
    if s != {} {
      MinExists(s, less);
      var m := Sorted(s, less)[0];
      assert Sorted(s, less) == [m] + Sorted(s - {m}, less);
      SortedSize(s - {m}, less);
      assert m in Sorted(s, less);
    }
  }

  function Slugs(s: set<string>): (r: seq<string>)
    ensures Increasing(r, LexLess)
    ensures forall x :: x in r <==> x in s
  {
    LexTotal();
    Sorted(s, LexLess)
  }

  /* ---- counting ---- */

  function Count<T(!new)>(xs: seq<T>, f: T -> bool): nat {
    if xs == [] then 0 else Count(xs[..|xs| - 1], f) + if f(xs[|xs| - 1]) then 1 else 0
  }

  lemma {:induction false} CountBound<T(!new)>(xs: seq<T>, f: T -> bool)
    ensures Count(xs, f) <= |xs|
    ensures Count(xs, f) == 0 <==> forall x :: x in xs ==> !f(x)
  {
    if xs != [] {
      CountBound(xs[..|xs| - 1], f);
      assert xs == xs[..|xs| - 1] + [xs[|xs| - 1]];
    }
  }

  /** A count of one means no other position qualifies. */
  lemma {:induction false} CountOne<T(!new)>(xs: seq<T>, f: T -> bool, i: nat)
    requires i < |xs| && f(xs[i])
    ensures Count(xs, f) == 1 <==> forall j :: 0 <= j < |xs| && j != i ==> !f(xs[j])
  {
    var k := |xs| - 1;
    CountBound(xs[..k], f);
    if i < k {
      CountOne(xs[..k], f, i);
      assert xs[..k][i] == xs[i] && xs[i] in xs[..k];
      if f(xs[k]) { assert k != i; }
      assert Count(xs, f) == 1 ==> !f(xs[k]);
    } else {
      assert forall j :: 0 <= j < k ==> xs[j] in xs[..k];
    }
  }

  function Keep<T(!new)>(xs: seq<T>, f: T -> bool): (r: seq<T>)
    ensures forall x :: x in r <==> x in xs && f(x)
  {
    if xs == [] then []
    else
      assert xs == xs[..|xs| - 1] + [xs[|xs| - 1]];
      Keep(xs[..|xs| - 1], f) + if f(xs[|xs| - 1]) then [xs[|xs| - 1]] else []
  }
}
