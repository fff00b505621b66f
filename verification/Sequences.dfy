/** Mapping over sequences, and what reordering a sequence leaves alone. */
module Sequences {
  function Map<A, B>(f: A -> B, s: seq<A>): (r: seq<B>)
    ensures |r| == |s|
    ensures forall i :: 0 <= i < |s| ==> r[i] == f(s[i])
  {
    if s == [] then [] else Map(f, s[..|s| - 1]) + [f(s[|s| - 1])]
  }

  lemma {:induction false} MapConcat<A, B>(f: A -> B, a: seq<A>, b: seq<A>)
    ensures Map(f, a + b) == Map(f, a) + Map(f, b)
  {
  }

  lemma {:induction false} MapLast<A, B>(f: A -> B, a: seq<A>, x: A)
    ensures Map(f, a + [x]) == Map(f, a) + [f(x)]
  {
    assert (a + [x])[..|a|] == a;
  }

  /** Taking one element out of the middle. */
  lemma Around<A>(front: seq<A>, x: A, back: seq<A>)
    ensures multiset((front + [x]) + back) == multiset(front + back) + multiset{x}
  {
  }

  /** The parts of `b` around one of its elements. */
  lemma SplitAt<A>(b: seq<A>, x: A) returns (front: seq<A>, back: seq<A>)
    requires x in b
    ensures b == (front + [x]) + back
  {
    var k :| 0 <= k < |b| && b[k] == x;
    front, back := b[..k], b[k + 1..];
  }

  lemma CancelOne<A>(a: multiset<A>, b: multiset<A>, x: A)
    requires a + multiset{x} == b + multiset{x}
    ensures a == b
  {
    assert a == (a + multiset{x}) - multiset{x};
    assert b == (b + multiset{x}) - multiset{x};
  }

  /** The last element of one sequence, found in another with the same elements. */
  lemma TakeOut<A>(a: seq<A>, x: A, b: seq<A>) returns (front: seq<A>, back: seq<A>)
    requires multiset(a + [x]) == multiset(b)
    ensures b == (front + [x]) + back && multiset(a) == multiset(front + back)
  {
    assert x in multiset(b);
    front, back := SplitAt(b, x);
    Around(front, x, back);
    assert multiset(a + [x]) == multiset(a) + multiset{x};
    CancelOne(multiset(a), multiset(front + back), x);
  }

  lemma {:induction false} MapAround<A, B>(f: A -> B, front: seq<A>, x: A, back: seq<A>)
    ensures multiset(Map(f, (front + [x]) + back)) == multiset(Map(f, front + back)) + multiset{f(x)}
  {
    MapConcat(f, front + [x], back);
    MapLast(f, front, x);
    MapConcat(f, front, back);
    Around(Map(f, front), f(x), Map(f, back));
  }

  lemma {:induction false} MapReordered<A, B>(f: A -> B, a: seq<A>, b: seq<A>)
    requires multiset(a) == multiset(b)
    ensures multiset(Map(f, a)) == multiset(Map(f, b))
    decreases |a|
  {
    if a == [] {
      assert |multiset(b)| == 0;
      assert b == [];
    } else {
      var init, x := a[..|a| - 1], a[|a| - 1];
      assert a == init + [x];
      var front, back := TakeOut(init, x, b);
      MapReordered(f, init, front + back);
      MapLast(f, init, x);
      MapAround(f, front, x, back);
    }
  }
}
