/** Largest and smallest elements of finite sets of numbers, and the size of ranges. */
module Bounds {
  lemma MaxExists(s: set<nat>)
    requires s != {}
    ensures exists m :: m in s && forall k :: k in s ==> k <= m
  {
    var k :| k in s;
    if s != {k} {
      var rest := s - {k};
      MaxExists(rest);
      var m :| m in rest && forall j :: j in rest ==> j <= m;
      var top := if k >= m then k else m;
      assert forall j :: j in s ==> j == k || j in rest;
      assert top in s && forall j :: j in s ==> j <= top;
    }
  }

  /** Python's `max({0, *s})`. */
  function MaxOf(s: set<nat>): (m: nat)
    ensures forall k :: k in s ==> k <= m
    ensures m == 0 || m in s
  {
    if s == {} then 0
    else
      MaxExists(s);
      var m :| m in s && forall k :: k in s ==> k <= m;
      m
  }

  lemma MinExists(s: set<nat>)
    requires s != {}
    ensures exists m :: m in s && forall k :: k in s ==> m <= k
  {
    var k :| k in s;
    if s != {k} {
      var rest := s - {k};
      MinExists(rest);
      var m :| m in rest && forall j :: j in rest ==> m <= j;
      var low := if k <= m then k else m;
      assert forall j :: j in s ==> j == k || j in rest;
      assert low in s && forall j :: j in s ==> low <= j;
    }
  }

  function MinOf(s: set<nat>): (m: nat)
    requires s != {}
    ensures m in s && forall k :: k in s ==> m <= k
  {
    MinExists(s);
    var m :| m in s && forall k :: k in s ==> m <= k;
    m
  }

  /** The numbers above `lo`, up to `lo + n`. */
  function Range(lo: nat, n: nat): (r: set<nat>)
    ensures forall k :: k in r <==> lo < k <= lo + n
  {
    if n == 0 then {} else Range(lo, n - 1) + {lo + n}
  }

  lemma {:induction false} RangeSize(lo: nat, n: nat)
    ensures |Range(lo, n)| == n
  {
    if n > 0 {
      RangeSize(lo, n - 1);
      assert Range(lo, n) == Range(lo, n - 1) + {lo + n};
    }
  }

  lemma SubsetSize<T>(a: set<T>, b: set<T>)
    requires a <= b
    ensures |a| <= |b|
  {
    assert b == a + (b - a);
  }

  /** A set that lies within `n` numbers has at most `n` elements. */
  lemma RangeBound(s: set<nat>, lo: nat, n: nat)
    requires forall k :: k in s ==> lo < k <= lo + n
    ensures |s| <= n
  {
    RangeSize(lo, n);
    SubsetSize(s, Range(lo, n));
  }

  lemma {:induction false} SizeBelow(s: set<nat>, n: nat)
    requires forall k :: k in s ==> k < n
    ensures |s| <= n
    decreases n
  {
    if n == 0 {
      assert s == {};
    } else {
      SizeBelow(s - {n - 1}, n - 1);
      SubsetSize(s, (s - {n - 1}) + {n - 1});
    }
  }
}
