/** The latest of a set of times. */
module Instants {
  lemma {:induction false} LatestExists(s: set<int>)
    requires exists k :: k in s
    ensures exists m :: m in s && forall k :: k in s ==> k <= m
    decreases |s|
  {
    var k :| k in s;
    var rest := s - {k};
    if j :| j in rest {
      LatestExists(rest);
      var m :| m in rest && forall j :: j in rest ==> j <= m;
      var top := if k >= m then k else m;
      assert forall j :: j in s ==> j == k || j in rest;
      assert top in s && forall j :: j in s ==> j <= top;
    } else {
      assert forall j :: j in s ==> j == k || j in rest;
    }
  }

  /** The largest of a non-empty set of times. */
  function LatestOf(s: set<int>): (m: int)
    requires exists k :: k in s
    ensures m in s && forall k :: k in s ==> k <= m
  {
    LatestExists(s);
    var m :| m in s && forall k :: k in s ==> k <= m;
    m
  }
}
