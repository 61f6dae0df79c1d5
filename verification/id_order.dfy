/**
 * The least element of a finite set of integers, found by a proof rather than
 * by search, so that the function that returns it stays deterministic.
 */
module SetMin {

  /** No element of `s` is smaller than `m`. */
  predicate LowerBound(m: int, s: set<int>) {
    forall x | x in s :: m <= x
  }

  /**
   * Every non-empty finite set of integers has a least element; the proof finds it.
   * Non-emptiness is stated as the existence of an element, which the callers
   * establish by naming one.
   */
  lemma {:induction false} FindLeast(s: set<int>) returns (m: int)
    requires exists y :: y in s
    ensures m in s && LowerBound(m, s)
    decreases s
  {
    var y :| y in s;
    var rest := s - {y};
    if z :| z in rest {
      var k := FindLeast(rest);
      m := if y < k then y else k;
      forall x | x in s
        ensures m <= x
      {
        if x != y {
          assert x in rest;
        }
      }
    } else {
      m := y;
      forall x | x in s
        ensures m <= x
      {
        assert x !in rest;
      }
    }
  }

  lemma LeastExists(s: set<int>)
    requires exists y :: y in s
    ensures exists m :: m in s && LowerBound(m, s)
  {
    var m := FindLeast(s);
  }

  /** The least element of a non-empty set. */
  function Least(s: set<int>): (m: int)
    requires exists y :: y in s
    ensures m in s
    ensures forall x | x in s :: m <= x
  {
    LeastExists(s);
    var m :| m in s && LowerBound(m, s);
    m
  }
}

/**
 * Ascending order of a finite set of ids. The listing query has no ORDER BY;
 * the model fixes ascending post id as the order in which rows come back.
 */
module IdOrder {
  import opened SetMin

  /** Each element is smaller than every later one. */
  predicate StrictlyAscending(s: seq<int>) {
    forall i, j | 0 <= i < j < |s| :: s[i] < s[j]
  }

  /** The elements of `s`, each once, in ascending order. */
  function Ascending(s: set<int>): (r: seq<int>)
    ensures StrictlyAscending(r)
    ensures forall x :: x in r <==> x in s
    ensures |r| == |s|
    decreases |s|
  {
    if y :| y in s then
      var m := Least(s);
      [m] + Ascending(s - {m})
    else
      assert s == {};
      []
  }
}
