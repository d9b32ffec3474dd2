/**
 Counting the rows of a table that satisfy a condition: SELECT count(*) ... WHERE.
 */
module Counting {

  function CountIf<T>(rows: seq<T>, p: T -> bool): nat {
    if rows == [] then 0 else CountIf(rows[..|rows| - 1], p) + (if p(rows[|rows| - 1]) then 1 else 0)
  }

  ghost function Places<T>(rows: seq<T>, p: T -> bool): set<int> {
    set i | 0 <= i < |rows| && p(rows[i])
  }

  /** The count is the number of places that satisfy the condition. */
  lemma {:induction false} CountIsSize<T>(rows: seq<T>, p: T -> bool)
    ensures CountIf(rows, p) == |Places(rows, p)|
  {
    if rows == [] {
      assert Places(rows, p) == {};
    } else {
      var n := |rows| - 1;
      CountIsSize(rows[..n], p);
      var fewer := Places(rows[..n], p);
      if p(rows[n]) {
        assert Places(rows, p) == fewer + {n};
      } else {
        assert Places(rows, p) == fewer;
      }
    }
  }
}
