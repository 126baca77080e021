/** What several parts of the node use. */
module Basics {

  function Min(a: int, b: int): int {
    if a < b then a else b
  }

  function Max(a: int, b: int): int {
    if a < b then b else a
  }

  function Reversed<T>(s: seq<T>): (r: seq<T>)
    ensures |r| == |s| && forall i :: 0 <= i < |s| ==> r[i] == s[|s| - 1 - i]
  {
    seq(|s|, i requires 0 <= i < |s| => s[|s| - 1 - i])
  }

  /** Some element of a finite set has a highest value. */
  lemma {:induction false} Maximal<T>(s: set<T>, f: T -> int) returns (m: T)
    requires s != {}
    ensures m in s && forall x :: x in s ==> f(x) <= f(m)
    decreases |s|
  {
    m :| m in s;
    if s != {m} {
      var y := Maximal(s - {m}, f);
      assert forall x :: x in s ==> x == m || x in s - {m};
      m := if f(y) > f(m) then y else m;
    }
  }
}
