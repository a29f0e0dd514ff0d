/** Sums over finite sets, used to state conservation laws over database tables. */
module Sums {
  ghost function SumOver<K(!new)>(s: set<K>, f: K -> int): int {
    if s == {} then 0 else
      var x :| x in s;
      f(x) + SumOver(s - {x}, f)
  }

  /** Any element may be split off the sum, not only the one the definition picks. */
  lemma {:induction false} SumRemove<K(!new)>(s: set<K>, f: K -> int, x: K)
    requires x in s
    ensures SumOver(s, f) == f(x) + SumOver(s - {x}, f)
    decreases s
  {
    var y :| y in s && SumOver(s, f) == f(y) + SumOver(s - {y}, f);
    if x != y {
      SumRemove(s - {y}, f, x);
      SumRemove(s - {x}, f, y);
      assert s - {y} - {x} == s - {x} - {y};
    }
  }

  lemma {:induction false} SumCongruent<K(!new)>(s: set<K>, f: K -> int, g: K -> int)
    requires forall x :: x in s ==> f(x) == g(x)
    ensures SumOver(s, f) == SumOver(s, g)
    decreases s
  {
    if s != {} {
      var y :| y in s && SumOver(s, f) == f(y) + SumOver(s - {y}, f);
      SumRemove(s, g, y);
      SumCongruent(s - {y}, f, g);
    }
  }

  lemma {:induction false} SumNonNegative<K(!new)>(s: set<K>, f: K -> int)
    requires forall x :: x in s ==> f(x) >= 0
    ensures SumOver(s, f) >= 0
    decreases s
  {
    if s != {} {
      var y :| y in s && SumOver(s, f) == f(y) + SumOver(s - {y}, f);
      SumNonNegative(s - {y}, f);
    }
  }
}
