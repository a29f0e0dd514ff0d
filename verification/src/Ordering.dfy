/**
 Sorting with removal of duplicates, as done by `sort_unstable` followed by `dedup`
 on vectors of strings and numbers.  The order is a parameter.
 */
module Ordering {
  ghost predicate StrictTotalOrder<T(!new)>(less: (T, T) -> bool) {
    && (forall a, b :: less(a, b) ==> !less(b, a))
    && (forall a, b, c :: less(a, b) && less(b, c) ==> less(a, c))
    && (forall a, b :: a == b || less(a, b) || less(b, a))
  }

  ghost predicate Ascending<T>(less: (T, T) -> bool, s: seq<T>) {
    forall i, j :: 0 <= i < j < |s| ==> less(s[i], s[j])
  }

  function Insert<T(==, !new)>(less: (T, T) -> bool, x: T, s: seq<T>): (r: seq<T>)
    ensures forall y :: y in r <==> y == x || y in s
  {
    if s == [] then [x]
    else if x == s[0] then s
    else if less(x, s[0]) then [x] + s
    else [s[0]] + Insert(less, x, s[1..])
  }

  function SortDedup<T(==, !new)>(less: (T, T) -> bool, s: seq<T>): (r: seq<T>)
    ensures forall y :: y in r <==> y in s
  {
    if s == [] then [] else Insert(less, s[0], SortDedup(less, s[1..]))
  }

  lemma {:induction false} InsertAscending<T(!new)>(less: (T, T) -> bool, x: T, s: seq<T>)
    requires StrictTotalOrder(less) && Ascending(less, s)
    ensures Ascending(less, Insert(less, x, s))
  {
    if s == [] || x == s[0] {
    } else if less(x, s[0]) {
      forall j | 0 <= j < |s| ensures less(x, s[j]) {
        if j > 0 { assert less(s[0], s[j]); }
      }
    } else {
      var rest := Insert(less, x, s[1..]);
      InsertAscending(less, x, s[1..]);
      forall j | 0 <= j < |rest| ensures less(s[0], rest[j]) {
        assert rest[j] in rest;
        if rest[j] != x {
          var k :| 0 <= k < |s[1..]| && s[1..][k] == rest[j];
          assert less(s[0], s[k + 1]);
        }
      }
    }
  }

  lemma {:induction false} SortDedupAscending<T(!new)>(less: (T, T) -> bool, s: seq<T>)
    requires StrictTotalOrder(less)
    ensures Ascending(less, SortDedup(less, s))
  {
    if s != [] {
      SortDedupAscending(less, s[1..]);
      InsertAscending(less, s[0], SortDedup(less, s[1..]));
    }
  }

  /** An ascending list is determined by the elements it holds. */
  lemma {:induction false} AscendingUnique<T(!new)>(less: (T, T) -> bool, a: seq<T>, b: seq<T>)
    requires StrictTotalOrder(less) && Ascending(less, a) && Ascending(less, b)
    requires forall y :: y in a <==> y in b
    ensures a == b
  {
    if a != [] { assert a[0] in b; }
    if b != [] {
      assert b[0] in a;
      HeadIsLeast(less, a, b[0]);
      HeadIsLeast(less, b, a[0]);
      forall y ensures y in a[1..] <==> y in b[1..] {
        TailMembers(less, a, y);
        TailMembers(less, b, y);
      }
      AscendingUnique(less, a[1..], b[1..]);
    }
  }

  lemma HeadIsLeast<T(!new)>(less: (T, T) -> bool, a: seq<T>, y: T)
    requires StrictTotalOrder(less) && Ascending(less, a) && a != []
    ensures y in a ==> y == a[0] || less(a[0], y)
  {}

  lemma TailMembers<T(!new)>(less: (T, T) -> bool, a: seq<T>, y: T)
    requires StrictTotalOrder(less) && Ascending(less, a) && a != []
    ensures y in a[1..] <==> y in a && y != a[0]
  {
    if y in a[1..] {
      var k :| 0 <= k < |a[1..]| && a[1..][k] == y;
      assert less(a[0], a[k + 1]);
    }
  }

  /** The normal form decides set equality: two lists sort to the same list exactly when
      they hold the same elements. */
  lemma SortDedupCanonical<T(!new)>(less: (T, T) -> bool, a: seq<T>, b: seq<T>)
    requires StrictTotalOrder(less)
    ensures SortDedup(less, a) == SortDedup(less, b) <==> (forall y :: y in a <==> y in b)
  {
    SortDedupAscending(less, a);
    SortDedupAscending(less, b);
    if forall y :: y in a <==> y in b {
      AscendingUnique(less, SortDedup(less, a), SortDedup(less, b));
    }
    if SortDedup(less, a) == SortDedup(less, b) {
      forall y ensures y in a <==> y in b {
        assert y in SortDedup(less, a) <==> y in a;
        assert y in SortDedup(less, b) <==> y in b;
      }
    }
  }

  lemma SortDedupFixed<T(!new)>(less: (T, T) -> bool, s: seq<T>)
    requires StrictTotalOrder(less) && Ascending(less, s)
    ensures SortDedup(less, s) == s
  {
    SortDedupAscending(less, s);
    AscendingUnique(less, SortDedup(less, s), s);
  }

  predicate IntLess(a: int, b: int) { a < b }

  lemma IntLessOrder()
    ensures StrictTotalOrder(IntLess)
  {}

  /** Strings compare by code point, which is the byte order of their UTF-8 form. */
  predicate StringLess(a: string, b: string) {
    b != [] && (a == [] || a[0] < b[0] || (a[0] == b[0] && StringLess(a[1..], b[1..])))
  }

  lemma {:induction false} StringLessAsym(a: string, b: string)
    requires StringLess(a, b)
    ensures !StringLess(b, a)
  {
    if a != [] && a[0] == b[0] { StringLessAsym(a[1..], b[1..]); }
  }

  lemma {:induction false} StringLessTrans(a: string, b: string, c: string)
    requires StringLess(a, b) && StringLess(b, c)
    ensures StringLess(a, c)
  {
    if a != [] && a[0] == b[0] == c[0] { StringLessTrans(a[1..], b[1..], c[1..]); }
  }

  lemma {:induction false} StringLessTotal(a: string, b: string)
    ensures a == b || StringLess(a, b) || StringLess(b, a)
  {
    if a != [] && b != [] && a[0] == b[0] {
      StringLessTotal(a[1..], b[1..]);
      assert a == [a[0]] + a[1..] && b == [b[0]] + b[1..];
    }
  }

  lemma StringLessOrder()
    ensures StrictTotalOrder(StringLess)
  {
    forall a: string, b: string ensures StringLess(a, b) ==> !StringLess(b, a) {
      if StringLess(a, b) { StringLessAsym(a, b); }
    }
    forall a: string, b: string, c: string
      ensures StringLess(a, b) && StringLess(b, c) ==> StringLess(a, c)
    {
      if StringLess(a, b) && StringLess(b, c) { StringLessTrans(a, b, c); }
    }
    forall a: string, b: string ensures a == b || StringLess(a, b) || StringLess(b, a) {
      StringLessTotal(a, b);
    }
  }
}
