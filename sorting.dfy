/** Python's sorted(), over any total order: insertion sort, and the fact that a sorted
    permutation is unique, so the result does not depend on the algorithm used. */
module Sorting {

  ghost predicate TotalOrder<T(!new)>(le: (T, T) -> bool)
  {
    && (forall x, y :: le(x, y) || le(y, x))
    && (forall x, y :: le(x, y) && le(y, x) ==> x == y)
    && (forall x, y, z :: le(x, y) && le(y, z) ==> le(x, z))
  }

  /** Ascending with respect to le. */
  predicate SortedBy<T>(le: (T, T) -> bool, s: seq<T>)
  {
    forall i, j :: 0 <= i < j < |s| ==> le(s[i], s[j])
  }

  /** Insertion of x into a sorted list. */
  function Insert<T(!new)>(le: (T, T) -> bool, x: T, s: seq<T>): (r: seq<T>)
    requires TotalOrder(le) && SortedBy(le, s)
    ensures SortedBy(le, r)
    ensures multiset(r) == multiset(s) + multiset{x}
  {
    if s == [] then [x]
    else if le(x, s[0]) then
      InsertAtHead(le, x, s);
      [x] + s
    else
      var rest := Insert(le, x, s[1..]);
      assert s == [s[0]] + s[1..];
      InsertBehindHead(le, x, s, rest);
      [s[0]] + rest
  }

  /** Putting the head of s back in front of x inserted into the tail keeps the order. */
  lemma InsertBehindHead<T(!new)>(le: (T, T) -> bool, x: T, s: seq<T>, rest: seq<T>)
    requires TotalOrder(le) && SortedBy(le, s) && s != [] && !le(x, s[0])
    requires SortedBy(le, rest) && multiset(rest) == multiset(s[1..]) + multiset{x}
    ensures SortedBy(le, [s[0]] + rest)
  {
    forall k | 0 <= k < |rest| ensures le(s[0], rest[k]) {
      assert rest[k] in multiset(rest);
      if rest[k] != x {
        assert rest[k] in s[1..];
      }
    }
    forall i, j | 0 <= i < j < |rest| + 1 ensures le(([s[0]] + rest)[i], ([s[0]] + rest)[j]) {
      if i > 0 {
        assert le(rest[i - 1], rest[j - 1]);
      }
    }
  }

  /** x at most the head of a sorted s goes in front. */
  lemma InsertAtHead<T(!new)>(le: (T, T) -> bool, x: T, s: seq<T>)
    requires TotalOrder(le) && SortedBy(le, s) && s != [] && le(x, s[0])
    ensures SortedBy(le, [x] + s)
  {
    forall j | 0 <= j < |s| ensures le(x, s[j]) {
      if j > 0 {
        assert le(s[0], s[j]);
      }
    }
  }

  /** sorted(s): an ascending permutation of s. */
  function Sort<T(!new)>(le: (T, T) -> bool, s: seq<T>): (r: seq<T>)
    requires TotalOrder(le)
    ensures SortedBy(le, r)
    ensures multiset(r) == multiset(s)
  {
    if s == [] then []
    else
      assert s == [s[0]] + s[1..];
      Insert(le, s[0], Sort(le, s[1..]))
  }

  /** The head of a sorted list is at most any of its elements. */
  lemma SortedHeadIsLeast<T(!new)>(le: (T, T) -> bool, a: seq<T>, x: T)
    requires TotalOrder(le) && SortedBy(le, a) && x in multiset(a)
    ensures le(a[0], x)
  {
    var j :| 0 <= j < |a| && a[j] == x;
    if j == 0 {
      assert le(x, x) || le(x, x);
    }
  }

  /** Two ascending lists with the same elements are equal. */
  lemma {:induction false} SortedUnique<T(!new)>(le: (T, T) -> bool, a: seq<T>, b: seq<T>)
    requires TotalOrder(le) && SortedBy(le, a) && SortedBy(le, b) && multiset(a) == multiset(b)
    ensures a == b
  {
    if a != [] {
      assert a[0] in multiset(b);
      SortedHeadIsLeast(le, b, a[0]);
      SortedHeadIsLeast(le, a, b[0]);
      assert a == [a[0]] + a[1..];
      assert b == [b[0]] + b[1..];
      assert multiset(a[1..]) == multiset(a) - multiset{a[0]};
      assert multiset(b[1..]) == multiset(b) - multiset{b[0]};
      SortedUnique(le, a[1..], b[1..]);
    }
  }
}
