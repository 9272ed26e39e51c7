/** Python's list comprehensions [f(x) for x in s] and [f(x) for x in s if keep(x)]. */
module Comprehension {

  function FilterMap<A, B>(keep: A -> bool, f: A -> B, s: seq<A>): seq<B>
  {
    if s == [] then [] else (if keep(s[0]) then [f(s[0])] else []) + FilterMap(keep, f, s[1..])
  }

  /** A value is produced exactly when some kept element maps to it. */
  lemma {:induction false} FilterMapMembers<A, B>(keep: A -> bool, f: A -> B, s: seq<A>, y: B)
    ensures y in FilterMap(keep, f, s) <==> exists x :: x in s && keep(x) && f(x) == y
  {
    if s != [] {
      FilterMapMembers(keep, f, s[1..], y);
      assert forall x :: x in s <==> x == s[0] || x in s[1..];
    }
  }

  /** The number of kept elements of s that map to y. */
  function CountMapped<A, B(==)>(keep: A -> bool, f: A -> B, s: seq<A>, y: B): nat
  {
    if s == [] then 0
    else
      var here := if keep(s[0]) && f(s[0]) == y then 1 else 0;
      here + CountMapped(keep, f, s[1..], y)
  }

  /** Each value is produced as often as kept elements map to it. */
  lemma {:induction false} FilterMapMultiplicity<A, B>(keep: A -> bool, f: A -> B, s: seq<A>, y: B)
    ensures multiset(FilterMap(keep, f, s))[y] == CountMapped(keep, f, s, y)
  {
    if s != [] {
      FilterMapMultiplicity(keep, f, s[1..], y);
    }
  }

  /** Elements are taken in order: a comprehension over two parts is the two comprehensions. */
  lemma {:induction false} FilterMapAppend<A, B>(keep: A -> bool, f: A -> B, a: seq<A>, b: seq<A>)
    ensures FilterMap(keep, f, a + b) == FilterMap(keep, f, a) + FilterMap(keep, f, b)
  {
    if a == [] {
      assert a + b == b;
    } else {
      var head := if keep(a[0]) then [f(a[0])] else [];
      assert (a + b)[0] == a[0];
      assert (a + b)[1..] == a[1..] + b;
      assert FilterMap(keep, f, a + b) == head + FilterMap(keep, f, a[1..] + b);
      FilterMapAppend(keep, f, a[1..], b);
      assert FilterMap(keep, f, a) == head + FilterMap(keep, f, a[1..]);
    }
  }

  /** [f(x) for x in s]. */
  function MapSeq<A, B>(f: A -> B, s: seq<A>): (r: seq<B>)
    ensures |r| == |s|
    ensures forall i :: 0 <= i < |s| ==> r[i] == f(s[i])
  {
    if s == [] then [] else [f(s[0])] + MapSeq(f, s[1..])
  }

  lemma MapSeqSnoc<A, B>(f: A -> B, s: seq<A>, x: A)
    ensures MapSeq(f, s + [x]) == MapSeq(f, s) + [f(x)]
  {
  }
}
