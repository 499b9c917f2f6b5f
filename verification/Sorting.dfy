/** What the analyses use of the standard library: sorting and `partition_point`. */
module Sorting {

  ghost predicate Ordered(s: seq<nat>) {
    forall i, j :: 0 <= i < j < |s| ==> s[i] <= s[j]
  }

  function Insert(s: seq<nat>, x: nat): (r: seq<nat>)
    ensures multiset(r) == multiset(s) + multiset{x}
  {
    if s == [] then [x]
    else
      assert s == [s[0]] + s[1..];
      if x <= s[0] then [x] + s else [s[0]] + Insert(s[1..], x)
  }

  /** `sort_unstable` on numbers, where equal elements cannot be told apart. */
  function Sort(s: seq<nat>): (r: seq<nat>)
    ensures multiset(r) == multiset(s) && |r| == |s|
  {
    if s == [] then []
    else
      assert s == [s[0]] + s[1..];
      Insert(Sort(s[1..]), s[0])
  }

  lemma {:induction false} InsertOrdered(s: seq<nat>, x: nat)
    requires Ordered(s)
    ensures Ordered(Insert(s, x))
  {
    if s != [] && x > s[0] {
      InsertOrdered(s[1..], x);
      var r := Insert(s[1..], x);
      forall i | 0 <= i < |r|
        ensures s[0] <= r[i]
      {
        assert r[i] in multiset(r);
        assert r[i] in multiset(s[1..]) || r[i] == x;
      }
    }
  }

  lemma {:induction false} SortOrdered(s: seq<nat>)
    ensures Ordered(Sort(s))
  {
    if s != [] {
      SortOrdered(s[1..]);
      InsertOrdered(Sort(s[1..]), s[0]);
    }
  }

  lemma SameElements(s: seq<nat>, x: nat)
    ensures x in Sort(s) <==> x in s
  {
    hide Sort;
    assert x in Sort(s) <==> x in multiset(Sort(s));
    assert x in s <==> x in multiset(s);
  }

  /** The elements that satisfy `p` come first. */
  ghost predicate Partitioned<A(!new)>(s: seq<A>, p: A -> bool) {
    forall i, j :: 0 <= i < j < |s| && p(s[j]) ==> p(s[i])
  }

  /** `partition_point`: binary search for the first element that does not satisfy `p`. */
  method PartitionPoint<A(!new)>(s: seq<A>, p: A -> bool) returns (k: nat)
    requires Partitioned(s, p)
    ensures k <= |s|
    ensures (forall i :: 0 <= i < k ==> p(s[i])) && (forall i :: k <= i < |s| ==> !p(s[i]))
  {
    var lo, hi := 0, |s|;
    while lo < hi
      invariant 0 <= lo <= hi <= |s|
      invariant (forall i :: 0 <= i < lo ==> p(s[i])) && (forall i :: hi <= i < |s| ==> !p(s[i]))
    {
      var mid := (lo + hi) / 2;
      if p(s[mid]) {
        lo := mid + 1;
      } else {
        hi := mid;
      }
    }
    k := lo;
  }
}
