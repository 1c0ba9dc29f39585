/** Small vocabulary shared by every component: options, results, and the
    operations on duplicate-free sequences that model `OrderedDict` key order. */
module Basics {

  datatype Option<+T> = None | Some(value: T)

  datatype Result<+T, +E> = Success(value: T) | Failure(error: E)

  predicate Distinct<T(==)>(s: seq<T>) {
    forall i, j :: 0 <= i < j < |s| ==> s[i] != s[j]
  }

  /** Position of the first occurrence of `x`. */
  function IndexOf<T(==)>(s: seq<T>, x: T): (k: nat)
    requires x in s
    ensures k < |s| && s[k] == x && x !in s[..k]
  {
    if s[0] == x then 0 else 1 + IndexOf(s[1..], x)
  }

  lemma Dropped<T>(s: seq<T>, k: nat)
    requires k < |s|
    ensures var r := s[..k] + s[k + 1..];
            && (forall y :: y in r ==> y in s)
            && (forall y :: y in s && y != s[k] ==> y in r)
            && (Distinct(s) ==> Distinct(r) && s[k] !in r)
  {
    var r := s[..k] + s[k + 1..];
    assert s == s[..k] + [s[k]] + s[k + 1..];
    assert forall i :: 0 <= i < |r| ==> r[i] == s[if i < k then i else i + 1];
  }

  /** Deletes the key `x`, keeping the order of the other keys. */
  function Without<T(==)>(s: seq<T>, x: T): (r: seq<T>)
    requires x in s
    ensures |r| == |s| - 1
    ensures forall y :: y in r ==> y in s
    ensures forall y :: y in s && y != x ==> y in r
    ensures Distinct(s) ==> Distinct(r) && x !in r
  {
    var k := IndexOf(s, x);
    Dropped(s, k);
    s[..k] + s[k + 1..]
  }

  /** `OrderedDict.move_to_end`. */
  function MovedToEnd<T(==)>(s: seq<T>, x: T): (r: seq<T>)
    requires x in s
    ensures |r| == |s|
    ensures forall y :: y in r ==> y in s
    ensures forall y :: y in s ==> y in r
    ensures Distinct(s) ==> Distinct(r)
  {
    var rest := Without(s, x);
    assert Distinct(s) ==> Distinct(rest + [x]) by {
      if Distinct(s) { Enqueued(rest, x); }
    }
    rest + [x]
  }

  lemma Enqueued<T>(s: seq<T>, x: T)
    requires Distinct(s) && x !in s
    ensures Distinct(s + [x])
    ensures forall y :: y in s + [x] <==> y in s || y == x
  {
    assert (s + [x])[|s|] == x;
  }

  lemma Dequeued<T>(s: seq<T>)
    requires Distinct(s) && s != []
    ensures Distinct(s[1..]) && s[0] !in s[1..]
    ensures forall y :: y in s[1..] <==> y in s && y != s[0]
  {
    assert s == [s[0]] + s[1..];
  }

  /** A duplicate-free sequence over a set is no longer than the set. */
  lemma {:induction false} DistinctBound<T>(s: seq<T>, universe: set<T>)
    requires Distinct(s)
    requires forall x :: x in s ==> x in universe
    ensures |s| <= |universe|
  {
    if s != [] {
      var n := |s| - 1;
      assert s[n] in universe;
      DistinctBound(s[..n], universe - {s[n]});
    }
  }

  /** A duplicate-free sequence listing a whole set has the set's size. */
  lemma {:induction false} DistinctCount<T>(s: seq<T>, all: set<T>)
    requires Distinct(s)
    requires forall x :: x in s <==> x in all
    ensures |s| == |all|
  {
    if s != [] {
      var n := |s| - 1;
      assert s == s[..n] + [s[n]];
      assert s[n] !in s[..n];
      assert s[n] in all;
      DistinctCount(s[..n], all - {s[n]});
    } else {
      assert all == {};
    }
  }
}
