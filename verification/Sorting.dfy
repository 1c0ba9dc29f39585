/** A stable sort by a two-part key, as Python's `sort(key=...)` behaves. */
module Sorting {

  type Key = (int, int)

  predicate AtMost(a: Key, b: Key) { a.0 < b.0 || (a.0 == b.0 && a.1 <= b.1) }

  /** Puts `x` after everything whose key is at most its own. */
  function Insert<T>(key: T -> Key, s: seq<T>, x: T): seq<T> {
    if s == [] || AtMost(key(s[|s| - 1]), key(x)) then s + [x] else Insert(key, s[..|s| - 1], x) + [s[|s| - 1]]
  }

  function Sort<T>(key: T -> Key, s: seq<T>): seq<T> {
    if s == [] then [] else Insert(key, Sort(key, s[..|s| - 1]), s[|s| - 1])
  }

  predicate Sorted<T>(key: T -> Key, s: seq<T>) {
    forall i, j :: 0 <= i < j < |s| ==> AtMost(key(s[i]), key(s[j]))
  }

  lemma AppendSorted<T>(key: T -> Key, s: seq<T>, x: T)
    requires Sorted(key, s)
    ensures (s == [] || AtMost(key(s[|s| - 1]), key(x))) ==> Sorted(key, s + [x])
  {
  }

  lemma {:induction false} InsertSorts<T>(key: T -> Key, s: seq<T>, x: T)
    requires Sorted(key, s)
    ensures Sorted(key, Insert(key, s, x)) && multiset(Insert(key, s, x)) == multiset(s) + multiset{x}
  {
    if s != [] && !AtMost(key(s[|s| - 1]), key(x)) {
      var n := |s| - 1;
      InsertSorts(key, s[..n], x);
      var r := Insert(key, s[..n], x);
      Split(s);
      forall i | 0 <= i < |r| ensures AtMost(key(r[i]), key(s[n])) {
        assert r[i] in multiset(r);
        assert r[i] == x || r[i] in multiset(s[..n]);
      }
      AppendSorted(key, r, s[n]);
      hide Sorted; hide AtMost;
    } else {
      AppendSorted(key, s, x);
    }
  }

  lemma {:induction false} SortSorts<T>(key: T -> Key, s: seq<T>)
    ensures Sorted(key, Sort(key, s)) && multiset(Sort(key, s)) == multiset(s)
  {
    if s != [] {
      var n := |s| - 1;
      SortSorts(key, s[..n]);
      InsertSorts(key, Sort(key, s[..n]), s[n]);
      assert s == s[..n] + [s[n]];
    }
  }

  /** Entries with equal keys are equal. */
  ghost predicate KeysTellApart<T(!new)>(key: T -> Key, s: multiset<T>) {
    forall x, y :: x in s && y in s && key(x) == key(y) ==> x == y
  }

  lemma {:induction false} SortedIsUnique<T(!new)>(key: T -> Key, a: seq<T>, b: seq<T>)
    requires Sorted(key, a) && Sorted(key, b) && multiset(a) == multiset(b) && KeysTellApart(key, multiset(a))
    ensures a == b
  {
    SameSize(a, b);
    hide Sorted; hide KeysTellApart;
    if a != [] {
      var n := |a| - 1;
      SameLast(key, a, b);
      Split(a);
      Split(b);
      PrefixSorted(key, a);
      PrefixSorted(key, b);
      FewerTellApart(key, multiset(a), multiset(a[..n]));
      SortedIsUnique(key, a[..n], b[..n]);
    }
  }

  lemma Split<T>(s: seq<T>)
    requires s != []
    ensures s == s[..|s| - 1] + [s[|s| - 1]]
    ensures multiset(s) == multiset(s[..|s| - 1]) + multiset{s[|s| - 1]}
    ensures multiset(s[..|s| - 1]) == multiset(s) - multiset{s[|s| - 1]}
    ensures s[|s| - 1] in multiset(s)
  {
    assert s == s[..|s| - 1] + [s[|s| - 1]];
  }

  lemma PrefixSorted<T>(key: T -> Key, s: seq<T>)
    requires Sorted(key, s) && s != []
    ensures Sorted(key, s[..|s| - 1])
  {
  }

  lemma FewerTellApart<T(!new)>(key: T -> Key, all: multiset<T>, some: multiset<T>)
    requires KeysTellApart(key, all) && some <= all
    ensures KeysTellApart(key, some)
  {
  }

  lemma SameLast<T(!new)>(key: T -> Key, a: seq<T>, b: seq<T>)
    requires Sorted(key, a) && Sorted(key, b) && multiset(a) == multiset(b) && KeysTellApart(key, multiset(a))
    requires a != [] && |a| == |b|
    ensures a[|a| - 1] == b[|b| - 1]
  {
    hide Sorted;
    var x, y := a[|a| - 1], b[|b| - 1];
    Split(a);
    Split(b);
    LastIsGreatest(key, a, y);
    LastIsGreatest(key, b, x);
    assert key(x) == key(y);
  }

  lemma SameSize<T>(a: seq<T>, b: seq<T>)
    requires multiset(a) == multiset(b)
    ensures |a| == |b|
  {
    assert |multiset(a)| == |a| && |multiset(b)| == |b|;
  }

  lemma LastIsGreatest<T>(key: T -> Key, s: seq<T>, x: T)
    requires Sorted(key, s) && s != [] && x in multiset(s)
    ensures AtMost(key(x), key(s[|s| - 1]))
  {
    var i :| 0 <= i < |s| && s[i] == x;
  }

  // --- stability --------------------------------------------------------------------------------

  function Having<T>(key: T -> Key, s: seq<T>, k: Key): seq<T> {
    if s == [] then [] else Having(key, s[..|s| - 1], k) + if key(s[|s| - 1]) == k then [s[|s| - 1]] else []
  }

  lemma {:induction false} InsertIsStable<T>(key: T -> Key, s: seq<T>, x: T, k: Key)
    requires Sorted(key, s)
    ensures Having(key, Insert(key, s, x), k) == Having(key, s, k) + if key(x) == k then [x] else []
  {
    if s == [] || AtMost(key(s[|s| - 1]), key(x)) {
      assert (s + [x])[..|s|] == s;
    } else {
      var n := |s| - 1;
      var r := Insert(key, s[..n], x);
      InsertIsStable(key, s[..n], x, k);
      assert (r + [s[n]])[..|r|] == r;
    }
  }

  lemma {:induction false} SortIsStable<T>(key: T -> Key, s: seq<T>, k: Key)
    ensures Having(key, Sort(key, s), k) == Having(key, s, k)
  {
    if s != [] {
      var n := |s| - 1;
      SortIsStable(key, s[..n], k);
      SortSorts(key, s[..n]);
      InsertIsStable(key, Sort(key, s[..n]), s[n], k);
    }
  }

  // --- when input order does not matter --------------------------------------------------------------

  ghost predicate OrderDoesNotMatter<T(!new)>(key: T -> Key, s: seq<T>) {
    forall other: seq<T> :: multiset(other) == multiset(s) ==> Sort(key, other) == Sort(key, s)
  }

  lemma HavingTwo<T>(key: T -> Key, s: seq<T>, x: T, y: T)
    requires key(x) == key(y)
    ensures Having(key, s + [x, y], key(x)) == Having(key, s, key(x)) + [x, y]
  {
    var t := s + [x, y];
    assert t[..|t| - 1] == s + [x] && (s + [x])[..|s|] == s;
  }

  /** Taking one entry out. */
  lemma TakeOut<T>(s: seq<T>, x: T) returns (rest: seq<T>)
    requires x in multiset(s)
    ensures multiset(rest) + multiset{x} == multiset(s)
  {
    var i :| 0 <= i < |s| && s[i] == x;
    assert s == s[..i] + [x] + s[i + 1..];
    rest := s[..i] + s[i + 1..];
  }

  /** Two different entries moved to the end of a sequence. */
  lemma TwoLast<T>(s: seq<T>, x: T, y: T) returns (rest: seq<T>)
    requires x in multiset(s) && y in multiset(s) && x != y
    ensures multiset(rest + [x, y]) == multiset(s) == multiset(rest + [y, x])
  {
    var most := TakeOut(s, x);
    assert y in multiset(most);
    rest := TakeOut(most, y);
    assert multiset([x, y]) == multiset{x} + multiset{y} == multiset([y, x]);
  }

  /** The sorted sequence depends only on which entries there are, not on their order, if and only if entries with
      equal keys are equal. */
  lemma OrderDoesNotMatterExactly<T(!new)>(key: T -> Key, s: seq<T>)
    ensures OrderDoesNotMatter(key, s) <==> KeysTellApart(key, multiset(s))
  {
    hide Sorted; hide Sort;
    if KeysTellApart(key, multiset(s)) {
      hide KeysTellApart;
      forall other: seq<T> | multiset(other) == multiset(s) ensures Sort(key, other) == Sort(key, s) {
        SortSorts(key, s);
        SortSorts(key, other);
        SortedIsUnique(key, Sort(key, other), Sort(key, s));
      }
    } else {
      var x, y :| x in multiset(s) && y in multiset(s) && key(x) == key(y) && x != y;
      var rest := TwoLast(s, x, y);
      TieIsVisible(key, rest, x, y);
    }
  }

  lemma TieIsVisible<T>(key: T -> Key, rest: seq<T>, x: T, y: T)
    requires key(x) == key(y) && x != y
    ensures Sort(key, rest + [x, y]) != Sort(key, rest + [y, x])
  {
    hide Sort; hide Having;
    var k := key(x);
    SortIsStable(key, rest + [x, y], k);
    SortIsStable(key, rest + [y, x], k);
    HavingTwo(key, rest, x, y);
    HavingTwo(key, rest, y, x);
    var h := Having(key, rest, k);
    assert (h + [x, y])[|h|] == x && (h + [y, x])[|h|] == y;
  }

  // --- sorted keys ------------------------------------------------------------------------------------

  function Keys<T>(key: T -> Key, s: seq<T>): (ks: seq<Key>)
    ensures |ks| == |s| && forall i :: 0 <= i < |s| ==> ks[i] == key(s[i])
  {
    seq(|s|, i requires 0 <= i < |s| => key(s[i]))
  }

  lemma KeysOfParts<T>(key: T -> Key, a: seq<T>, b: seq<T>)
    ensures Keys(key, a + b) == Keys(key, a) + Keys(key, b)
  {
  }

  lemma KeysWithout<T>(key: T -> Key, a: seq<T>, x: T, b: seq<T>)
    ensures multiset(Keys(key, a + [x] + b)) == multiset(Keys(key, a + b)) + multiset{key(x)}
  {
    KeysOfParts(key, a + [x], b);
    KeysOfParts(key, a, [x]);
    KeysOfParts(key, a, b);
    assert Keys(key, [x]) == [key(x)];
    hide Keys;
  }

  lemma {:induction false} KeysOfPermutation<T>(key: T -> Key, a: seq<T>, b: seq<T>)
    requires multiset(a) == multiset(b)
    ensures multiset(Keys(key, a)) == multiset(Keys(key, b))
  {
    hide Keys;
    SameSize(a, b);
    if a == [] {
      assert b == [];
    } else {
      Split(a);
      var n, x := |a| - 1, a[|a| - 1];
      var front, back := SplitAround(b, x);
      KeysOfPermutation(key, a[..n], front + back);
      KeysWithout(key, a[..n], x, []);
      KeysWithout(key, front, x, back);
      assert a[..n] + [x] + [] == a && a[..n] + [] == a[..n];
    }
  }

  lemma SplitAround<T>(s: seq<T>, x: T) returns (front: seq<T>, back: seq<T>)
    requires x in multiset(s)
    ensures s == front + [x] + back && multiset(front + back) == multiset(s) - multiset{x}
  {
    var i :| 0 <= i < |s| && s[i] == x;
    front, back := s[..i], s[i + 1..];
    assert s == front + [x] + back;
  }

  /** Whatever ties there are, the keys come out in the same order. */
  lemma SortedKeysAreUnique<T>(key: T -> Key, a: seq<T>, b: seq<T>)
    requires multiset(a) == multiset(b)
    ensures Keys(key, Sort(key, a)) == Keys(key, Sort(key, b))
  {
    SortSorts(key, a);
    SortSorts(key, b);
    var x, y := Sort(key, a), Sort(key, b);
    hide Sort;
    KeysOfPermutation(key, x, y);
    var same := (k: Key) => k;
    assert Sorted(same, Keys(key, x)) && Sorted(same, Keys(key, y));
    SortedIsUnique(same, Keys(key, x), Keys(key, y));
  }

  lemma {:induction false} SortOfSorted<T>(key: T -> Key, s: seq<T>)
    requires Sorted(key, s)
    ensures Sort(key, s) == s
  {
    if s != [] {
      Split(s);
      SortOfSorted(key, s[..|s| - 1]);
      if |s| >= 2 { assert AtMost(key(s[|s| - 2]), key(s[|s| - 1])); }
    }
  }
}
