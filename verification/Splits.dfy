/** Train/validation/test apportionment and stratified assignment (`backend/simulator/dataset/splits.py`).
    Proportions are exact reals; shuffling is an arbitrary permutation. */
module Splits {
  import opened Basics
  import opened RealFacts

  /** Target fractions in the order train, validation, test. */
  datatype Proportions = Proportions(train: real, validation: real, test: real) {
    function At(i: nat): real
      requires i < 3
    {
      if i == 0 then train else if i == 1 then validation else test
    }

    function Total(): real { train + validation + test }

    /** What `SplitProportions` accepts: fractions that sum to one within a millionth. */
    predicate Accepted() {
      && (forall i :: 0 <= i < 3 ==> 0.0 <= At(i) <= 1.0)
      && -0.000001 <= Total() - 1.0 <= 0.000001
    }
  }

  function Quota(n: nat, p: Proportions, i: nat): real
    requires i < 3
  {
    p.At(i) * n as real
  }

  function Base(n: nat, p: Proportions, i: nat): int
    requires i < 3
  {
    Quota(n, p, i).Floor
  }

  function Fraction(n: nat, p: Proportions, i: nat): real
    requires i < 3
  {
    Quota(n, p, i) - Base(n, p, i) as real
  }

  /** What is left to hand out after rounding every quota down. */
  function Remainder(n: nat, p: Proportions): int {
    n - Base(n, p, 0) - Base(n, p, 1) - Base(n, p, 2)
  }

  function Sum(c: seq<int>): int
    requires |c| == 3
  {
    c[0] + c[1] + c[2]
  }

  function Positives(p: Proportions): nat {
    (if p.train > 0.0 then 1 else 0) + (if p.validation > 0.0 then 1 else 0) + (if p.test > 0.0 then 1 else 0)
  }

  /** Split `i` is served before `j`: it has the larger fraction, or the same one and comes first. */
  predicate Before(f: seq<real>, i: nat, j: nat)
    requires |f| == 3 && i < 3 && j < 3
  {
    f[i] > f[j] || (f[i] == f[j] && i < j)
  }

  /** `sorted(range(3), key=fraction, reverse=True)`: by decreasing fraction, ties in index order. */
  function ByFraction(f: seq<real>): (order: seq<nat>)
    requires |f| == 3
    ensures |order| == 3 && Distinct(order) && forall i :: 0 <= i < 3 ==> order[i] < 3
    ensures 0 in order && 1 in order && 2 in order
    ensures forall i, j :: 0 <= i < j < 3 ==> f[order[i]] >= f[order[j]]
  {
    var two: seq<nat> := if f[1] > f[0] then [1, 0] else [0, 1];
    if f[2] > f[two[0]] then [2] + two
    else if f[2] > f[two[1]] then [two[0], 2, two[1]]
    else two + [2]
  }

  lemma ByFractionServes(f: seq<real>)
    requires |f| == 3
    ensures var order := ByFraction(f);
            Before(f, order[0], order[1]) && Before(f, order[0], order[2]) && Before(f, order[1], order[2])
  {
  }

  /** Python's `s[:k]`: a negative `k` counts from the end. */
  function PySliceTo(s: seq<nat>, k: int): seq<nat> {
    if k >= |s| then s else if k >= 0 then s[..k] else if |s| + k >= 0 then s[..|s| + k] else []
  }

  /** How many units the first loop hands out when `r` are left. */
  function Handed(r: int): nat {
    if r >= 3 then 3 else if r >= 0 then r else if r >= -3 then 3 + r else 0
  }

  /** Each split has its base or one more, and the ones with more are served before those without. */
  ghost predicate LargestRemainder(base: seq<int>, f: seq<real>, counts: seq<int>)
    requires |base| == |f| == 3
  {
    && |counts| == 3
    && (forall i :: 0 <= i < 3 ==> base[i] <= counts[i] <= base[i] + 1)
    && (forall i, j :: 0 <= i < 3 && 0 <= j < 3 && counts[i] > base[i] && counts[j] == base[j] ==> Before(f, i, j))
  }

  /** The first `k` splits of `order` have one more than their base. */
  predicate GivenTo(base: seq<int>, counts: seq<int>, order: seq<nat>, k: nat)
    requires |base| == |order| == 3 && order[0] < 3 && order[1] < 3 && order[2] < 3
  {
    && |counts| == 3
    && counts[order[0]] == base[order[0]] + (if k > 0 then 1 else 0)
    && counts[order[1]] == base[order[1]] + (if k > 1 then 1 else 0)
    && counts[order[2]] == base[order[2]] + (if k > 2 then 1 else 0)
  }

  lemma GivenIsLargestRemainder(base: seq<int>, f: seq<real>, counts: seq<int>, order: seq<nat>, k: nat)
    requires |base| == |f| == 3 && order == ByFraction(f) && GivenTo(base, counts, order, k)
    ensures LargestRemainder(base, f, counts)
  {
    ByFractionServes(f);
  }

  /** The counts after the first loop, split by split. */
  function HandedOut(base: seq<int>, f: seq<real>, r: int): (counts: seq<int>)
    requires |base| == |f| == 3
    ensures |counts| == 3
  {
    var order := ByFraction(f);
    [base[0] + (if IndexOf(order, 0) < Handed(r) then 1 else 0),
     base[1] + (if IndexOf(order, 1) < Handed(r) then 1 else 0),
     base[2] + (if IndexOf(order, 2) < Handed(r) then 1 else 0)]
  }

  lemma GivenIsHandedOut(base: seq<int>, f: seq<real>, counts: seq<int>, r: int)
    requires |base| == |f| == 3 && GivenTo(base, counts, ByFraction(f), Handed(r))
    ensures counts == HandedOut(base, f, r)
  {
    hide ByFraction;
  }

  method HandOut(base: seq<int>, f: seq<real>, r: int) returns (counts: seq<int>)
    requires |base| == |f| == 3
    ensures counts == HandedOut(base, f, r)
    ensures LargestRemainder(base, f, counts)
    ensures Sum(counts) == Sum(base) + Handed(r)
  {
    hide HandedOut; hide LargestRemainder;
    counts := base;
    var order := ByFraction(f);
    hide ByFraction;
    var winners := PySliceTo(order, r);
    assert winners == order[..|winners|] && |winners| == Handed(r);
    hide PySliceTo; hide Handed; hide Sum;
    for k := 0 to |winners|
      invariant GivenTo(base, counts, order, k)
    {
      var i := winners[k];
      assert i == order[k] && order[0] != order[1] && order[0] != order[2] && order[1] != order[2];
      counts := counts[i := counts[i] + 1];
    }
    GivenIsLargestRemainder(base, f, counts, order, |winners|);
    GivenIsHandedOut(base, f, counts, r);
    HandedOutSum(base, f, r);
    hide GivenTo; hide HandedOut; hide LargestRemainder;
  }

  function Bases(n: nat, p: Proportions): (b: seq<int>)
    ensures |b| == 3
  {
    [Base(n, p, 0), Base(n, p, 1), Base(n, p, 2)]
  }

  function Fractions(n: nat, p: Proportions): (f: seq<real>)
    ensures |f| == 3
  {
    [Fraction(n, p, 0), Fraction(n, p, 1), Fraction(n, p, 2)]
  }

  /** The first of the largest counts. */
  function Donor(c: seq<int>): (d: nat)
    requires |c| == 3
    ensures d < 3 && forall i :: 0 <= i < 3 ==> c[i] <= c[d]
  {
    if c[0] >= c[1] && c[0] >= c[2] then 0 else if c[1] >= c[2] then 1 else 2
  }

  lemma DonorIsFirst(c: seq<int>, i: nat)
    requires |c| == 3 && i < Donor(c)
    ensures c[i] < c[Donor(c)]
  {
  }

  /** Some run can be spared for an empty split: the counts of the other positive splits add up to too much. */
  lemma DonorCanSpare(n: nat, p: Proportions, c: seq<int>, i: nat)
    requires |c| == 3 && i < 3 && p.At(i) > 0.0 && c[i] == 0 && Sum(c) == n >= Positives(p)
    requires c[0] >= 0 && c[1] >= 0 && c[2] >= 0
    requires p.At(0) <= 0.0 ==> c[0] == 0
    requires p.At(1) <= 0.0 ==> c[1] == 0
    requires p.At(2) <= 0.0 ==> c[2] == 0
    ensures c[Donor(c)] > 1
  {
  }

  ghost predicate ZeroStaysZero(p: Proportions, c: seq<int>)
    requires |c| == 3
  {
    forall k :: 0 <= k < 3 && p.At(k) <= 0.0 ==> c[k] == 0
  }

  ghost predicate PositiveServed(p: Proportions, c: seq<int>, upto: nat)
    requires |c| == 3 && upto <= 3
  {
    forall k :: 0 <= k < upto && p.At(k) > 0.0 ==> c[k] > 0
  }

  /** One run moves from the largest split to split `i`, if `i` should have some and has none. */
  function Moved(p: Proportions, c: seq<int>, i: nat): (r: seq<int>)
    requires |c| == 3 && i < 3
    ensures |r| == 3 && Sum(r) == Sum(c)
  {
    var d := Donor(c);
    if p.At(i) > 0.0 && c[i] == 0 && c[d] > 1 then c[d := c[d] - 1][i := 1] else c
  }

  function MovedUpTo(p: Proportions, c: seq<int>, i: nat): (r: seq<int>)
    requires |c| == 3 && i <= 3
    ensures |r| == 3
  {
    if i == 0 then c else Moved(p, MovedUpTo(p, c, i - 1), i - 1)
  }

  function Repaired(n: nat, p: Proportions, c: seq<int>): seq<int>
    requires |c| == 3
  {
    if n < Positives(p) then c else MovedUpTo(p, c, 3)
  }

  /** The three split sizes of a stratum of `n` runs. */
  function SplitSizes(n: nat, p: Proportions): seq<int> {
    if n == 0 then [0, 0, 0] else Repaired(n, p, HandedOut(Bases(n, p), Fractions(n, p), Remainder(n, p)))
  }

  lemma MovedKeeps(p: Proportions, c: seq<int>, i: nat)
    requires |c| == 3 && i < 3 && forall k :: 0 <= k < 3 ==> c[k] >= 0
    ensures forall k :: 0 <= k < 3 ==> Moved(p, c, i)[k] >= 0 && (c[k] > 0 ==> Moved(p, c, i)[k] > 0)
    ensures ZeroStaysZero(p, c) ==> ZeroStaysZero(p, Moved(p, c, i))
    ensures p.At(i) > 0.0 && c[Donor(c)] > 1 ==> Moved(p, c, i)[i] > 0
  {
  }

  ghost predicate Natural(c: seq<int>) { |c| == 3 && forall k :: 0 <= k < 3 ==> c[k] >= 0 }

  /** What the repair pass keeps and what it reaches, move by move. */
  lemma {:induction false} MovesRepair(n: nat, p: Proportions, before: seq<int>, i: nat)
    requires Natural(before) && i <= 3
    ensures var c := MovedUpTo(p, before, i);
            && Natural(c) && Sum(c) == Sum(before)
            && (forall k :: 0 <= k < 3 && before[k] > 0 ==> c[k] > 0)
            && (PositiveServed(p, before, 3) ==> c == before)
            && (ZeroStaysZero(p, before) ==> ZeroStaysZero(p, c))
            && (n >= Positives(p) && Sum(before) == n && ZeroStaysZero(p, before) ==> PositiveServed(p, c, i))
  {
    if i > 0 {
      MovesRepair(n, p, before, i - 1);
      var c := MovedUpTo(p, before, i - 1);
      MovedKeeps(p, c, i - 1);
      if n >= Positives(p) && Sum(before) == n && ZeroStaysZero(p, before) && p.At(i - 1) > 0.0 && c[i - 1] == 0 {
        DonorCanSpare(n, p, c, i - 1);
      }
      hide Positives; hide Sum; hide Proportions.At; hide Donor;
    }
  }

  /** The repair pass: one run moves from the largest split to each empty split that should have some. */
  method Repair(n: nat, p: Proportions, before: seq<int>) returns (counts: seq<int>)
    requires Natural(before)
    ensures counts == Repaired(n, p, before)
    ensures Natural(counts) && Sum(counts) == Sum(before)
    ensures forall i :: 0 <= i < 3 && before[i] > 0 ==> counts[i] > 0
    ensures PositiveServed(p, before, 3) ==> counts == before
    ensures ZeroStaysZero(p, before) ==> ZeroStaysZero(p, counts)
    ensures n >= Positives(p) && Sum(before) == n && ZeroStaysZero(p, before) ==> PositiveServed(p, counts, 3)
  {
    counts := before;
    if n < Positives(p) {
      return;
    }
    hide Positives; hide Sum; hide Proportions.At; hide Natural;
    for i := 0 to 3
      invariant |counts| == 3 && counts == MovedUpTo(p, before, i)
    {
      var donor := Donor(counts);
      if p.At(i) > 0.0 && counts[i] == 0 && counts[donor] > 1 {
        counts := counts[donor := counts[donor] - 1];
        counts := counts[i := counts[i] + 1];
      }
    }
    MovesRepair(n, p, before, 3);
  }

  /** `_split_counts`. The docstring promises that the counts sum to exactly `n` "regardless of rounding"; they do
      exactly when rounding the quotas down leaves zero to three runs to hand out. */
  method SplitCounts(n: nat, p: Proportions) returns (counts: seq<int>)
    requires p.Accepted()
    ensures counts == SplitSizes(n, p)
    ensures |counts| == 3 && forall i :: 0 <= i < 3 ==> counts[i] >= 0
    ensures Sum(counts) == n <==> 0 <= Remainder(n, p) <= 3
    ensures n < 1000000 ==> Sum(counts) == n
    ensures p.Total() == 1.0 ==> Sum(counts) == n
    ensures p.Total() == 1.0 ==> forall i :: 0 <= i < 3 && p.At(i) == 0.0 ==> counts[i] == 0
    ensures p.Total() == 1.0 && n >= Positives(p) ==> forall i :: 0 <= i < 3 && p.At(i) > 0.0 ==> counts[i] > 0
    ensures (forall i :: 0 <= i < 3 && p.At(i) > 0.0 ==> Base(n, p, i) > 0) ==>
              LargestRemainder(Bases(n, p), Fractions(n, p), counts)
  {
    hide HandedOut; hide Repaired;
    SmallStrataAddUp(n, p);
    if p.Total() == 1.0 { ExactRemainder(n, p); }
    if n == 0 {
      return [0, 0, 0];
    }
    BasesAreNatural(n, p);
    assert p.Accepted();
    hide Proportions.Accepted; hide Base; hide Fraction;
    counts := HandOut(Bases(n, p), Fractions(n, p), Remainder(n, p));
    assert Sum(counts) == n <==> 0 <= Remainder(n, p) <= 3;
    if p.Total() == 1.0 { ZeroProportionsGetNothing(n, p, counts); }
    ZeroOrPositive(p);
    counts := Repair(n, p, counts);
  }

  // --- why ------------------------------------------------------------------------------------

  lemma BasesAreNatural(n: nat, p: Proportions)
    requires p.Accepted()
    ensures forall i :: 0 <= i < 3 ==> 0 <= Base(n, p, i) && 0.0 <= Fraction(n, p, i) < 1.0
    ensures forall i :: 0 <= i < 3 && p.At(i) == 0.0 ==> Base(n, p, i) == 0 && Fraction(n, p, i) == 0.0
  {
  }

  lemma QuotasAddUp(n: nat, p: Proportions)
    ensures Quota(n, p, 0) + Quota(n, p, 1) + Quota(n, p, 2) == p.Total() * n as real
  {
  }

  /** With proportions that sum to one, the fractions sum to the remainder. */
  lemma ExactRemainder(n: nat, p: Proportions)
    requires p.Accepted() && p.Total() == 1.0
    ensures 0 <= Remainder(n, p) <= 2
    ensures Fraction(n, p, 0) + Fraction(n, p, 1) + Fraction(n, p, 2) == Remainder(n, p) as real
  {
    QuotasAddUp(n, p);
    BasesAreNatural(n, p);
  }

  /** Rounding and the millionth of tolerance together cannot disturb a stratum of fewer than a million runs. */
  lemma SmallStrataAddUp(n: nat, p: Proportions)
    requires p.Accepted()
    ensures n < 1000000 ==> 0 <= Remainder(n, p) <= 3
  {
    if n < 1000000 {
      QuotasAddUp(n, p);
      BasesAreNatural(n, p);
      var x, q := n as real, p.Total() * n as real;
      NearlyWhole(p.Total(), x);
      var b := Base(n, p, 0) + Base(n, p, 1) + Base(n, p, 2);
      assert b as real == q - Fraction(n, p, 0) - Fraction(n, p, 1) - Fraction(n, p, 2);
      assert q - 3.0 < b as real <= q;
      hide Base; hide Fraction; hide Quota; hide Proportions.Total;
      assert x - 4.0 < b as real < x + 1.0;
    }
  }

  lemma NearlyWhole(t: real, x: real)
    requires -0.000001 <= t - 1.0 <= 0.000001 && 0.0 <= x < 1000000.0
    ensures x - 1.0 < t * x < x + 1.0
  {
    assert t * x == Times(t, x) && Times(1.000001, x) == x + 0.000001 * x && Times(0.999999, x) == x - 0.000001 * x;
    hide Times;
    TimesMonotone(t, 1.000001, x);
    TimesMonotone(0.999999, t, x);
  }

  lemma ZeroOrPositive(p: Proportions)
    requires p.Accepted()
    ensures forall i :: 0 <= i < 3 ==> (p.At(i) <= 0.0 <==> p.At(i) == 0.0)
  {
  }

  lemma SizesAreNatural(n: nat, p: Proportions)
    requires p.Accepted()
    ensures Natural(SplitSizes(n, p))
    ensures n > 0 ==> Sum(SplitSizes(n, p)) == n - Remainder(n, p) + Handed(Remainder(n, p))
    ensures Sum(SplitSizes(n, p)) == n <==> 0 <= Remainder(n, p) <= 3
  {
    if n > 0 {
      BasesAreNatural(n, p);
      hide Base; hide Fraction; hide HandedOut; hide Repaired;
      SizesFromBases(n, p, Bases(n, p), Fractions(n, p), Remainder(n, p));
    } else {
      SmallStrataAddUp(n, p);
    }
  }

  lemma SizesFromBases(n: nat, p: Proportions, base: seq<int>, f: seq<real>, r: int)
    requires |base| == |f| == 3 && Natural(base) && r == n - Sum(base)
    ensures Natural(Repaired(n, p, HandedOut(base, f, r)))
    ensures Sum(Repaired(n, p, HandedOut(base, f, r))) == n - r + Handed(r)
  {
    HandedOutSum(base, f, r);
    hide HandedOut; hide MovedUpTo; hide PositiveServed; hide ZeroStaysZero; hide Positives;
    MovesRepair(n, p, HandedOut(base, f, r), 3);
  }

  lemma HandedOutSum(base: seq<int>, f: seq<real>, r: int)
    requires |base| == |f| == 3
    ensures Sum(HandedOut(base, f, r)) == Sum(base) + Handed(r)
    ensures forall i :: 0 <= i < 3 ==> HandedOut(base, f, r)[i] >= base[i]
  {
    hide Handed;
    var order := ByFraction(f);
    var i, j, k := IndexOf(order, 0), IndexOf(order, 1), IndexOf(order, 2);
    hide ByFraction; hide IndexOf;
    assert i != j && i != k && j != k && i < 3 && j < 3 && k < 3;
    assert Handed(r) <= 3 by { HandedBound(r); }
  }

  lemma HandedBound(r: int)
    ensures Handed(r) <= 3
  {
  }

  /** The tolerance is not harmless in general: here the counts sum to three more than the runs there are. */
  lemma LargeStrataMayNotAddUp()
    ensures var p := Proportions(0.500001, 0.5, 0.0); p.Accepted() && Sum(SplitSizes(2000000, p)) == 2000003
  {
    var p := Proportions(0.500001, 0.5, 0.0);
    assert Quota(2000000, p, 0) == 1000002.0 && Quota(2000000, p, 1) == 1000000.0 && Quota(2000000, p, 2) == 0.0;
    assert Remainder(2000000, p) == -2;
    hide Remainder; hide SplitSizes; hide Sum;
    SizesAreNatural(2000000, p);
  }

  /** More positive fractions than units, so a zero fraction never wins one. */
  lemma ZeroProportionsGetNothing(n: nat, p: Proportions, counts: seq<int>)
    requires p.Accepted() && p.Total() == 1.0 && LargestRemainder(Bases(n, p), Fractions(n, p), counts)
    requires Sum(counts) == n
    ensures forall i :: 0 <= i < 3 && p.At(i) == 0.0 ==> counts[i] == 0
  {
    ExactRemainder(n, p);
    BasesAreNatural(n, p);
    hide Base; hide Fraction; hide Proportions.At; hide Quota;
  }

  /** Every apportioned count is the floor or the ceiling of its quota. */
  lemma FloorOrCeiling(n: nat, p: Proportions, counts: seq<int>, i: nat)
    requires p.Accepted() && p.Total() == 1.0 && LargestRemainder(Bases(n, p), Fractions(n, p), counts) && i < 3
    requires Sum(counts) == n
    ensures Quota(n, p, i) - 1.0 < counts[i] as real < Quota(n, p, i) + 1.0
  {
    ExactRemainder(n, p);
    BasesAreNatural(n, p);
    assert Bases(n, p)[i] == Base(n, p, i) && Fractions(n, p)[i] == Fraction(n, p, i);
  }
}
