/** Sums, means and variances over exact reals, shared by both trend classifiers. */
module Statistics {
  import opened RealFacts

  function Sum(s: seq<real>): real {
    if s == [] then 0.0 else Sum(s[..|s| - 1]) + s[|s| - 1]
  }

  function SumSquares(s: seq<real>): real {
    if s == [] then 0.0 else SumSquares(s[..|s| - 1]) + Square(s[|s| - 1])
  }

  function Square(x: real): real { x * x }

  function Mean(s: seq<real>): real
    requires s != []
  {
    Sum(s) / |s| as real
  }

  function Less(s: seq<real>, c: real): (r: seq<real>)
    ensures |r| == |s|
  {
    seq(|s|, i requires 0 <= i < |s| => s[i] - c)
  }

  function Negated(s: seq<real>): (r: seq<real>)
    ensures |r| == |s|
  {
    seq(|s|, i requires 0 <= i < |s| => -s[i])
  }

  function Variance(s: seq<real>): real
    requires s != []
  {
    SumSquares(Less(s, Mean(s))) / |s| as real
  }

  /** A square root: the code's `sqrt`, and the last step of `statistics.pstdev`. */
  datatype Roots = Roots(root: real -> real) {
    ghost predicate Valid() {
      forall x :: x >= 0.0 ==> root(x) >= 0.0 && Square(root(x)) == x
    }
  }

  // --- squares ------------------------------------------------------------------------------------

  lemma SquareIsTimes(x: real)
    ensures Square(x) == Times(x, x)
  {
  }

  lemma SquareFacts(x: real)
    ensures Square(x) >= 0.0 && Square(-x) == Square(x)
    ensures x != 0.0 ==> Square(x) > 0.0
  {
    hide Square; hide Times;
    var y := -x;
    SquareIsTimes(x);
    SquareIsTimes(y);
    TimesPositive(x, x);
    TimesPositive(y, y);
    TimesSplits(x, 0.0, y);
    TimesDistributes(x, x, 0.0);
  }

  lemma SquareMonotone(x: real, y: real)
    requires 0.0 <= x <= y
    ensures Square(x) <= Square(y)
  {
    hide Square; hide Times;
    SquareIsTimes(x);
    SquareIsTimes(y);
    TimesMonotone(x, y, x);
    TimesMonotone(x, y, y);
    TimesCommutes(x, y);
  }

  lemma SquareReflectsOrder(x: real, y: real)
    requires 0.0 <= x && 0.0 <= y && Square(x) <= Square(y)
    ensures x <= y
  {
    hide Square; hide Times;
    SquareIsTimes(x);
    SquareIsTimes(y);
    TimesPositive(x - y, x);
    TimesSplits(x, y, x);
    if y < x {
      TimesMonotone(y, x, y);
      TimesCommutes(x, y);
    }
  }

  lemma SquareScales(k: real, x: real)
    ensures Square(Times(k, x)) == Times(Square(k), Square(x)) == Times(k, Times(k, Square(x)))
  {
    hide Square; hide Times;
    var y := Times(k, x);
    SquareIsTimes(y);
    SquareIsTimes(k);
    SquareIsTimes(x);
    TimesAssociates(k, x, y);
    TimesCommutes(x, y);
    TimesAssociates(k, x, x);
    TimesAssociates(k, k, Square(x));
  }

  // --- sums -----------------------------------------------------------------------------------------

  lemma {:induction false} SumOfParts(a: seq<real>, b: seq<real>)
    ensures Sum(a + b) == Sum(a) + Sum(b)
    ensures SumSquares(a + b) == SumSquares(a) + SumSquares(b)
  {
    hide Square;
    if b == [] {
      assert a + b == a;
    } else {
      var n := |b| - 1;
      assert (a + b)[..|a + b| - 1] == a + b[..n];
      SumOfParts(a, b[..n]);
    }
  }

  lemma LessPrefix(s: seq<real>, c: real)
    requires s != []
    ensures Less(s, c)[..|s| - 1] == Less(s[..|s| - 1], c) && Less(s, c)[|s| - 1] == s[|s| - 1] - c
  {
  }

  lemma {:induction false} SumLess(s: seq<real>, c: real)
    ensures Sum(Less(s, c)) == Sum(s) - Times(|s| as real, c)
  {
    hide Less; hide Times;
    TimesUnits(c);
    if s != [] {
      var n := |s| - 1;
      LessPrefix(s, c);
      SumLess(s[..n], c);
      TimesOneMore(n, c);
    } else {
      assert |Less(s, c)| == 0;
    }
  }

  lemma {:induction false} SumNegated(s: seq<real>)
    ensures Sum(Negated(s)) == -Sum(s) && SumSquares(Negated(s)) == SumSquares(s)
  {
    if s != [] {
      var n := |s| - 1;
      assert Negated(s)[..n] == Negated(s[..n]) && Negated(s)[n] == -s[n];
      SumNegated(s[..n]);
      SquareFacts(s[n]);
      hide Square; hide Negated;
    }
  }

  lemma {:induction false} SumSquaresNonNegative(s: seq<real>)
    ensures SumSquares(s) >= 0.0
  {
    if s != [] {
      SumSquaresNonNegative(s[..|s| - 1]);
      SquareFacts(s[|s| - 1]);
      hide Square;
    }
  }

  lemma VarianceTimesSize(s: seq<real>)
    requires s != []
    ensures Variance(s) >= 0.0
    ensures Times(|s| as real, Variance(s)) == SumSquares(Less(s, Mean(s)))
  {
    hide SumSquares; hide Mean; hide Less;
    var squares := SumSquares(Less(s, Mean(s)));
    SumSquaresNonNegative(Less(s, Mean(s)));
    TimesQuotient(|s| as real, squares);
    QuotientMonotone(0.0, squares, |s| as real);
    hide Times;
  }

  lemma MeanTimesSize(s: seq<real>)
    requires s != []
    ensures Times(|s| as real, Mean(s)) == Sum(s)
  {
    TimesQuotient(|s| as real, Sum(s));
    hide Sum; hide Times;
  }

  lemma MeanUnique(s: seq<real>, m: real)
    requires s != [] && Times(|s| as real, m) == Sum(s)
    ensures Mean(s) == m
  {
    hide Sum; hide Mean; hide Times;
    MeanTimesSize(s);
    TimesCancels(|s| as real, m, Mean(s));
    TimesCancels(|s| as real, Mean(s), m);
  }

  /** The Cauchy-Schwarz inequality against a constant sequence. */
  lemma {:induction false} SumSquared(s: seq<real>)
    ensures Square(Sum(s)) <= Times(|s| as real, SumSquares(s))
  {
    if s != [] {
      hide Square; hide Times;
      var n := |s| - 1;
      SumSquared(s[..n]);
      SumSquaresNonNegative(s[..n]);
      SumSquaredStep(Sum(s[..n]), SumSquares(s[..n]), s[n], n);
    }
  }

  lemma SumSquaredStep(total: real, squares: real, x: real, n: nat)
    requires Square(total) <= Times(n as real, squares) && squares >= 0.0
    ensures Square(total + x) <= Times((n + 1) as real, squares + Square(x))
  {
    var k := n as real;
    SquareOfSum(total, x);
    TimesOneMore(n, squares + Square(x));
    TimesDistributes(k, squares, Square(x));
    if n == 0 {
      SquareFacts(total);
      assert total == 0.0;
    } else {
      MeanInequality(total, x, k, squares);
    }
    TimesUnits(x);
    TimesUnits(squares + Square(x));
    TimesUnits(squares);
    TimesUnits(Square(x));
    hide Square; hide Times;
  }

  lemma SquareOfSum(a: real, b: real)
    ensures Square(a + b) == Square(a) + 2.0 * Times(a, b) + Square(b)
  {
    hide Square; hide Times;
    SquareIsTimes(a);
    SquareIsTimes(b);
    SquareIsTimes(a + b);
    TimesSplits(a, b, a + b);
    TimesDistributes(a, a, b);
    TimesDistributes(b, a, b);
    TimesCommutes(a, b);
  }

  lemma MeanInequality(total: real, x: real, k: real, squares: real)
    requires k >= 1.0 && Square(total) <= Times(k, squares)
    ensures 2.0 * Times(total, x) <= squares + Times(k, Square(x))
  {
    hide Square; hide Times;
    var q, y := Square(x), Times(k, x);
    SquareFacts(total + -y);
    SquareOfSum(total, -y);
    SquareFacts(y);
    TimesDistributes(total, y, 0.0);
    SquareScales(k, x);
    TimesAssociates(total, k, x);
    TimesAssociates(k, total, x);
    TimesCommutes(total, k);
    TimesDistributes(k, squares, Times(k, q));
    TimesDistributes(k, Times(total, x), Times(total, x));
    TimesCancels(k, Times(total, x) + Times(total, x), squares + Times(k, q));
  }

  /** Values no further than `h` from `c` have squared deviations of at most `h*h` each. */
  lemma {:induction false} SumSquaresBounded(s: seq<real>, c: real, h: real)
    requires forall i :: 0 <= i < |s| ==> -h <= s[i] - c <= h
    ensures SumSquares(Less(s, c)) <= Times(|s| as real, Square(h))
  {
    hide Square; hide Less; hide Times;
    TimesUnits(Square(h));
    if s != [] {
      var n := |s| - 1;
      LessPrefix(s, c);
      SumSquaresBounded(s[..n], c, h);
      var d := s[n] - c;
      SquareFacts(d);
      if d >= 0.0 { SquareMonotone(d, h); } else { SquareMonotone(-d, h); }
      TimesOneMore(n, Square(h));
    } else {
      assert |Less(s, c)| == 0;
    }
  }

  /** The variance is at most the squared distance that all values keep to any one point. */
  lemma VarianceBounded(s: seq<real>, c: real, h: real)
    requires s != [] && forall i :: 0 <= i < |s| ==> -h <= s[i] - c <= h
    ensures 0.0 <= Variance(s) <= Square(h)
  {
    hide Square; hide Less; hide Times; hide SumSquares; hide Mean; hide Variance;
    SumSquaresBounded(s, c, h);
    MeanMinimises(s, c);
    VarianceTimesSize(s);
    TimesCancels(|s| as real, Variance(s), Square(h));
  }

  /** The mean is where the squared deviations are least. */
  lemma MeanMinimises(s: seq<real>, c: real)
    requires s != []
    ensures SumSquares(Less(s, Mean(s))) <= SumSquares(Less(s, c))
  {
    hide Mean; hide Square; hide Less; hide SumSquares; hide Sum; hide Times;
    var m, n := Mean(s), |s| as real;
    var e := m - c;
    DeviationsMove(s, m, e);
    assert m - e == c;
    SumLess(s, m);
    MeanTimesSize(s);
    SquareFacts(e);
    TimesPositive(n, Square(e));
    TimesUnits(2.0 * e);
  }

  lemma {:induction false} DeviationsMove(s: seq<real>, m: real, e: real)
    ensures SumSquares(Less(s, m - e)) ==
            SumSquares(Less(s, m)) + Times(2.0 * e, Sum(Less(s, m))) + Times(|s| as real, Square(e))
  {
    hide Square; hide Less; hide Times;
    if s == [] {
      NothingMoves(m, e);
    } else {
      var n := |s| - 1;
      LessPrefix(s, m);
      LessPrefix(s, m - e);
      DeviationsMove(s[..n], m, e);
      DeviationMoves(s[n] - m, e, Sum(Less(s[..n], m)), n);
    }
  }

  lemma NothingMoves(m: real, e: real)
    ensures SumSquares(Less([], m - e)) == SumSquares(Less([], m)) == 0.0
    ensures Times(2.0 * e, Sum(Less([], m))) == 0.0 == Times(0.0, Square(e))
  {
  }

  lemma DeviationMoves(d: real, e: real, total: real, n: nat)
    ensures Square(d - -e) ==
            Square(d) + Times(2.0 * e, total + d) - Times(2.0 * e, total)
            + Times((n + 1) as real, Square(e)) - Times(n as real, Square(e))
  {
    hide Square; hide Times;
    TimesOneMore(n, Square(e));
    TimesDistributes(2.0 * e, total, d);
    TimesSplits(e, e, d);
    TimesCommutes(d, e);
    SquareOfSum(d, e);
    assert d - -e == d + e && 2.0 * e == e + e;
  }

  // --- symmetries -----------------------------------------------------------------------------------

  lemma NegatedMean(s: seq<real>)
    requires s != []
    ensures Mean(Negated(s)) == -Mean(s)
  {
    hide Mean; hide Sum; hide Times; hide Negated;
    SumNegated(s);
    MeanTimesSize(s);
    TimesDistributes(|s| as real, Mean(s), 0.0);
    MeanUnique(Negated(s), -Mean(s));
  }

  lemma NegatedVariance(s: seq<real>)
    requires s != []
    ensures Variance(Negated(s)) == Variance(s)
  {
    hide Mean; hide SumSquares;
    var m := Mean(s);
    NegatedMean(s);
    assert Less(Negated(s), -m) == Negated(Less(s, m));
    SumNegated(Less(s, m));
    hide Less; hide Negated;
  }

  lemma OffsetMean(s: seq<real>, c: real)
    requires s != []
    ensures Mean(Less(s, c)) == Mean(s) - c
  {
    hide Mean; hide Sum; hide Less; hide Times;
    SumLess(s, c);
    MeanTimesSize(s);
    TimesDistributes(|s| as real, Mean(s), c);
    MeanUnique(Less(s, c), Mean(s) - c);
  }

  lemma OffsetVariance(s: seq<real>, c: real)
    requires s != []
    ensures Variance(Less(s, c)) == Variance(s)
  {
    hide Mean; hide SumSquares;
    var m := Mean(s);
    OffsetMean(s, c);
    assert Less(Less(s, c), m - c) == Less(s, m);
    hide Less;
  }
}
