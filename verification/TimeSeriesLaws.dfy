/** What the signals of the step-based classifier say about a window. */
module TimeSeriesLaws {
  import opened RealFacts
  import opened Statistics
  import opened TimeSeries

  // --- the mean step is the rate --------------------------------------------------------------------

  lemma StepsPrefix(v: seq<real>)
    requires |v| >= 2
    ensures Steps(v)[..|v| - 2] == Steps(v[..|v| - 1]) && Steps(v)[|v| - 2] == v[|v| - 1] - v[|v| - 2]
  {
  }

  /** Steps telescope. */
  lemma {:induction false} StepsTelescope(v: seq<real>)
    requires v != []
    ensures Sum(Steps(v)) == Net(v)
  {
    if |v| >= 2 {
      StepsPrefix(v);
      StepsTelescope(v[..|v| - 1]);
    }
  }

  /** The mean of the steps, which the volatility is measured around, is the reported rate of change. */
  lemma MeanStepIsRate(v: seq<real>)
    requires |v| >= 2
    ensures Mean(Steps(v)) == Rate(v)
  {
    StepsTelescope(v);
    hide Sum; hide Steps; hide Net;
  }

  // --- misaligned steps force volatility ------------------------------------------------------------------

  /** The direction `dir` is that of `rate`, and steps too small to count are at most `eps`. */
  predicate Directed(ds: seq<real>, dir: Direction, rate: real, eps: real) {
    && ((dir == Rising && rate > 0.0) || (dir == Falling && rate < 0.0))
    && 0.0 <= eps <= Abs(rate)
    && (forall i :: 0 <= i < |ds| && Tiny(ds[i]) ==> Abs(ds[i]) <= eps)
  }

  lemma MissIsFar(d: real, dir: Direction, rate: real, eps: real)
    requires (dir == Rising && rate > 0.0) || (dir == Falling && rate < 0.0)
    requires 0.0 <= eps <= Abs(rate) && !Along(d, dir) && (Tiny(d) ==> Abs(d) <= eps)
    ensures Square(d - rate) >= Square(Abs(rate) - eps)
  {
    SquareFacts(d - rate);
    hide Square;
    if rate > 0.0 {
      SquareMonotone(Abs(rate) - eps, rate - d);
      assert -(d - rate) == rate - d;
    } else {
      SquareMonotone(Abs(rate) - eps, d - rate);
    }
  }

  lemma {:induction false} MissesAddUp(ds: seq<real>, dir: Direction, rate: real, eps: real)
    requires Directed(ds, dir, rate, eps)
    ensures SumSquares(Less(ds, rate)) >= Times((|ds| - Aligned(ds, dir)) as real, Square(Abs(rate) - eps))
  {
    var far := Square(Abs(rate) - eps);
    hide Square;
    if ds == [] {
      assert Times(0.0, far) == 0.0;
    } else {
      var n := |ds| - 1;
      var a := Aligned(ds[..n], dir);
      LessPrefix(ds, rate);
      MissesAddUp(ds[..n], dir, rate, eps);
      SquareFacts(ds[n] - rate);
      if !Along(ds[n], dir) {
        MissIsFar(ds[n], dir, rate, eps);
        TimesOneMore(n - a, far);
        assert |ds| - Aligned(ds, dir) == n - a + 1;
      } else {
        assert |ds| - Aligned(ds, dir) == n - a;
      }
      hide Times; hide Less;
    }
  }

  /** From counts to fractions: `a` of `k` counted steps out of `n`. */
  lemma FractionOfMisses(a: nat, k: nat, n: nat, far: real, variance: real)
    requires a <= k <= n && k > 0 && far >= 0.0 && Times(n as real, variance) >= Times((n - a) as real, far)
    ensures Times(1.0 - a as real / k as real, far) <= variance
  {
    var z, w := n as real, 1.0 - a as real / k as real;
    MissedShare(a, k, n);
    TimesAssociates(z, w, far);
    hide Times;
    TimesMonotone(Times(z, w), (n - a) as real, far);
    TimesCancels(z, Times(w, far), variance);
  }

  lemma MissedShare(a: nat, k: nat, n: nat)
    requires a <= k <= n && k > 0
    ensures Times(n as real, 1.0 - a as real / k as real) <= (n - a) as real
  {
    var x, y, z := a as real, k as real, n as real;
    var m := x / y;
    assert y * m == x;
    AtMostOne(a, k);
    TimesMonotone(y, z, m);
    assert Times(y, m) == x;
    assert Times(z, 1.0 - m) == z - Times(z, m);
    hide Times;
  }

  lemma HypothesisIsDirected(v: seq<real>)
    requires |v| >= 2 && Hypothesis(v) != Stable
    ensures (Hypothesis(v) == Rising && Rate(v) > 0.0) || (Hypothesis(v) == Falling && Rate(v) < 0.0)
  {
    var k := (|v| - 1) as real;
    if Net(v) > 0.0 {
      QuotientPositive(Net(v), k);
    } else {
      QuotientPositive(-Net(v), k);
      assert -Net(v) / k == -(Net(v) / k);
    }
  }

  /** Some step of a directed window moves, unless every step is tiny. */
  lemma {:induction false} NothingMovesMeansTiny(ds: seq<real>)
    ensures Moving(ds) == 0 <==> forall i :: 0 <= i < |ds| ==> Tiny(ds[i])
  {
    if ds != [] {
      NothingMovesMeansTiny(ds[..|ds| - 1]);
      assert ds == ds[..|ds| - 1] + [ds[|ds| - 1]];
    }
  }

  /** The general form of the law below, for any bound on the steps that do not count. */
  lemma MissesForceVariance(v: seq<real>, eps: real)
    requires |v| >= 2 && Hypothesis(v) != Stable && 0.0 <= eps <= Abs(Rate(v)) && Moving(Steps(v)) > 0
    requires forall i :: 0 <= i < |v| - 1 && Tiny(Steps(v)[i]) ==> Abs(Steps(v)[i]) <= eps
    ensures Times(1.0 - Alignment(Steps(v), Hypothesis(v)), Square(Abs(Rate(v)) - eps)) <= Variance(Steps(v))
  {
    var ds, dir := Steps(v), Hypothesis(v);
    HypothesisIsDirected(v);
    hide Square; hide Variance; hide Steps; hide Hypothesis; hide Times; hide SumSquares; hide Less; hide Rate;
    hide Tiny;
    hide Moving; hide Aligned; hide Mean;
    var far := Square(Abs(Rate(v)) - eps);
    MissesAddUp(ds, dir, Rate(v), eps);
    MeanStepIsRate(v);
    VarianceTimesSize(ds);
    SquareFacts(Abs(Rate(v)) - eps);
    FractionOfMisses(Aligned(ds, dir), Moving(ds), |ds|, far, Variance(ds));
  }

  /** The Chebyshev link between the two signals: the share of steps against the trend, times the squared rate, is at
      most the variance of the steps, for every window in which no step is both non-zero and too small to count. */
  lemma MisalignmentForcesVolatility(v: seq<real>)
    requires |v| >= 2 && Hypothesis(v) != Stable
    requires forall i :: 0 <= i < |v| - 1 && Tiny(Steps(v)[i]) ==> Steps(v)[i] == 0.0
    ensures (1.0 - Alignment(Steps(v), Hypothesis(v))) * Square(Rate(v)) <= Variance(Steps(v))
  {
    SomethingMoves(v);
    hide Square; hide Variance; hide Alignment; hide Rate; hide Steps; hide Hypothesis; hide Moving; hide Tiny;
    MissesForceVariance(v, 0.0);
    SquareFacts(Rate(v));
    assert Abs(Rate(v)) - 0.0 == Rate(v) || Abs(Rate(v)) - 0.0 == -Rate(v);
  }

  lemma SomethingMoves(v: seq<real>)
    requires |v| >= 2 && Hypothesis(v) != Stable
    requires forall i :: 0 <= i < |v| - 1 && Tiny(Steps(v)[i]) ==> Steps(v)[i] == 0.0
    ensures Moving(Steps(v)) > 0
  {
    hide Steps; hide Sum;
    NothingMovesMeansTiny(Steps(v));
    StepsTelescope(v);
    if Moving(Steps(v)) == 0 {
      AllZero(Steps(v));
    }
  }

  lemma {:induction false} AllZero(ds: seq<real>)
    requires forall i :: 0 <= i < |ds| ==> ds[i] == 0.0
    ensures Sum(ds) == 0.0
  {
    if ds != [] { AllZero(ds[..|ds| - 1]); }
  }
}
