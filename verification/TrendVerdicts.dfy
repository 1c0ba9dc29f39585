/** What a verdict of the step-based classifier guarantees about its window, and how it behaves under symmetries. */
module TrendVerdicts {
  import opened RealFacts
  import opened Statistics
  import opened Basics
  import opened Sorting
  import opened TimeSeries
  import opened TimeSeriesLaws

  // --- scores -------------------------------------------------------------------------------------

  lemma LowScore(alignment: real, volatility: real)
    requires 0.65 * alignment + 0.35 * (1.0 - volatility) < 0.545
    ensures Stability(alignment, volatility) < 55
  {
    RoundIsNear(100.0 * (0.65 * alignment + 0.35 * (1.0 - volatility)));
    hide Round;
  }

  lemma HighScore(alignment: real, volatility: real)
    requires 0.65 * alignment + 0.35 * (1.0 - volatility) >= 0.56
    ensures Stability(alignment, volatility) >= 55
  {
    RoundIsNear(100.0 * (0.65 * alignment + 0.35 * (1.0 - volatility)));
    hide Round;
  }

  lemma RatioAtLeast(x: real, bound: real, d: real)
    requires d > 0.0 && x >= bound * d
    ensures x / d >= bound
  {
    QuotientMonotone(bound * d, x, d);
    assert bound * d / d == bound;
  }

  lemma RatioAtMost(x: real, bound: real, d: real)
    requires d > 0.0 && x <= bound * d
    ensures x / d <= bound
  {
    QuotientMonotone(x, bound * d, d);
    assert bound * d / d == bound;
  }

  // --- a direction needs steps that go that way --------------------------------------------------------

  /** With at most 60% of the moving steps aligned, the spread of the steps is at least 0.632 of the rate. */
  lemma SpreadIsLarge(std: real, share: real, gap: real, variance: real)
    requires std >= 0.0 && Square(std) == variance && share >= 0.4 && gap >= 0.0
    requires Times(share, Square(gap)) <= variance
    ensures std >= 0.632 * gap
  {
    SquareFacts(gap);
    var q := Square(gap);
    SquareScales(0.632, gap);
    assert Times(0.632, gap) == 0.632 * gap && Times(Square(0.632), q) == 0.399424 * q;
    assert Times(0.4, q) == 0.4 * q;
    TimesMonotone(0.4, share, q);
    hide Times; hide Square;
    SquareReflectsOrder(0.632 * gap, std);
  }

  lemma SpreadIsVolatile(std: real, rate: real)
    requires Abs(rate) >= 0.00001 && std >= 0.632 * (Abs(rate) - STEP_EPSILON)
    ensures Clamp(std / (Abs(rate) + RATE_EPSILON), 0.0, 1.0) >= 0.57
  {
    RatioAtLeast(std, 0.57, Abs(rate) + RATE_EPSILON);
  }

  /** A trend of at least 1e-5 per step is only ever reported when more than 60% of the steps that moved, moved that
      way; at any rate at all, at least 30% of them did. */
  lemma DirectionNeedsAlignedSteps(roots: Roots, v: seq<real>)
    requires roots.Valid() && |v| >= 2
    ensures var s := SignalsOf(roots, v); s.direction != Stable ==>
            s.monotonicity >= 0.3 && (Abs(s.rate) >= 0.00001 ==> s.monotonicity > 0.6)
  {
    var s, ds, dir := SignalsOf(roots, v), Steps(v), Hypothesis(v);
    if s.direction != Stable {
      var m := Alignment(ds, dir);
      if m < 0.3 {
        LowScore(m, s.volatility);
      }
      if Abs(s.rate) >= 0.00001 && m <= 0.6 {
        MissesAreVolatile(roots, v);
        LowScore(m, s.volatility);
      }
    }
    hide Stability; hide Steps; hide Volatility; hide Rate; hide Alignment;
  }

  lemma MissesAreVolatile(roots: Roots, v: seq<real>)
    requires roots.Valid() && |v| >= 2 && Hypothesis(v) != Stable
    requires Alignment(Steps(v), Hypothesis(v)) <= 0.6 && Abs(Rate(v)) >= 0.00001
    ensures Volatility(roots, Steps(v), Rate(v)) >= 0.57
  {
    var ds, m := Steps(v), Alignment(Steps(v), Hypothesis(v));
    MovingUnlessDefault(ds, Hypothesis(v));
    VarianceTimesSize(ds);
    hide Square; hide Variance; hide Steps; hide Rate; hide SumSquares; hide Less; hide Mean; hide Hypothesis;
    hide Alignment; hide Moving; hide Times;
    var std := roots.root(Variance(ds));
    MissesForceVariance(v, STEP_EPSILON);
    SpreadIsLarge(std, 1.0 - m, Abs(Rate(v)) - STEP_EPSILON, Variance(ds));
    SpreadIsVolatile(std, Rate(v));
  }

  lemma MovingUnlessDefault(ds: seq<real>, dir: Direction)
    requires dir != Stable && Alignment(ds, dir) <= 0.6
    ensures Moving(ds) > 0
  {
  }

  // --- monotone windows ---------------------------------------------------------------------------------------

  predicate NonDecreasing(v: seq<real>) { forall i :: 0 <= i < |v| - 1 ==> v[i] <= v[i + 1] }

  lemma {:induction false} AllAligned(ds: seq<real>)
    requires forall i :: 0 <= i < |ds| ==> ds[i] >= 0.0
    ensures Aligned(ds, Rising) == Moving(ds)
  {
    if ds != [] { AllAligned(ds[..|ds| - 1]); }
  }

  /** When no step counts, there is no volatility to speak of. */
  lemma TinyStepsAreCalm(roots: Roots, ds: seq<real>, rate: real)
    requires roots.Valid() && ds != [] && Moving(ds) == 0
    ensures Volatility(roots, ds, rate) <= 0.1
  {
    NothingMovesMeansTiny(ds);
    VarianceBounded(ds, 0.0, STEP_EPSILON);
    hide Square; hide Variance; hide Moving; hide Tiny;
    var std := roots.root(Variance(ds));
    SquareReflectsOrder(std, STEP_EPSILON);
    RatioAtMost(std, 0.1, Abs(rate) + RATE_EPSILON);
  }

  /** A window that never falls is reported rising if and only if its net change is above the noise floor. */
  lemma MonotoneWindowsRise(roots: Roots, v: seq<real>)
    requires roots.Valid() && |v| >= 2 && NonDecreasing(v)
    ensures SignalsOf(roots, v).direction == if Net(v) > NET_EPSILON then Rising else Stable
  {
    NetIsNonNegative(v);
    assert forall i :: 0 <= i < |v| - 1 ==> Steps(v)[i] >= 0.0;
    hide Stability; hide Steps; hide Volatility; hide Rate; hide Moving; hide Alignment; hide Net; hide NonDecreasing;
    var ds, x := Steps(v), Volatility(roots, Steps(v), Rate(v));
    RisingAlignment(ds);
    if Moving(ds) == 0 {
      TinyStepsAreCalm(roots, ds, Rate(v));
      HighScore(0.8, x);
    } else {
      HighScore(1.0, x);
    }
  }

  lemma RisingAlignment(ds: seq<real>)
    requires ds != [] && forall i :: 0 <= i < |ds| ==> ds[i] >= 0.0
    ensures Alignment(ds, Rising) == if Moving(ds) == 0 then 0.8 else 1.0
  {
    AllAligned(ds);
    hide Moving; hide Aligned;
    if Moving(ds) > 0 { Whole(Moving(ds)); }
  }

  lemma Whole(k: nat)
    requires k > 0
    ensures k as real / k as real == 1.0
  {
  }

  lemma {:induction false} NetIsNonNegative(v: seq<real>)
    requires v != [] && NonDecreasing(v)
    ensures Net(v) >= 0.0
  {
    if |v| >= 2 { NetIsNonNegative(v[..|v| - 1]); }
  }

  // --- symmetries ---------------------------------------------------------------------------------------------------

  function Opposite(d: Direction): Direction {
    match d case Stable => Stable case Rising => Falling case Falling => Rising
  }

  lemma {:induction false} OppositeCounts(ds: seq<real>, dir: Direction)
    ensures Moving(Negated(ds)) == Moving(ds) && Aligned(Negated(ds), Opposite(dir)) == Aligned(ds, dir)
  {
    if ds != [] {
      var n := |ds| - 1;
      assert Negated(ds)[..n] == Negated(ds[..n]) && Negated(ds)[n] == -ds[n];
      OppositeCounts(ds[..n], dir);
      hide Negated;
    }
  }

  lemma OppositeAlignment(ds: seq<real>, dir: Direction)
    ensures Alignment(Negated(ds), Opposite(dir)) == Alignment(ds, dir)
  {
    OppositeCounts(ds, dir);
    hide Moving; hide Aligned; hide Negated;
  }

  /** Turning the window upside down turns the verdict around and changes nothing else. */
  lemma NegationSwapsVerdict(roots: Roots, v: seq<real>)
    requires |v| >= 2
    ensures var s := SignalsOf(roots, v);
            SignalsOf(roots, Negated(v)) == s.(direction := Opposite(s.direction), rate := -s.rate)
  {
    var ds, w := Steps(v), Negated(v);
    assert Steps(w) == Negated(ds);
    NegatedVariance(ds);
    NegatedRate(v);
    assert Hypothesis(w) == Opposite(Hypothesis(v));
    hide Variance; hide Steps; hide Negated; hide Rate; hide Alignment; hide Stability; hide Hypothesis; hide Round;
    hide Mean; hide Clamp; hide Net;
    OppositeAlignment(ds, Hypothesis(v));
    OppositeAlignment(ds, Stable);
  }

  lemma NegatedRate(v: seq<real>)
    requires |v| >= 2
    ensures Net(Negated(v)) == -Net(v) && Rate(Negated(v)) == -Rate(v)
  {
    var k := (|v| - 1) as real;
    assert -Net(v) / k == -(Net(v) / k);
  }

  /** Adding a constant to every value changes nothing. */
  lemma OffsetChangesNothing(roots: Roots, v: seq<real>, c: real)
    requires v != []
    ensures SignalsOf(roots, Less(v, c)) == SignalsOf(roots, v)
  {
    assert Steps(Less(v, c)) == Steps(v);
    assert Net(Less(v, c)) == Net(v);
    hide Variance; hide Steps; hide Less; hide Moving; hide Aligned; hide Stability; hide Round; hide Net;
    hide Volatility; hide Alignment;
  }

  // --- the condition of the Chebyshev link is needed -------------------------------------------------------

  function Staircase(n: nat, h: real): seq<real> { seq(n + 1, i => i as real * h) }

  /** Steps that are non-zero but too small to count break the link: 2000 steps of 1e-12 have no variance at all and
      are credited with an alignment of only 0.8. */
  lemma TinyStepsBreakTheLink() returns (v: seq<real>)
    ensures |v| >= 2 && Hypothesis(v) != Stable
    ensures (1.0 - Alignment(Steps(v), Hypothesis(v))) * Square(Rate(v)) > Variance(Steps(v))
  {
    v := Staircase(2000, STEP_EPSILON);
    var ds := Steps(v);
    assert forall i :: 0 <= i < |ds| ==> ds[i] == STEP_EPSILON;
    assert Net(v) == 2000.0 * STEP_EPSILON && Rate(v) == STEP_EPSILON;
    NothingMovesMeansTiny(ds);
    VarianceBounded(ds, STEP_EPSILON, 0.0);
    SquareFacts(Rate(v));
    assert Square(0.0) == 0.0;
    hide Square; hide Moving; hide Variance; hide Staircase; hide Steps;
  }

  // --- when arrival order shows ------------------------------------------------------------------------------

  /** One observation a second at value 1, after two at second zero with the given values and the same id. */
  function TiedWindow(first: real, second: real): (obs: seq<Observation>)
    ensures |obs| == 8
  {
    [Observation(0, 0, first), Observation(0, 0, second), Observation(1, 0, 1.0), Observation(2, 0, 1.0),
     Observation(3, 0, 1.0), Observation(4, 0, 1.0), Observation(5, 0, 1.0), Observation(6, 0, 1.0)]
  }

  lemma TiedValues(first: real, second: real)
    ensures Recent(TiedWindow(first, second), 8) == [first, second, 1.0, 1.0, 1.0, 1.0, 1.0, 1.0]
  {
    var obs := TiedWindow(first, second);
    assert Sorted(KeyOf, obs);
    SortOfSorted(KeyOf, obs);
    hide Sort;
  }

  /** Eight observations, two of which share timestamp and id: the same observations are stable in one order of arrival
      and rising in the other. */
  lemma ArrivalOrderCanMatter(roots: Roots) returns (obs: seq<Observation>, other: seq<Observation>)
    requires roots.Valid()
    ensures multiset(obs) == multiset(other)
    ensures Says(Diagnose(roots, obs, 8), Stable) && Says(Diagnose(roots, other, 8), Rising)
  {
    hide TiedWindow; hide Diagnose; hide Roots.Valid;
    obs, other := TiedWindow(1.0, 0.0), TiedWindow(0.0, 1.0);
    TiedPermutation();
    TiedStable(roots);
    TiedRising(roots);
  }

  predicate Says(r: Result<Option<Signals>, string>, d: Direction) {
    r.Success? && r.value.Some? && r.value.value.direction == d
  }

  lemma TiedPermutation()
    ensures multiset(TiedWindow(1.0, 0.0)) == multiset(TiedWindow(0.0, 1.0))
  {
    Swapped(TiedWindow(1.0, 0.0), TiedWindow(0.0, 1.0));
  }

  lemma TiedStable(roots: Roots)
    ensures Says(Diagnose(roots, TiedWindow(1.0, 0.0), 8), Stable)
  {
    TiedValues(1.0, 0.0);
    hide TiedWindow; hide Recent; hide SignalsOf;
    NoNetChange(roots, [1.0, 0.0, 1.0, 1.0, 1.0, 1.0, 1.0, 1.0]);
  }

  lemma TiedRising(roots: Roots)
    requires roots.Valid()
    ensures Says(Diagnose(roots, TiedWindow(0.0, 1.0), 8), Rising)
  {
    TiedValues(0.0, 1.0);
    hide TiedWindow; hide Recent; hide SignalsOf; hide Roots.Valid;
    MonotoneWindowsRise(roots, [0.0, 1.0, 1.0, 1.0, 1.0, 1.0, 1.0, 1.0]);
  }

  lemma Swapped(obs: seq<Observation>, other: seq<Observation>)
    requires |obs| == |other| == 8 && obs[0] == other[1] && obs[1] == other[0] && obs[2..] == other[2..]
    ensures multiset(obs) == multiset(other)
  {
    var rest := obs[2..];
    assert obs == [obs[0]] + [obs[1]] + rest && other == [obs[1]] + [obs[0]] + rest;
  }

  lemma NoNetChange(roots: Roots, v: seq<real>)
    requires |v| >= 2 && Net(v) == 0.0
    ensures SignalsOf(roots, v).direction == Stable
  {
    hide Stability; hide Volatility; hide Alignment; hide Rate;
  }
}
