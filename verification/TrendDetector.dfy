/** The split-half trend detector (`src/application/trend_detector.py`) over exact reals. */
module TrendDetector {
  import opened Basics
  import opened RealFacts
  import opened Statistics
  import opened Sorting

  datatype TrendDirection = STABLE | INCREASING | DECREASING

  datatype Observation = Observation(asset: string, measurement: string, timestamp: int, value: real)

  datatype Detected = Detected(direction: TrendDirection, asset: string, measurement: string)

  datatype DetectError = TooFew | MixedAssets | MixedMeasurements

  const MIN_SAMPLES := 8
  const STABLE_EPSILON := 0.000_000_001
  const RATIO_THRESHOLD := 0.8

  /** Half the window, rounded down. */
  function Half(v: seq<real>): nat { |v| / 2 }

  /** Mean of the last half less mean of the first half. */
  function Shift(v: seq<real>): real
    requires |v| >= 2
  {
    Mean(v[|v| - Half(v)..]) - Mean(v[..Half(v)])
  }

  function SplitHalfDirection(roots: Roots, v: seq<real>): TrendDirection {
    if |v| < MIN_SAMPLES then STABLE
    else
      var shift, spread := Shift(v), roots.root(Variance(v));
      var way := if shift > 0.0 then INCREASING else DECREASING;
      if Abs(shift) <= STABLE_EPSILON then STABLE
      else if spread <= STABLE_EPSILON then way
      else if Abs(shift) / spread < RATIO_THRESHOLD then STABLE
      else way
  }

  function KeyOf(o: Observation): Key { (o.timestamp, 0) }

  function Values(obs: seq<Observation>): seq<real> {
    var ordered := Sort(KeyOf, obs);
    seq(|ordered|, i requires 0 <= i < |ordered| => ordered[i].value)
  }

  /** The first observation, in order, that differs from the first in asset or measurement decides the error. */
  function FirstMismatch(first: Observation, rest: seq<Observation>): Option<DetectError> {
    if rest == [] then None
    else if rest[0].asset != first.asset then Some(MixedAssets)
    else if rest[0].measurement != first.measurement then Some(MixedMeasurements)
    else FirstMismatch(first, rest[1..])
  }

  /** `TrendDetector.detect`. */
  function Detect(roots: Roots, obs: seq<Observation>): Result<Detected, DetectError> {
    if |obs| < 2 then Failure(TooFew)
    else match FirstMismatch(obs[0], obs[1..])
      case Some(e) => Failure(e)
      case None => Success(Detected(SplitHalfDirection(roots, Values(obs)), obs[0].asset, obs[0].measurement))
  }

  lemma {:induction false} NoMismatchExactly(first: Observation, rest: seq<Observation>)
    ensures FirstMismatch(first, rest) == None <==>
            forall i :: 0 <= i < |rest| ==> rest[i].asset == first.asset && rest[i].measurement == first.measurement
  {
    if rest != [] {
      NoMismatchExactly(first, rest[1..]);
      assert rest == [rest[0]] + rest[1..];
    }
  }

  /** `detect` answers exactly the calls with two or more observations of one measurement of one asset. */
  lemma DetectsExactly(roots: Roots, obs: seq<Observation>)
    ensures Detect(roots, obs).Success? <==>
            |obs| >= 2 && forall i, j :: 0 <= i < |obs| && 0 <= j < |obs| ==>
              obs[i].asset == obs[j].asset && obs[i].measurement == obs[j].measurement
  {
    hide SplitHalfDirection; hide Values;
    if |obs| >= 2 {
      NoMismatchExactly(obs[0], obs[1..]);
      assert obs == [obs[0]] + obs[1..];
    }
  }

  // --- the shift against the spread ------------------------------------------------------------------

  /** First half, middle value (when the size is odd), last half: the deviations from `c` in each. */
  lemma Halves(v: seq<real>, c: real)
    requires |v| >= 2
    ensures var m := Half(v);
            SumSquares(Less(v[..m], c)) + SumSquares(Less(v[|v| - m..], c)) <= SumSquares(Less(v, c))
  {
    var m := Half(v);
    var a, b, d := Less(v[..m], c), Less(v[m..|v| - m], c), Less(v[|v| - m..], c);
    assert Less(v, c) == a + b + d;
    hide SumSquares; hide Less; hide Sum;
    SumOfParts(a + b, d);
    SumOfParts(a, b);
    SumSquaresNonNegative(b);
  }

  /** `m` times the shift is the last half's deviations less the first half's, whatever they are measured from. */
  lemma ShiftIsDeviations(v: seq<real>, c: real)
    requires |v| >= 2
    ensures var m := Half(v); Times(m as real, Shift(v)) == Sum(Less(v[|v| - m..], c)) - Sum(Less(v[..m], c))
  {
    hide Sum; hide Less; hide Mean; hide Times;
    var m := Half(v);
    var a, b := v[..m], v[|v| - m..];
    SumLess(a, c);
    SumLess(b, c);
    MeanTimesSize(a);
    MeanTimesSize(b);
    TimesDistributes(m as real, Mean(b), Mean(a));
  }

  /** The deviations of two parts of equal size: their difference, squared, against their squares. */
  lemma DifferenceSquared(a: seq<real>, b: seq<real>)
    requires |a| == |b|
    ensures Square(Sum(b) - Sum(a)) <= Times((|a| + |a|) as real, SumSquares(a) + SumSquares(b))
  {
    hide Sum; hide SumSquares; hide Negated; hide Times; hide Square;
    SumNegated(a);
    SumOfParts(Negated(a), b);
    SumSquared(Negated(a) + b);
  }

  lemma ShiftAndSpread(v: seq<real>)
    requires |v| >= 2
    ensures Times(Half(v) as real, Square(Shift(v))) <= 2.0 * Times(|v| as real, Variance(v))
  {
    hide Mean; hide Less; hide Sum; hide SumSquares; hide Variance; hide Shift; hide Square; hide Times;
    var c, m := Mean(v), Half(v);
    var a, b := Less(v[..m], c), Less(v[|v| - m..], c);
    Halves(v, c);
    ShiftIsDeviations(v, c);
    VarianceTimesSize(v);
    DifferenceSquared(a, b);
    Bounded(m, Shift(v), SumSquares(a) + SumSquares(b), Times(|v| as real, Variance(v)));
  }

  lemma Bounded(m: nat, shift: real, squares: real, total: real)
    requires m > 0 && Square(Times(m as real, shift)) <= Times((m + m) as real, squares) && squares <= total
    ensures Times(m as real, Square(shift)) <= 2.0 * total
  {
    var x := m as real;
    SquareScales(x, shift);
    assert Times((m + m) as real, squares) == Times(x, 2.0 * squares);
    hide Square; hide Times;
    TimesCancels(x, Times(x, Square(shift)), 2.0 * squares);
  }

  /** `shift^2 <= (2n/m) * variance`, for every window of `n` values and halves of `m`. */
  lemma ShiftBoundedBySpread(v: seq<real>)
    requires |v| >= 2
    ensures Square(Shift(v)) <= 2.0 * |v| as real / Half(v) as real * Variance(v)
  {
    hide Square; hide Shift; hide Variance;
    ShiftAndSpread(v);
    Rearranged(Half(v) as real, Square(Shift(v)), |v| as real, Variance(v));
  }

  lemma Rearranged(m: real, q: real, n: real, x: real)
    requires m > 0.0 && Times(m, q) <= 2.0 * Times(n, x)
    ensures q <= 2.0 * n / m * x
  {
    var r := 2.0 * n / m;
    TimesQuotient(m, 2.0 * n);
    TimesAssociates(m, r, x);
    assert Times(2.0 * n, x) == 2.0 * Times(n, x) && r * x == Times(r, x);
    hide Times;
    TimesCancels(m, q, Times(r, x));
  }

  /** So a window flat enough to skip the ratio test can only have a shift of a few times the noise floor. */
  lemma FlatWindowsBarelyShift(roots: Roots, v: seq<real>)
    requires roots.Valid() && |v| >= MIN_SAMPLES && roots.root(Variance(v)) <= STABLE_EPSILON
    ensures Abs(Shift(v)) <= 2.2 * STABLE_EPSILON
  {
    hide Variance; hide Shift; hide Square; hide SumSquares; hide Times;
    ShiftAndSpread(v);
    VarianceTimesSize(v);
    SquareMonotone(roots.root(Variance(v)), STABLE_EPSILON);
    SquareFacts(Shift(v));
    FlatBound(|v|, Half(v), Square(Shift(v)), Variance(v), STABLE_EPSILON);
    SquareReflectsOrder(Abs(Shift(v)), 2.2 * STABLE_EPSILON);
  }

  lemma FlatBound(n: nat, m: nat, q: real, x: real, e: real)
    requires n >= 8 && m == n / 2 && 0.0 <= x <= Square(e) && Times(m as real, q) <= 2.0 * Times(n as real, x)
    ensures q <= Square(2.2 * e)
  {
    var s := Square(e);
    assert Square(2.2 * e) == 4.84 * s;
    assert 2.0 * Times(n as real, s) == Times(2.0 * n as real, s) &&
        Times(4.5 * m as real, s) == Times(m as real, 4.5 * s);
    TimesCommutes(n as real, x);
    TimesCommutes(n as real, s);
    hide Square; hide Times;
    TimesMonotone(x, s, n as real);
    TimesMonotone(2.0 * n as real, 4.5 * m as real, s);
    TimesCancels(m as real, q, 4.5 * s);
  }

  // --- completeness -------------------------------------------------------------------------------------

  /** The spread is at most half the range. */
  lemma SpreadWithinRange(roots: Roots, v: seq<real>, lo: real, hi: real)
    requires roots.Valid() && v != [] && forall i :: 0 <= i < |v| ==> lo <= v[i] <= hi
    ensures roots.root(Variance(v)) <= (hi - lo) / 2.0 && roots.root(Variance(v)) >= 0.0
  {
    hide Variance; hide Square;
    var c, h := (lo + hi) / 2.0, (hi - lo) / 2.0;
    assert lo <= v[0] <= hi;
    VarianceBounded(v, c, h);
    SquareReflectsOrder(roots.root(Variance(v)), h);
  }

  /** A shift of at least two fifths of the window's range is always reported, in its own direction. */
  lemma LargeShiftsAreReported(roots: Roots, v: seq<real>, lo: real, hi: real)
    requires roots.Valid() && |v| >= MIN_SAMPLES && forall i :: 0 <= i < |v| ==> lo <= v[i] <= hi
    requires Abs(Shift(v)) > STABLE_EPSILON && Abs(Shift(v)) >= 0.4 * (hi - lo)
    ensures SplitHalfDirection(roots, v) == if Shift(v) > 0.0 then INCREASING else DECREASING
  {
    hide Variance; hide Shift; hide Square;
    SpreadWithinRange(roots, v, lo, hi);
    var spread := roots.root(Variance(v));
    if spread > STABLE_EPSILON {
      Reaches(Abs(Shift(v)), spread);
    }
  }

  lemma Reaches(shift: real, spread: real)
    requires spread > 0.0 && shift >= RATIO_THRESHOLD * spread
    ensures shift / spread >= RATIO_THRESHOLD
  {
    QuotientMonotone(RATIO_THRESHOLD * spread, shift, spread);
    assert RATIO_THRESHOLD * spread / spread == RATIO_THRESHOLD;
  }

  function Ramp(n: nat, start: real, slope: real): (v: seq<real>)
    ensures |v| == n
  {
    seq(n, i => start + Times(i as real, slope))
  }

  /** Every element of `b` exceeds its counterpart in `a` by `d`. */
  lemma {:induction false} SumsApart(a: seq<real>, b: seq<real>, d: real)
    requires |a| == |b| && forall i :: 0 <= i < |a| ==> b[i] == a[i] + d
    ensures Sum(b) == Sum(a) + Times(|a| as real, d)
  {
    hide Times;
    TimesUnits(d);
    if a != [] {
      var n := |a| - 1;
      SumsApart(a[..n], b[..n], d);
      TimesOneMore(n, d);
    }
  }

  lemma MeansApart(a: seq<real>, b: seq<real>, d: real)
    requires a != [] && |a| == |b| && forall i :: 0 <= i < |a| ==> b[i] == a[i] + d
    ensures Mean(b) == Mean(a) + d
  {
    hide Times; hide Mean; hide Sum;
    SumsApart(a, b, d);
    MeanTimesSize(a);
    TimesDistributes(|a| as real, Mean(a), d);
    MeanUnique(b, Mean(a) + d);
  }

  lemma RampShift(n: nat, start: real, slope: real)
    requires n >= 2
    ensures Shift(Ramp(n, start, slope)) == Times((n - n / 2) as real, slope)
  {
    hide Times; hide Mean;
    var v, m := Ramp(n, start, slope), n / 2;
    var a, b, d := v[..m], v[n - m..], Times((n - m) as real, slope);
    forall i | 0 <= i < m ensures b[i] == a[i] + d { RampStep(n - m, i, slope); }
    hide Ramp;
    MeansApart(a, b, d);
  }

  lemma RampStep(k: nat, i: nat, slope: real)
    ensures Times((k + i) as real, slope) == Times(i as real, slope) + Times(k as real, slope)
  {
    var x, y := k as real, i as real;
    assert (x + y) * slope == x * slope + y * slope;
  }

  /** Every arithmetic ramp that shifts at all is reported in the direction of its slope. */
  lemma RampsAreReported(roots: Roots, n: nat, start: real, slope: real)
    requires roots.Valid() && n >= MIN_SAMPLES && Abs(Shift(Ramp(n, start, slope))) > STABLE_EPSILON
    ensures SplitHalfDirection(roots, Ramp(n, start, slope)) == if slope > 0.0 then INCREASING else DECREASING
  {
    hide SplitHalfDirection; hide Shift; hide Times;
    var v, rise := Ramp(n, start, slope), Times((n - 1) as real, slope);
    RampShift(n, start, slope);
    RampIsSteep(n, slope);
    var lo := Min(start, start + rise);
    var hi := lo + Abs(rise);
    forall i | 0 <= i < n ensures lo <= v[i] <= hi { RampWithin(n, i, slope); }
    hide Ramp;
    LargeShiftsAreReported(roots, v, lo, hi);
  }

  lemma RampWithin(n: nat, i: nat, slope: real)
    requires i < n
    ensures slope >= 0.0 ==> 0.0 <= Times(i as real, slope) <= Times((n - 1) as real, slope)
    ensures slope <= 0.0 ==> Times((n - 1) as real, slope) <= Times(i as real, slope) <= 0.0
  {
    hide Times;
    var a, b := i as real, (n - 1) as real;
    if slope >= 0.0 {
      TimesPositive(a, slope);
      TimesMonotone(a, b, slope);
    }
    if slope <= 0.0 {
      TimesPositive(a, -slope);
      TimesMonotone(a, b, -slope);
      TimesDistributes(a, slope, 0.0);
      TimesDistributes(b, slope, 0.0);
    }
  }

  lemma RampIsSteep(n: nat, slope: real)
    requires n >= 2
    ensures Abs(Times((n - n / 2) as real, slope)) >= 0.4 * Abs(Times((n - 1) as real, slope))
    ensures Times((n - n / 2) as real, slope) > 0.0 <==> slope > 0.0
  {
    var k, r := (n - n / 2) as real, (n - 1) as real;
    SignOfProduct(k, slope);
    SignOfProduct(r, slope);
    assert Times(0.4 * r, slope) == 0.4 * Times(r, slope);
    assert Times(0.4 * r, -slope) == -(0.4 * Times(r, slope));
    TimesDistributes(k, slope, 0.0);
    hide Times;
    if slope >= 0.0 { TimesMonotone(0.4 * r, k, slope); } else { TimesMonotone(0.4 * r, k, -slope); }
  }

  lemma SignOfProduct(k: real, x: real)
    requires k > 0.0
    ensures (x > 0.0 ==> Times(k, x) > 0.0) && (x <= 0.0 ==> Times(k, x) <= 0.0)
  {
    hide Times;
    TimesPositive(k, x);
    TimesPositive(k, -x);
    TimesDistributes(k, x, 0.0);
  }

  // --- monotone windows and symmetries ---------------------------------------------------------------------

  lemma {:induction false} SumOrdered(a: seq<real>, b: seq<real>)
    requires |a| == |b| && forall i :: 0 <= i < |a| ==> a[i] <= b[i]
    ensures Sum(a) <= Sum(b)
  {
    if a != [] { SumOrdered(a[..|a| - 1], b[..|b| - 1]); }
  }

  predicate Ordered(v: seq<real>) { forall i, j :: 0 <= i <= j < |v| ==> v[i] <= v[j] }

  /** A window that never falls is never reported as decreasing. */
  lemma NonDecreasingNeverDecreases(roots: Roots, v: seq<real>)
    requires Ordered(v)
    ensures SplitHalfDirection(roots, v) != DECREASING
  {
    if |v| >= MIN_SAMPLES {
      var m := Half(v);
      SumOrdered(v[..m], v[|v| - m..]);
      QuotientMonotone(Sum(v[..m]), Sum(v[|v| - m..]), m as real);
      hide Sum; hide Variance;
      assert Shift(v) >= 0.0;
    }
  }

  function Swapped(d: TrendDirection): TrendDirection {
    match d case STABLE => STABLE case INCREASING => DECREASING case DECREASING => INCREASING
  }

  /** Turning the window upside down swaps the two directions. */
  lemma NegationSwaps(roots: Roots, v: seq<real>)
    ensures SplitHalfDirection(roots, Negated(v)) == Swapped(SplitHalfDirection(roots, v))
  {
    if |v| >= MIN_SAMPLES {
      var m, w := Half(v), Negated(v);
      assert w[..m] == Negated(v[..m]) && w[|v| - m..] == Negated(v[|v| - m..]);
      NegatedMean(v[..m]);
      NegatedMean(v[|v| - m..]);
      NegatedVariance(v);
      hide Mean; hide Negated; hide Variance;
      assert Shift(w) == -Shift(v);
      hide Shift;
    }
  }

  /** Adding a constant to every value changes nothing. */
  lemma OffsetChangesNothing(roots: Roots, v: seq<real>, c: real)
    ensures SplitHalfDirection(roots, Less(v, c)) == SplitHalfDirection(roots, v)
  {
    if |v| >= MIN_SAMPLES {
      var n, w := Half(v), Less(v, c);
      assert w[..n] == Less(v[..n], c) && w[|v| - n..] == Less(v[|v| - n..], c);
      OffsetMean(v[..n], c);
      OffsetMean(v[|v| - n..], c);
      OffsetVariance(v, c);
      hide Less; hide Mean; hide Variance;
      assert Shift(w) == Shift(v);
    }
  }

  // --- what is read, and when a direction is reported ------------------------------------------------------

  /** A detection reads the values of all observations by time, and those of one instant in their order of arrival. */
  lemma ReadsByTime(roots: Roots, obs: seq<Observation>) returns (ordered: seq<Observation>)
    requires Detect(roots, obs).Success?
    ensures multiset(ordered) == multiset(obs)
    ensures forall i, j :: 0 <= i < j < |ordered| ==> ordered[i].timestamp <= ordered[j].timestamp
    ensures forall k :: Having(KeyOf, ordered, k) == Having(KeyOf, obs, k)
    ensures var v := seq(|ordered|, i requires 0 <= i < |ordered| => ordered[i].value);
            Detect(roots, obs).value.direction == SplitHalfDirection(roots, v)
    ensures Detect(roots, obs).value.asset == obs[0].asset && Detect(roots, obs).value.measurement == obs[0].measurement
  {
    ordered := Sort(KeyOf, obs);
    SortSorts(KeyOf, obs);
    forall k ensures Having(KeyOf, ordered, k) == Having(KeyOf, obs, k) { SortIsStable(KeyOf, obs, k); }
    forall i, j | 0 <= i < j < |ordered| ensures ordered[i].timestamp <= ordered[j].timestamp {
      assert AtMost(KeyOf(ordered[i]), KeyOf(ordered[j]));
    }
    hide Sort; hide SplitHalfDirection; hide Having;
    assert Values(obs) == seq(|ordered|, i requires 0 <= i < |ordered| => ordered[i].value);
  }

  /** When a direction is reported, without any root: the window has eight values or more, the halves' means differ by
      more than 1e-9, and that difference is at least 0.8 of the spread or the spread is at most 1e-9. */
  lemma ReportedExactly(roots: Roots, v: seq<real>)
    requires roots.Valid()
    ensures SplitHalfDirection(roots, v) != STABLE <==>
            && |v| >= 8 && Abs(Shift(v)) > 0.000000001
            && (Variance(v) <= Square(0.000000001) || Square(Shift(v)) >= 0.64 * Variance(v))
    ensures SplitHalfDirection(roots, v) != STABLE ==> (SplitHalfDirection(roots, v) == INCREASING <==> Shift(v) > 0.0)
  {
    if |v| >= MIN_SAMPLES {
      VarianceTimesSize(v);
      hide Variance; hide Shift; hide SumSquares; hide Less; hide Mean; hide Times; hide Square;
      var shift, spread, x := Abs(Shift(v)), roots.root(Variance(v)), Variance(v);
      SquareFacts(Shift(v));
      assert Square(shift) == Square(Shift(v));
      OrderedBySquares(spread, STABLE_EPSILON);
      if spread > STABLE_EPSILON {
        RatioBySquares(shift, spread);
      }
    }
  }

  lemma OrderedBySquares(a: real, b: real)
    requires a >= 0.0 && b >= 0.0
    ensures a <= b <==> Square(a) <= Square(b)
  {
    hide Square;
    if a <= b { SquareMonotone(a, b); }
    if Square(a) <= Square(b) { SquareReflectsOrder(a, b); }
  }

  lemma RatioBySquares(shift: real, spread: real)
    requires shift >= 0.0 && spread > 0.0
    ensures shift / spread >= RATIO_THRESHOLD <==> Square(shift) >= 0.64 * Square(spread)
  {
    assert Square(0.8 * spread) == 0.64 * Square(spread);
    hide Square;
    OrderedBySquares(0.8 * spread, shift);
    if shift >= 0.8 * spread { Reaches(shift, spread); } else { FallsShort(shift, spread); }
  }

  lemma FallsShort(shift: real, spread: real)
    requires spread > 0.0 && shift < 0.8 * spread
    ensures shift / spread < 0.8
  {
    var q := shift / spread;
    TimesQuotient(spread, shift);
    assert Times(spread, 0.8) == 0.8 * spread;
    hide Times;
    if q >= 0.8 {
      TimesMonotone(0.8, q, spread);
      TimesCommutes(q, spread);
      TimesCommutes(0.8, spread);
    }
  }
}
