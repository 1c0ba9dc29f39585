/** The step-based trend classifier (`backend/app/application/time_series_analysis.py`) over exact reals. */
module TimeSeries {
  import opened Basics
  import opened RealFacts
  import opened Statistics
  import opened Sorting

  datatype Direction = Stable | Rising | Falling

  datatype Observation = Observation(timestamp: int, id: int, value: real)

  const MIN_SAMPLES := 8
  const NET_EPSILON := 0.000_000_001
  const STEP_EPSILON := 0.000_000_000_001
  const RATE_EPSILON := 0.000_001

  // --- steps ----------------------------------------------------------------------------------

  function Steps(v: seq<real>): (ds: seq<real>)
    ensures |ds| == if v == [] then 0 else |v| - 1
  {
    if v == [] then [] else seq(|v| - 1, i requires 0 <= i < |v| - 1 => v[i + 1] - v[i])
  }

  predicate Tiny(d: real) { Abs(d) <= STEP_EPSILON }

  predicate Along(d: real, dir: Direction) { !Tiny(d) && ((dir == Rising && d > 0.0) || (dir == Falling && d < 0.0)) }

  /** How many steps moved at all. */
  function Moving(ds: seq<real>): (n: nat)
    ensures n <= |ds|
  {
    if ds == [] then 0 else Moving(ds[..|ds| - 1]) + if Tiny(ds[|ds| - 1]) then 0 else 1
  }

  /** How many of those moved in direction `dir`. */
  function Aligned(ds: seq<real>, dir: Direction): (n: nat)
    ensures n <= Moving(ds)
  {
    if ds == [] then 0 else Aligned(ds[..|ds| - 1], dir) + if Along(ds[|ds| - 1], dir) then 1 else 0
  }

  function Alignment(ds: seq<real>, dir: Direction): (m: real)
    ensures 0.0 <= m <= 1.0
  {
    if ds == [] then 1.0
    else if dir == Stable then (if Moving(ds) == 0 then 1.0 else 0.6)
    else if Moving(ds) == 0 then 0.8
    else AtMostOne(Aligned(ds, dir), Moving(ds)); Aligned(ds, dir) as real / Moving(ds) as real
  }

  lemma AtMostOne(a: nat, k: nat)
    requires a <= k && k > 0
    ensures 0.0 <= a as real / k as real <= 1.0
  {
    QuotientMonotone(0.0, a as real, k as real);
    QuotientMonotone(a as real, k as real, k as real);
  }

  /** `_monotonicity`: one pass that counts the moving and the aligned steps. */
  method Monotonicity(ds: seq<real>, dir: Direction) returns (m: real)
    ensures m == Alignment(ds, dir)
  {
    if ds == [] {
      return 1.0;
    }
    var aligned, considered := 0, 0;
    for i := 0 to |ds|
      invariant considered == Moving(ds[..i]) && aligned == Aligned(ds[..i], dir)
    {
      assert ds[..i + 1][..i] == ds[..i];
      if !Tiny(ds[i]) {
        considered := considered + 1;
        if (dir == Rising && ds[i] > 0.0) || (dir == Falling && ds[i] < 0.0) {
          aligned := aligned + 1;
        }
      }
    }
    assert ds[..|ds|] == ds;
    if dir == Stable {
      return if considered == 0 then 1.0 else 0.6;
    }
    if considered == 0 {
      return 0.8;
    }
    return aligned as real / considered as real;
  }

  /** The steps, by index, that moved at all, and those that moved in direction `dir`. */
  ghost function MovingSteps(ds: seq<real>): set<int> { set i | 0 <= i < |ds| && Abs(ds[i]) > 0.000000000001 }

  ghost function StepsAlong(ds: seq<real>, dir: Direction): set<int>
    requires dir != Stable
  {
    set i | i in MovingSteps(ds) && (ds[i] > 0.0 <==> dir == Rising)
  }

  lemma {:induction false} MovingIsCount(ds: seq<real>)
    ensures Moving(ds) == |MovingSteps(ds)|
  {
    if ds != [] {
      var n := |ds| - 1;
      MovingIsCount(ds[..n]);
      assert MovingSteps(ds) == MovingSteps(ds[..n]) + if Tiny(ds[n]) then {} else {n};
    }
  }

  lemma {:induction false} AlignedIsCount(ds: seq<real>, dir: Direction)
    requires dir != Stable
    ensures Aligned(ds, dir) == |StepsAlong(ds, dir)|
  {
    if ds != [] {
      var n := |ds| - 1;
      AlignedIsCount(ds[..n], dir);
      AlongGrows(ds, dir);
    }
  }

  lemma AlongGrows(ds: seq<real>, dir: Direction)
    requires dir != Stable && ds != []
    ensures var n := |ds| - 1;
            n !in StepsAlong(ds[..n], dir) &&
            StepsAlong(ds, dir) == StepsAlong(ds[..n], dir) + if Along(ds[n], dir) then {n} else {}
  {
  }

  /** The alignment of steps: the share of the moving ones that went in the direction; without a moving step 0.8, for a
      stable window 0.6, and 1 where nothing moved or there is no step. */
  lemma AlignmentMeans(ds: seq<real>, dir: Direction)
    ensures var m := Alignment(ds, dir);
            if dir == Stable then m == (if MovingSteps(ds) == {} then 1.0 else 0.6)
            else if MovingSteps(ds) == {} then m == (if ds == [] then 1.0 else 0.8)
            else Times(|MovingSteps(ds)| as real, m) == |StepsAlong(ds, dir)| as real
  {
    var way := if dir == Stable then Rising else dir;
    MovingIsCount(ds);
    AlignedIsCount(ds, way);
    if |MovingSteps(ds)| > 0 { TimesQuotient(Moving(ds) as real, Aligned(ds, way) as real); }
    hide Aligned; hide Times;
  }

  // --- signals -----------------------------------------------------------------------------------

  function Net(v: seq<real>): real
    requires v != []
  {
    v[|v| - 1] - v[0]
  }

  /** Average change per step. */
  function Rate(v: seq<real>): real
    requires v != []
  {
    if |v| == 1 then Net(v) else Net(v) / (|v| - 1) as real
  }

  function Hypothesis(v: seq<real>): Direction
    requires v != []
  {
    if Abs(Net(v)) <= NET_EPSILON then Stable else if Net(v) > 0.0 then Rising else Falling
  }

  /** `_volatility_norm`. */
  function Volatility(roots: Roots, ds: seq<real>, rate: real): (x: real)
    ensures 0.0 <= x <= 1.0
  {
    if ds == [] then 0.0 else Clamp(roots.root(Variance(ds)) / (Abs(rate) + RATE_EPSILON), 0.0, 1.0)
  }

  function Stability(alignment: real, volatility: real): (score: int)
    ensures 0 <= score <= 100
  {
    var raw := Round(100.0 * (0.65 * alignment + 0.35 * (1.0 - volatility)));
    if raw > 100 then 100 else if raw < 0 then 0 else raw
  }

  datatype Signals = Signals(
    direction: Direction, rate: real, monotonicity: real, volatility: real, stability: int, volatilityScore: int)

  function SignalsOf(roots: Roots, v: seq<real>): (s: Signals)
    requires v != []
  {
    var ds, guess := Steps(v), Hypothesis(v);
    var volatility := Volatility(roots, ds, Rate(v));
    var score := Stability(Alignment(ds, guess), volatility);
    var direction := if score < 55 then Stable else guess;
    Signals(direction, Rate(v), Alignment(ds, direction), volatility, score, Round(100.0 * volatility))
  }

  /** `_compute_signals`: guess from the net change, then withdraw the guess when the score is too low. */
  method ComputeSignals(roots: Roots, v: seq<real>) returns (s: Signals)
    requires v != []
    ensures s == SignalsOf(roots, v)
    ensures 0 <= s.stability <= 100 && 0 <= s.volatilityScore <= 100
  {
    var ds, guess := Steps(v), Hypothesis(v);
    var monotonicity := Monotonicity(ds, guess);
    var volatility := Volatility(roots, ds, Rate(v));
    RoundIsNear(100.0 * volatility);
    var score := Stability(monotonicity, volatility);
    var direction := guess;
    if guess != Stable && score < 55 {
      direction := Stable;
      monotonicity := Monotonicity(ds, direction);
    }
    s := Signals(direction, Rate(v), monotonicity, volatility, score, Round(100.0 * volatility));
  }

  function KeyOf(o: Observation): Key { (o.timestamp, o.id) }

  function Recent(obs: seq<Observation>, window: nat): seq<real> {
    var ordered := Sort(KeyOf, obs);
    var kept := if |ordered| <= window then ordered else ordered[|ordered| - window..];
    seq(|kept|, i requires 0 <= i < |kept| => kept[i].value)
  }

  /** `analyze_trend_diagnostics`: an error for a bad window, nothing for a short one. */
  function Diagnose(roots: Roots, obs: seq<Observation>, window: int): Result<Option<Signals>, string> {
    if window <= 0 then Failure("observation_window must be > 0")
    else
      var v := Recent(obs, window);
      if |v| < MIN_SAMPLES then Success(None) else Success(Some(SignalsOf(roots, v)))
  }

  /** "Ordering does not matter" (the docstring of `analyze_trend`) whenever observations that share a timestamp and an
      id are the same observation. */
  lemma ArrivalOrderDoesNotMatter(roots: Roots, obs: seq<Observation>, other: seq<Observation>, window: int)
    requires multiset(obs) == multiset(other) && KeysTellApart(KeyOf, multiset(obs))
    ensures Diagnose(roots, obs, window) == Diagnose(roots, other, window)
  {
    OrderDoesNotMatterExactly(KeyOf, obs);
    hide Sort; hide SignalsOf;
    assert Sort(KeyOf, other) == Sort(KeyOf, obs);
  }

  function Values(obs: seq<Observation>): (v: seq<real>)
    ensures |v| == |obs| && forall i :: 0 <= i < |obs| ==> v[i] == obs[i].value
  {
    seq(|obs|, i requires 0 <= i < |obs| => obs[i].value)
  }

  /** Equal keys and equal values make equal observations. */
  lemma KeysAndValues(a: seq<Observation>, b: seq<Observation>)
    requires Keys(KeyOf, a) == Keys(KeyOf, b) && Values(a) == Values(b)
    ensures a == b
  {
    assert |Keys(KeyOf, a)| == |a| && |Keys(KeyOf, b)| == |b|;
    forall i | 0 <= i < |a| ensures a[i] == b[i] {
      assert Keys(KeyOf, a)[i] == KeyOf(a[i]) && Keys(KeyOf, b)[i] == KeyOf(b[i]);
      assert Values(a)[i] == a[i].value && Values(b)[i] == b[i].value;
    }
  }

  lemma WholeWindow(obs: seq<Observation>)
    ensures Recent(obs, |obs|) == Values(Sort(KeyOf, obs))
  {
    SortSorts(KeyOf, obs);
    SameSize(Sort(KeyOf, obs), obs);
    hide Sort;
  }

  ghost predicate WindowsIgnoreArrivalOrder(obs: seq<Observation>) {
    forall other: seq<Observation>, window: nat :: multiset(other) == multiset(obs) ==>
        Recent(other, window) == Recent(obs, window)
  }

  /** The values that are analysed do not depend on the order of arrival, for any window, if and only if observations
      that share a timestamp and an id are the same observation. */
  lemma WindowsIgnoreArrivalOrderExactly(obs: seq<Observation>)
    ensures WindowsIgnoreArrivalOrder(obs) <==> KeysTellApart(KeyOf, multiset(obs))
  {
    hide Sort; hide Values; hide Keys;
    OrderDoesNotMatterExactly(KeyOf, obs);
    if WindowsIgnoreArrivalOrder(obs) {
      forall other: seq<Observation> | multiset(other) == multiset(obs)
        ensures Sort(KeyOf, other) == Sort(KeyOf, obs)
      {
        SameSize(other, obs);
        WholeWindow(obs);
        WholeWindow(other);
        assert Recent(other, |obs|) == Recent(obs, |obs|);
        hide Recent;
        SortedKeysAreUnique(KeyOf, other, obs);
        KeysAndValues(Sort(KeyOf, other), Sort(KeyOf, obs));
      }
    }
  }

  // --- which observations are analysed --------------------------------------------------------------

  /** Older than, or as old and with an id that is no greater. */
  predicate NotAfter(a: Observation, b: Observation) {
    a.timestamp < b.timestamp || (a.timestamp == b.timestamp && a.id <= b.id)
  }

  ghost predicate OldestFirst(kept: seq<Observation>) {
    forall i, j :: 0 <= i < j < |kept| ==> NotAfter(kept[i], kept[j])
  }

  ghost predicate NoneIsAfter(left: seq<Observation>, kept: seq<Observation>) {
    forall i, j :: 0 <= i < |left| && 0 <= j < |kept| ==> NotAfter(left[i], kept[j])
  }

  lemma SortedByTime(s: seq<Observation>, n: nat)
    requires Sorted(KeyOf, s) && n <= |s|
    ensures OldestFirst(s[n..]) && NoneIsAfter(s[..n], s[n..])
  {
    forall i, j | 0 <= i < j < |s| ensures NotAfter(s[i], s[j]) {
      assert AtMost(KeyOf(s[i]), KeyOf(s[j]));
    }
    hide NotAfter;
  }

  /** The analysed values are those of the newest observations, oldest first: as many as the window takes, and none that
      is left out is newer than any of them. */
  lemma NewestAreAnalysed(obs: seq<Observation>, window: nat) returns (left: seq<Observation>, kept: seq<Observation>)
    ensures multiset(left + kept) == multiset(obs)
    ensures |kept| == if |obs| <= window then |obs| else window
    ensures Recent(obs, window) == Values(kept)
    ensures OldestFirst(kept) && NoneIsAfter(left, kept)
  {
    SortSorts(KeyOf, obs);
    var ordered := Sort(KeyOf, obs);
    SameSize(ordered, obs);
    var n := if |ordered| <= window then 0 else |ordered| - window;
    left, kept := ordered[..n], ordered[n..];
    assert ordered == left + kept;
    hide Sort; hide Sorted; hide OldestFirst; hide NoneIsAfter;
    SortedByTime(ordered, n);
  }

  /** The analysis answers with signals exactly when the window is positive and takes at least eight observations. */
  lemma DiagnosesExactly(roots: Roots, obs: seq<Observation>, window: int)
    ensures Diagnose(roots, obs, window).Failure? <==> window <= 0
    ensures Diagnose(roots, obs, window).Success? && Diagnose(roots, obs, window).value.Some? <==>
            window >= 8 && |obs| >= 8
    ensures window >= 8 && |obs| >= 8 ==>
              |Recent(obs, window)| >= 8 &&
              Diagnose(roots, obs, window) == Success(Some(SignalsOf(roots, Recent(obs, window))))
  {
    if window > 0 { var left, kept := NewestAreAnalysed(obs, window); }
    hide Sort; hide SignalsOf; hide Recent;
  }

  // --- what the numbers of an analysis mean -------------------------------------------------------------

  /** A direction is reported exactly for a net change that is not negligible and a score of at least 55. */
  lemma DirectionMeans(roots: Roots, v: seq<real>)
    requires |v| >= 2
    ensures var s, net := SignalsOf(roots, v), v[|v| - 1] - v[0];
            && s.rate == net / (|v| - 1) as real
            && (s.direction == Rising <==> net > 0.000000001 && s.stability >= 55)
            && (s.direction == Falling <==> -net > 0.000000001 && s.stability >= 55)
            && s.monotonicity == Alignment(Steps(v), s.direction)
  {
    hide Alignment; hide Volatility; hide Stability; hide Round; hide Steps;
  }

  lemma CappedQuotient(spread: real, size: real)
    requires size > 0.0
    ensures var x := Clamp(spread / size, 0.0, 1.0);
            (spread >= size ==> x == 1.0) && (0.0 <= spread <= size ==> x * size == spread)
  {
    if spread >= size {
      QuotientMonotone(size, spread, size);
    } else if spread >= 0.0 {
      QuotientMonotone(spread, size, size);
      QuotientMonotone(0.0, spread, size);
    }
  }

  /** The volatility is the spread of the steps against the size of the rate, and one where the spread is larger. */
  lemma VolatilityMeans(roots: Roots, ds: seq<real>, rate: real)
    requires ds != []
    ensures var x, spread, size := Volatility(roots, ds, rate), roots.root(Variance(ds)), Abs(rate) + 0.000001;
            && (spread >= size ==> x == 1.0)
            && (0.0 <= spread <= size ==> x * size == spread)
  {
    CappedQuotient(roots.root(Variance(ds)), Abs(rate) + RATE_EPSILON);
    hide Variance; hide Clamp;
  }

  /** The scores are percentages rounded to the nearest; the stability weighs alignment and calm by 65 and 35. */
  lemma ScoresMean(roots: Roots, v: seq<real>)
    requires v != []
    ensures var s := SignalsOf(roots, v); var calm := 1.0 - s.volatility;
            && s.volatility == Volatility(roots, Steps(v), Rate(v))
            && -0.5 <= s.volatilityScore as real - 100.0 * s.volatility <= 0.5
            && -0.5 <= s.stability as real - (65.0 * Alignment(Steps(v), Hypothesis(v)) + 35.0 * calm) <= 0.5
  {
    var x := Volatility(roots, Steps(v), Rate(v));
    RoundIsNear(100.0 * x);
    RoundIsNear(100.0 * (0.65 * Alignment(Steps(v), Hypothesis(v)) + 0.35 * (1.0 - x)));
    hide Round; hide Steps; hide Alignment; hide Volatility; hide Hypothesis; hide Rate;
  }
}
