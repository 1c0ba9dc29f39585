/** Dataset planning (`backend/simulator/dataset/run_plan.py`) and the stratified split of the planned runs
    (`backend/simulator/dataset/splits.py`). Run ids are modelled by what the id text is built from. */
module RunPlan {
  import opened Basics
  import opened Scenarios

  type AssetId = string

  datatype RunId = RunId(scenario: Scenario, index: nat)

  datatype PlannedRun = PlannedRun(id: RunId, seed: int, asset: AssetId)

  datatype ScenarioPlan = ScenarioPlan(scenario: Scenario, runCount: nat)

  datatype Spec = Spec(plans: seq<ScenarioPlan>, seeds: seq<int>, assets: seq<AssetId>) {
    /** What `DatasetSpec` accepts. */
    predicate Valid() {
      && plans != [] && assets != []
      && (forall q :: 0 <= q < |plans| ==> plans[q].runCount > 0)
      && (forall q, r :: 0 <= q < r < |plans| ==> plans[q].scenario != plans[r].scenario)
      && |seeds| == Offset(plans, |plans|)
    }
  }

  /** Number of runs planned before plan `q`. */
  function Offset(plans: seq<ScenarioPlan>, q: nat): nat
    requires q <= |plans|
  {
    if q == 0 then 0 else Offset(plans, q - 1) + plans[q - 1].runCount
  }

  lemma {:induction false} OffsetMonotone(plans: seq<ScenarioPlan>, q: nat, r: nat)
    requires q <= r <= |plans|
    ensures Offset(plans, q) <= Offset(plans, r)
  {
    if q < r { OffsetMonotone(plans, q, r - 1); }
  }

  /** Run `j` of plan `q`: the next seed in the flat list, and the assets in turn. */
  function RunOf(spec: Spec, q: nat, j: nat): PlannedRun
    requires spec.Valid() && q < |spec.plans| && j < spec.plans[q].runCount
  {
    SeedInRange(spec, q, j);
    PlannedRun(RunId(spec.plans[q].scenario, j), spec.seeds[Offset(spec.plans, q) + j], spec.assets[j % |spec.assets|])
  }

  lemma SeedInRange(spec: Spec, q: nat, j: nat)
    requires spec.Valid() && q < |spec.plans| && j < spec.plans[q].runCount
    ensures Offset(spec.plans, q) + j < |spec.seeds|
  {
    assert Offset(spec.plans, q + 1) == Offset(spec.plans, q) + spec.plans[q].runCount;
    OffsetMonotone(spec.plans, q + 1, |spec.plans|);
  }

  /** The first `n` runs of plan `q`. */
  function Batch(spec: Spec, q: nat, n: nat): (r: seq<PlannedRun>)
    requires spec.Valid() && q < |spec.plans| && n <= spec.plans[q].runCount
    ensures |r| == n && forall j :: 0 <= j < n ==> r[j] == RunOf(spec, q, j)
  {
    if n == 0 then [] else Batch(spec, q, n - 1) + [RunOf(spec, q, n - 1)]
  }

  /** The runs of the first `q` plans, in order. */
  function Planned(spec: Spec, q: nat): (r: seq<PlannedRun>)
    requires spec.Valid() && q <= |spec.plans|
    ensures |r| == Offset(spec.plans, q)
  {
    if q == 0 then [] else Planned(spec, q - 1) + Batch(spec, q - 1, spec.plans[q - 1].runCount)
  }

  /** `plan_runs`: nested loops over plans and runs, with one seed cursor. */
  method PlanRuns(spec: Spec) returns (runs: seq<PlannedRun>)
    requires spec.Valid()
    ensures runs == Planned(spec, |spec.plans|)
  {
    hide Spec.Valid; hide Offset; hide Batch; hide Planned; hide RunOf;
    AssetsListed(spec);
    NoRunsBefore(spec);
    runs := [];
    var cursor := 0;
    for q := 0 to |spec.plans|
      invariant cursor == Offset(spec.plans, q) && runs == Planned(spec, q)
    {
      ghost var start := runs;
      BatchStarts(spec, q);
      for j := 0 to spec.plans[q].runCount
        invariant cursor == Offset(spec.plans, q) + j && runs == start + Batch(spec, q, j)
      {
        SeedInRange(spec, q, j);
        var run := PlannedRun(RunId(spec.plans[q].scenario, j), spec.seeds[cursor], spec.assets[j % |spec.assets|]);
        BatchGrows(spec, q, j, run);
        cursor := cursor + 1;
        runs := runs + [run];
      }
      PlannedGrows(spec, q);
    }
  }

  lemma NoRunsBefore(spec: Spec)
    requires spec.Valid()
    ensures Offset(spec.plans, 0) == 0 && Planned(spec, 0) == []
  {
  }

  lemma BatchStarts(spec: Spec, q: nat)
    requires spec.Valid() && q < |spec.plans|
    ensures Batch(spec, q, 0) == []
  {
  }

  lemma BatchGrows(spec: Spec, q: nat, j: nat, run: PlannedRun)
    requires spec.Valid() && q < |spec.plans| && j < spec.plans[q].runCount && Offset(spec.plans, q) + j < |spec.seeds|
    requires |spec.assets| > 0
    requires run == PlannedRun(RunId(spec.plans[q].scenario, j), spec.seeds[Offset(spec.plans, q) + j],
                               spec.assets[j % |spec.assets|])
    ensures Batch(spec, q, j + 1) == Batch(spec, q, j) + [run]
  {
    assert run == RunOf(spec, q, j);
  }

  lemma PlannedGrows(spec: Spec, q: nat)
    requires spec.Valid() && q < |spec.plans|
    ensures Offset(spec.plans, q + 1) == Offset(spec.plans, q) + spec.plans[q].runCount
    ensures Planned(spec, q + 1) == Planned(spec, q) + Batch(spec, q, spec.plans[q].runCount)
  {
  }

  lemma AssetsListed(spec: Spec)
    requires spec.Valid()
    ensures |spec.assets| > 0
  {
  }

  /** Where run `j` of plan `r` ends up. */
  lemma {:induction false} PlannedAt(spec: Spec, q: nat, r: nat, j: nat)
    requires spec.Valid() && r < q <= |spec.plans| && j < spec.plans[r].runCount
    ensures Offset(spec.plans, r) + j < Offset(spec.plans, q)
    ensures Planned(spec, q)[Offset(spec.plans, r) + j] == RunOf(spec, r, j)
  {
    hide Spec.Valid; hide RunOf;
    if r < q - 1 {
      PlannedAt(spec, q - 1, r, j);
    }
  }

  /** Every planned run is some run of some plan. */
  lemma {:induction false} Locate(plans: seq<ScenarioPlan>, q: nat, i: nat) returns (r: nat, j: nat)
    requires q <= |plans| && i < Offset(plans, q)
    ensures r < q && j < plans[r].runCount && i == Offset(plans, r) + j
  {
    if i < Offset(plans, q - 1) {
      r, j := Locate(plans, q - 1, i);
    } else {
      r, j := q - 1, i - Offset(plans, q - 1);
    }
  }

  /** A valid spec gives one run per seed, in order, and no two runs share an id. */
  lemma OneRunPerSeed(spec: Spec)
    requires spec.Valid()
    ensures var runs := Planned(spec, |spec.plans|);
            && |runs| == |spec.seeds|
            && (forall i :: 0 <= i < |runs| ==> runs[i].seed == spec.seeds[i])
            && (forall i, k :: 0 <= i < k < |runs| ==> runs[i].id != runs[k].id)
  {
    hide Planned;
    var q := |spec.plans|;
    var runs := Planned(spec, q);
    forall i | 0 <= i < |runs| ensures runs[i].seed == spec.seeds[i] {
      var r, j := Locate(spec.plans, q, i);
      PlannedAt(spec, q, r, j);
    }
    forall i, k | 0 <= i < k < |runs| ensures runs[i].id != runs[k].id {
      var r, j := Locate(spec.plans, q, i);
      var t, l := Locate(spec.plans, q, k);
      PlannedAt(spec, q, r, j);
      PlannedAt(spec, q, t, l);
    }
  }

  // --- target assets are balanced within each class ------------------------------------------------

  /** How many of the first `n` runs of plan `q` target asset `a`. */
  function Targeting(spec: Spec, q: nat, n: nat, a: AssetId): nat
    requires spec.Valid() && q < |spec.plans| && n <= spec.plans[q].runCount
  {
    if n == 0 then 0 else Targeting(spec, q, n - 1, a) + if RunOf(spec, q, n - 1).asset == a then 1 else 0
  }

  /** With distinct target assets, asset number `i` is targeted once per full round and once more if the last,
      incomplete round reaches it. */
  lemma {:induction false} RoundRobin(spec: Spec, q: nat, n: nat, i: nat)
    requires spec.Valid() && Distinct(spec.assets) && q < |spec.plans| && n <= spec.plans[q].runCount
    requires i < |spec.assets|
    ensures Targeting(spec, q, n, spec.assets[i]) == n / |spec.assets| + if i < n % |spec.assets| then 1 else 0
  {
    hide Spec.Valid; hide Distinct; hide RunOf;
    if n > 0 {
      hide Targeting;
      RoundRobin(spec, q, n - 1, i);
      NextTarget(spec, q, n, i);
      NextInRound(n - 1, |spec.assets|);
    } else {
      FirstRound(|spec.assets|);
    }
  }

  lemma NextTarget(spec: Spec, q: nat, n: nat, i: nat)
    requires spec.Valid() && Distinct(spec.assets) && q < |spec.plans| && 0 < n <= spec.plans[q].runCount
    requires i < |spec.assets|
    ensures Targeting(spec, q, n, spec.assets[i]) ==
            Targeting(spec, q, n - 1, spec.assets[i]) + if (n - 1) % |spec.assets| == i then 1 else 0
  {
    hide Spec.Valid;
    var turn := (n - 1) % |spec.assets|;
    assert RunOf(spec, q, n - 1).asset == spec.assets[turn];
    assert spec.assets[turn] == spec.assets[i] <==> turn == i;
  }

  lemma FirstRound(k: nat)
    requires k > 0
    ensures 0 / k == 0 && 0 % k == 0
  {
  }

  lemma NextInRound(n: nat, k: nat)
    requires k > 0
    ensures n % k < k
    ensures if n % k + 1 == k then (n + 1) / k == n / k + 1 && (n + 1) % k == 0
            else (n + 1) / k == n / k && (n + 1) % k == n % k + 1
  {
    var d, m := n / k, n % k;
    CountOn(n, d, k, m);
    if m + 1 == k {
      DivModUnique(n + 1, k, d + 1, 0);
    } else {
      DivModUnique(n + 1, k, d, m + 1);
    }
  }

  lemma CountOn(n: nat, d: nat, k: nat, m: nat)
    requires n == d * k + m
    ensures n + 1 == d * k + (m + 1) && (m + 1 == k ==> n + 1 == (d + 1) * k + 0)
  {
  }

  lemma DivModUnique(n: nat, k: nat, d: nat, m: nat)
    requires k > 0 && n == d * k + m && m < k
    ensures n / k == d && n % k == m
  {
    QuotientUnique(d, m, n / k, n % k, k);
  }

  lemma QuotientUnique(d: int, m: int, d': int, m': int, k: int)
    requires k > 0 && d * k + m == d' * k + m' && 0 <= m < k && 0 <= m' < k
    ensures d == d' && m == m'
  {
    var x := d - d';
    assert x * k == m' - m;
    MultipleIsFar(x, k);
  }

  lemma MultipleIsFar(x: int, k: int)
    requires k > 0
    ensures x >= 1 ==> x * k >= k
    ensures x <= -1 ==> x * k <= -k
  {
    if x >= 1 {
      assert (x - 1) * k >= 0;
    } else if x <= -1 {
      assert (-x - 1) * k >= 0;
    }
  }

  /** Per class, the numbers of runs of any two target assets differ by at most one. */
  lemma ClassesAreAssetBalanced(spec: Spec, q: nat, i: nat, j: nat)
    requires spec.Valid() && Distinct(spec.assets) && q < |spec.plans| && i < |spec.assets| && j < |spec.assets|
    ensures var n := spec.plans[q].runCount;
            -1 <= Targeting(spec, q, n, spec.assets[i]) - Targeting(spec, q, n, spec.assets[j]) <= 1
  {
    RoundRobin(spec, q, spec.plans[q].runCount, i);
    RoundRobin(spec, q, spec.plans[q].runCount, j);
  }
}
