/** `assign_splits` (`backend/simulator/dataset/splits.py`): strata are filled run by run, shuffled, and cut into
    train, validation and test. Shuffling may be any permutation. */
module SplitAssignment {
  import opened Basics
  import opened Splits
  import opened Scenarios
  import opened RunPlan

  datatype Key = Key(scenario: Scenario, asset: AssetId)

  function KeyOf(run: PlannedRun): Key { Key(run.id.scenario, run.asset) }

  type Shuffle = (Key, seq<RunId>) -> seq<RunId>

  ghost predicate Permutes(shuffle: Shuffle) {
    forall k: Key, s: seq<RunId> :: multiset(shuffle(k, s)) == multiset(s)
  }

  function Ids(runs: seq<PlannedRun>): (r: seq<RunId>)
    ensures |r| == |runs| && forall i :: 0 <= i < |runs| ==> r[i] == runs[i].id
  {
    seq(|runs|, i requires 0 <= i < |runs| => runs[i].id)
  }

  /** The ids of the runs in stratum `k`, in planning order. */
  function Stratum(runs: seq<PlannedRun>, k: Key): seq<RunId> {
    if runs == [] then []
    else
      var n := |runs| - 1;
      Stratum(runs[..n], k) + if KeyOf(runs[n]) == k then [runs[n].id] else []
  }

  /** Python's clamping slices. */
  function Cut(s: seq<RunId>, at: int): (k: nat)
    ensures k <= |s|
  {
    if at < 0 then 0 else if at > |s| then |s| else at
  }

  function TrainPart(s: seq<RunId>, p: Proportions): seq<RunId> {
    var c := SplitSizes(|s|, p);
    if |c| == 3 then s[..Cut(s, c[0])] else s
  }

  function ValidationPart(s: seq<RunId>, p: Proportions): seq<RunId> {
    var c := SplitSizes(|s|, p);
    if |c| == 3 && Cut(s, c[0]) <= Cut(s, c[0] + c[1]) then s[Cut(s, c[0])..Cut(s, c[0] + c[1])] else []
  }

  function TestPart(s: seq<RunId>, p: Proportions): seq<RunId> {
    var c := SplitSizes(|s|, p);
    if |c| == 3 then s[Cut(s, c[0] + c[1])..] else []
  }

  datatype Assignment = Assignment(train: seq<RunId>, validation: seq<RunId>, test: seq<RunId>) {
    function All(): multiset<RunId> { multiset(train) + multiset(validation) + multiset(test) }

    function How(id: RunId): nat { multiset(train)[id] + multiset(validation)[id] + multiset(test)[id] }
  }

  /** The strata of `order`, shuffled and cut one after another. */
  function Assigned(order: seq<Key>, runs: seq<PlannedRun>, p: Proportions, shuffle: Shuffle): Assignment {
    if order == [] then Assignment([], [], [])
    else
      var n := |order| - 1;
      var a := Assigned(order[..n], runs, p, shuffle);
      var s := shuffle(order[n], Stratum(runs, order[n]));
      Assignment(a.train + TrainPart(s, p), a.validation + ValidationPart(s, p), a.test + TestPart(s, p))
  }

  ghost predicate ListsStrata(order: seq<Key>, runs: seq<PlannedRun>) {
    Distinct(order) && forall k :: k in order <==> HasStratum(runs, k)
  }

  ghost predicate HasStratum(runs: seq<PlannedRun>, k: Key) { exists i :: 0 <= i < |runs| && KeyOf(runs[i]) == k }

  /** `strata` holds the stratum of every key that occurs in `runs`, and nothing else. */
  ghost predicate Groups(strata: map<Key, seq<RunId>>, runs: seq<PlannedRun>) {
    && (forall k :: k in strata <==> HasStratum(runs, k))
    && (forall k :: Stratum(runs, k) == if k in strata then strata[k] else [])
  }

  lemma GroupsGrow(strata: map<Key, seq<RunId>>, runs: seq<PlannedRun>, run: PlannedRun)
    requires Groups(strata, runs)
    ensures var k := KeyOf(run);
            Groups(strata[k := (if k in strata then strata[k] else []) + [run.id]], runs + [run])
  {
    hide Stratum; hide HasStratum;
    var all := runs + [run];
    forall k ensures HasStratum(all, k) <==> HasStratum(runs, k) || k == KeyOf(run) { HasStratumSnoc(runs, run, k); }
    forall k ensures Stratum(all, k) == if KeyOf(run) == k then Stratum(runs, k) + [run.id] else Stratum(runs, k) {
      StratumSnoc(runs, run, k);
    }
  }

  lemma HasStratumSnoc(runs: seq<PlannedRun>, run: PlannedRun, k: Key)
    ensures HasStratum(runs + [run], k) <==> HasStratum(runs, k) || k == KeyOf(run)
  {
    var all := runs + [run];
    assert all[|runs|] == run;
    if HasStratum(runs, k) {
      var i :| 0 <= i < |runs| && KeyOf(runs[i]) == k;
      assert KeyOf(all[i]) == k;
    }
  }

  lemma StratumSnoc(runs: seq<PlannedRun>, run: PlannedRun, k: Key)
    ensures Stratum(runs + [run], k) == Stratum(runs, k) + if KeyOf(run) == k then [run.id] else []
  {
    assert (runs + [run])[..|runs|] == runs;
  }

  /** Groups the run ids by stratum, in planning order. */
  method Group(runs: seq<PlannedRun>) returns (strata: map<Key, seq<RunId>>)
    ensures Groups(strata, runs)
  {
    strata := map[];
    assert runs[..0] == [];
    assert Groups(strata, []);
    hide Groups;
    for i := 0 to |runs|
      invariant Groups(strata, runs[..i])
    {
      var key := KeyOf(runs[i]);
      GroupsGrow(strata, runs[..i], runs[i]);
      assert runs[..i + 1] == runs[..i] + [runs[i]];
      var earlier := if key in strata then strata[key] else [];
      strata := strata[key := earlier + [runs[i].id]];
    }
    assert runs[..|runs|] == runs;
  }

  lemma StratumGrows(runs: seq<PlannedRun>, i: nat, k: Key)
    requires i < |runs|
    ensures Stratum(runs[..i + 1], k) == Stratum(runs[..i], k) + if KeyOf(runs[i]) == k then [runs[i].id] else []
  {
    assert runs[..i + 1][..i] == runs[..i];
  }

  /** One shuffled stratum, cut at its apportioned sizes. */
  method CutStratum(ids: seq<RunId>, p: Proportions)
    returns (train: seq<RunId>, validation: seq<RunId>, test: seq<RunId>)
    requires p.Accepted()
    ensures train == TrainPart(ids, p) && validation == ValidationPart(ids, p) && test == TestPart(ids, p)
  {
    hide SplitSizes; hide Cut; hide Proportions.Accepted;
    var counts := SplitCounts(|ids|, p);
    PartsAreSlices(ids, p);
    train := ids[..Cut(ids, counts[0])];
    validation := ids[Cut(ids, counts[0])..Cut(ids, counts[0] + counts[1])];
    test := ids[Cut(ids, counts[0] + counts[1])..];
  }

  /** `assign_splits`; `order` is the order in which the strata were visited. */
  method AssignSplits(runs: seq<PlannedRun>, p: Proportions, shuffle: Shuffle)
    returns (a: Assignment, ghost order: seq<Key>)
    requires p.Accepted() && Permutes(shuffle)
    ensures ListsStrata(order, runs) && a == Assigned(order, runs, p, shuffle)
    ensures a.All() == multiset(Ids(runs))
    ensures DistinctIds(runs) ==> forall c, asset ::
              Shares(a, runs, c, asset) == SplitSizes(RunsOf(runs, c, asset), p) <==>
              0 <= Remainder(RunsOf(runs, c, asset), p) <= 3
  {
    hide Shares; hide RunsOf; hide Remainder; hide DistinctIds;
    hide SplitSizes; hide TrainPart; hide ValidationPart; hide TestPart; hide Proportions.Accepted; hide Stratum;
    hide HasStratum; hide Cut;
    var strata := Group(runs);
    a := Assignment([], [], []);
    order := [];
    var left := strata.Keys;
    while left != {}
      invariant left <= strata.Keys && Distinct(order)
      invariant forall k :: k in strata <==> k in left || k in order
      invariant forall k :: k in order ==> k !in left
      invariant a == Assigned(order, runs, p, shuffle)
    {
      var key :| key in left;
      left := left - {key};
      var ids := shuffle(key, strata[key]);
      var train, validation, test := CutStratum(ids, p);
      a := Assignment(a.train + train, a.validation + validation, a.test + test);
      assert (order + [key])[..|order|] == order;
      Enqueued(order, key);
      order := order + [key];
    }
    EveryRunIsAssigned(order, runs, p, shuffle);
    if DistinctIds(runs) {
      forall c, asset
        ensures Shares(a, runs, c, asset) == SplitSizes(RunsOf(runs, c, asset), p) <==>
                0 <= Remainder(RunsOf(runs, c, asset), p) <= 3
      {
        SharesAreApportioned(order, runs, p, shuffle, c, asset);
      }
    }
  }

  lemma PartsAreSlices(s: seq<RunId>, p: Proportions)
    requires p.Accepted()
    ensures var c := SplitSizes(|s|, p);
            && |c| == 3 && c[0] >= 0 && c[1] >= 0
            && Cut(s, c[0]) <= Cut(s, c[0] + c[1])
            && TrainPart(s, p) == s[..Cut(s, c[0])]
            && ValidationPart(s, p) == s[Cut(s, c[0])..Cut(s, c[0] + c[1])]
            && TestPart(s, p) == s[Cut(s, c[0] + c[1])..]
  {
    hide SplitSizes; hide Remainder; hide Sum; hide Handed; hide Proportions.Accepted;
    SizesAreNatural(|s|, p);
  }

  /** The three parts of a stratum are the stratum, each in its own place. */
  lemma PartsMakeTheStratum(s: seq<RunId>, p: Proportions)
    requires p.Accepted()
    ensures TrainPart(s, p) + ValidationPart(s, p) + TestPart(s, p) == s
    ensures 0 <= Remainder(|s|, p) <= 3 ==>
              var c := SplitSizes(|s|, p);
              |c| == 3 && |TrainPart(s, p)| == c[0] && |ValidationPart(s, p)| == c[1] && |TestPart(s, p)| == c[2]
  {
    hide SplitSizes;
    PartsAreSlices(s, p);
    SizesAreNatural(|s|, p);
  }

  /** The ids of the runs whose stratum is in `order`. */
  function Covered(runs: seq<PlannedRun>, order: seq<Key>): multiset<RunId> {
    if order == [] then multiset{}
    else Covered(runs, order[..|order| - 1]) + multiset(Stratum(runs, order[|order| - 1]))
  }

  lemma {:induction false} AssignedCovers(order: seq<Key>, runs: seq<PlannedRun>, p: Proportions, shuffle: Shuffle)
    requires p.Accepted() && Permutes(shuffle)
    ensures Assigned(order, runs, p, shuffle).All() == Covered(runs, order)
  {
    hide SplitSizes; hide TrainPart; hide ValidationPart; hide TestPart; hide Stratum;
    if order != [] {
      var n := |order| - 1;
      AssignedCovers(order[..n], runs, p, shuffle);
      var s := shuffle(order[n], Stratum(runs, order[n]));
      PartsMakeTheStratum(s, p);
      PartsAddUp(s, p);
    }
  }

  lemma PartsAddUp(s: seq<RunId>, p: Proportions)
    requires TrainPart(s, p) + ValidationPart(s, p) + TestPart(s, p) == s
    ensures multiset(TrainPart(s, p)) + multiset(ValidationPart(s, p)) + multiset(TestPart(s, p)) == multiset(s)
  {
    hide TrainPart; hide ValidationPart; hide TestPart;
    calc {
      multiset(s);
      multiset(TrainPart(s, p) + ValidationPart(s, p) + TestPart(s, p));
      multiset(TrainPart(s, p) + ValidationPart(s, p)) + multiset(TestPart(s, p));
    }
  }

  /** Adding one run adds it to its own stratum and to no other. */
  lemma {:induction false} CoveredGrows(runs: seq<PlannedRun>, i: nat, order: seq<Key>)
    requires i < |runs| && Distinct(order)
    ensures Covered(runs[..i + 1], order) ==
              Covered(runs[..i], order) + if KeyOf(runs[i]) in order then multiset{runs[i].id} else multiset{}
  {
    hide Stratum;
    if order != [] {
      var n := |order| - 1;
      CoveredGrows(runs, i, order[..n]);
      StratumGrows(runs, i, order[n]);
      assert order == order[..n] + [order[n]];
      assert order[n] !in order[..n];
      var s := Stratum(runs[..i], order[n]);
      assert multiset(s + [runs[i].id]) == multiset(s) + multiset{runs[i].id};
      assert multiset(s + []) == multiset(s);
    }
  }

  lemma {:induction false} StrataCoverRuns(runs: seq<PlannedRun>, i: nat, order: seq<Key>)
    requires i <= |runs| && Distinct(order) && forall j :: 0 <= j < i ==> KeyOf(runs[j]) in order
    ensures Covered(runs[..i], order) == multiset(Ids(runs[..i]))
  {
    hide Covered; hide Distinct;
    if i == 0 {
      NothingCovered(order);
      assert runs[..0] == [] && Ids([]) == [];
    } else {
      StrataCoverRuns(runs, i - 1, order);
      CoveredGrows(runs, i - 1, order);
      assert Ids(runs[..i]) == Ids(runs[..i - 1]) + [runs[i - 1].id];
    }
  }

  lemma {:induction false} NothingCovered(order: seq<Key>)
    ensures Covered([], order) == multiset{}
  {
    if order != [] { NothingCovered(order[..|order| - 1]); }
  }

  lemma EveryRunIsAssigned(order: seq<Key>, runs: seq<PlannedRun>, p: Proportions, shuffle: Shuffle)
    requires p.Accepted() && Permutes(shuffle) && ListsStrata(order, runs)
    ensures Assigned(order, runs, p, shuffle).All() == multiset(Ids(runs))
  {
    AssignedCovers(order, runs, p, shuffle);
    forall i | 0 <= i < |runs| ensures KeyOf(runs[i]) in order {
      assert HasStratum(runs, KeyOf(runs[i]));
    }
    StrataCoverRuns(runs, |runs|, order);
    assert runs[..|runs|] == runs;
  }

  /** Plan to split: every planned run of a valid spec lands in exactly one of the three splits, and in that split
      exactly once, whatever the shuffle. */
  lemma EveryPlannedRunInExactlyOneSplit(spec: Spec, order: seq<Key>, p: Proportions, shuffle: Shuffle, i: nat)
    requires spec.Valid() && p.Accepted() && Permutes(shuffle) && ListsStrata(order, Planned(spec, |spec.plans|))
    requires i < |spec.seeds|
    ensures |Planned(spec, |spec.plans|)| == |spec.seeds|
    ensures Assigned(order, Planned(spec, |spec.plans|), p, shuffle).How(Planned(spec, |spec.plans|)[i].id) == 1
  {
    hide Planned; hide Assigned; hide ListsStrata; hide Permutes; hide Proportions.Accepted; hide Spec.Valid;
    OneRunPerSeed(spec);
    var runs := Planned(spec, |spec.plans|);
    EveryRunIsAssigned(order, runs, p, shuffle);
    OccursOnce(Ids(runs), i);
    var a := Assigned(order, runs, p, shuffle);
    assert a.All()[runs[i].id] == a.How(runs[i].id);
  }

  lemma OccursOnce(ids: seq<RunId>, i: nat)
    requires i < |ids| && forall j, k :: 0 <= j < k < |ids| ==> ids[j] != ids[k]
    ensures multiset(ids)[ids[i]] == 1
  {
    var x := ids[i];
    assert ids == ids[..i] + [x] + ids[i + 1..];
    assert x !in ids[..i] && x !in ids[i + 1..];
    assert multiset(ids) == multiset(ids[..i]) + multiset([x]) + multiset(ids[i + 1..]);
  }

  // --- how many runs of a stratum each split gets ------------------------------------------------------------

  ghost predicate DistinctIds(runs: seq<PlannedRun>) {
    forall i, j :: 0 <= i < j < |runs| ==> runs[i].id != runs[j].id
  }

  /** How many runs of scenario `c` target `asset`. */
  function RunsOf(runs: seq<PlannedRun>, c: Scenario, asset: AssetId): nat {
    if runs == [] then 0
    else
      var run := runs[|runs| - 1];
      RunsOf(runs[..|runs| - 1], c, asset) + if run.id.scenario == c && run.asset == asset then 1 else 0
  }

  /** `id` belongs to a run of scenario `c` that targets `asset`. */
  ghost predicate IsRunOf(runs: seq<PlannedRun>, id: RunId, c: Scenario, asset: AssetId) {
    exists i :: 0 <= i < |runs| && runs[i].id == id && id.scenario == c && runs[i].asset == asset
  }

  /** How many entries of `split` belong to such runs. */
  ghost function HowMany(split: seq<RunId>, runs: seq<PlannedRun>, c: Scenario, asset: AssetId): nat {
    if split == [] then 0
    else
      HowMany(split[..|split| - 1], runs, c, asset) + if IsRunOf(runs, split[|split| - 1], c, asset) then 1 else 0
  }

  ghost function Shares(a: Assignment, runs: seq<PlannedRun>, c: Scenario, asset: AssetId): seq<int> {
    [HowMany(a.train, runs, c, asset), HowMany(a.validation, runs, c, asset), HowMany(a.test, runs, c, asset)]
  }

  lemma {:induction false} HowManyAdds(s: seq<RunId>, t: seq<RunId>, runs: seq<PlannedRun>, c: Scenario, asset: AssetId)
    ensures HowMany(s + t, runs, c, asset) == HowMany(s, runs, c, asset) + HowMany(t, runs, c, asset)
  {
    hide IsRunOf;
    if t == [] {
      assert s + t == s;
    } else {
      var n := |t| - 1;
      assert (s + t)[..|s + t| - 1] == s + t[..n];
      HowManyAdds(s, t[..n], runs, c, asset);
    }
  }

  lemma {:induction false} AllOrNone(s: seq<RunId>, runs: seq<PlannedRun>, c: Scenario, asset: AssetId, all: bool)
    requires forall id :: id in s ==> (IsRunOf(runs, id, c, asset) <==> all)
    ensures HowMany(s, runs, c, asset) == if all then |s| else 0
  {
    hide IsRunOf;
    if s != [] { AllOrNone(s[..|s| - 1], runs, c, asset, all); }
  }

  lemma {:induction false} StratumRuns(runs: seq<PlannedRun>, k: Key)
    ensures |Stratum(runs, k)| == RunsOf(runs, k.scenario, k.asset)
    ensures forall id :: id in Stratum(runs, k) ==> IsRunOf(runs, id, k.scenario, k.asset)
  {
    if runs != [] {
      var n := |runs| - 1;
      StratumRuns(runs[..n], k);
      forall id | id in Stratum(runs, k) ensures IsRunOf(runs, id, k.scenario, k.asset) {
        if id in Stratum(runs[..n], k) {
          var i :| 0 <= i < n && runs[..n][i].id == id && runs[..n][i].asset == k.asset;
          assert runs[i].id == id;
        } else {
          assert runs[n].id == id;
        }
      }
    }
  }

  /** Where ids are distinct, the ids of a stratum are of its own scenario and asset only. */
  lemma StratumIsApart(runs: seq<PlannedRun>, k: Key, c: Scenario, asset: AssetId, id: RunId)
    requires DistinctIds(runs) && id in Stratum(runs, k)
    ensures IsRunOf(runs, id, c, asset) <==> k == Key(c, asset)
  {
    hide Stratum;
    StratumRuns(runs, k);
    var i :| 0 <= i < |runs| && runs[i].id == id && KeyOf(runs[i]) == k;
    assert IsRunOf(runs, id, k.scenario, k.asset);
  }

  ghost function PartSizes(s: seq<RunId>, p: Proportions): seq<int> {
    [|TrainPart(s, p)|, |ValidationPart(s, p)|, |TestPart(s, p)|]
  }

  ghost function Three(on: bool, sizes: seq<int>): seq<int> { if on then sizes else [0, 0, 0] }

  /** What the parts of one shuffled stratum add. */
  lemma PartsShare(s: seq<RunId>, runs: seq<PlannedRun>, k: Key, p: Proportions, c: Scenario, asset: AssetId)
    requires p.Accepted() && DistinctIds(runs) && multiset(s) == multiset(Stratum(runs, k))
    ensures Shares(Assignment(TrainPart(s, p), ValidationPart(s, p), TestPart(s, p)), runs, c, asset) ==
            Three(k == Key(c, asset), PartSizes(s, p))
  {
    hide TrainPart; hide ValidationPart; hide TestPart; hide Stratum; hide SplitSizes; hide DistinctIds; hide IsRunOf;
    hide Proportions.Accepted; hide HowMany; hide Remainder;
    PartsMakeTheStratum(s, p);
    forall id | id in s ensures IsRunOf(runs, id, c, asset) <==> k == Key(c, asset) {
      assert id in multiset(s);
      StratumIsApart(runs, k, c, asset, id);
    }
    assert forall id :: id in TrainPart(s, p) || id in ValidationPart(s, p) || id in TestPart(s, p) ==> id in s;
    AllOrNone(TrainPart(s, p), runs, c, asset, k == Key(c, asset));
    AllOrNone(ValidationPart(s, p), runs, c, asset, k == Key(c, asset));
    AllOrNone(TestPart(s, p), runs, c, asset, k == Key(c, asset));
  }

  /** Each stratum is shared out where it is visited, and nowhere else. */
  lemma {:induction false} StratumIsShared(order: seq<Key>, runs: seq<PlannedRun>, p: Proportions, shuffle: Shuffle,
                                           c: Scenario, asset: AssetId)
    requires p.Accepted() && Permutes(shuffle) && DistinctIds(runs) && Distinct(order)
    ensures var k := Key(c, asset);
            Shares(Assigned(order, runs, p, shuffle), runs, c, asset) ==
            Three(k in order, PartSizes(shuffle(k, Stratum(runs, k)), p))
  {
    hide TrainPart; hide ValidationPart; hide TestPart; hide Stratum; hide DistinctIds; hide IsRunOf;
    hide Proportions.Accepted; hide PartSizes; hide HowMany;
    var k := Key(c, asset);
    if order == [] {
      NothingShared(runs, c, asset);
    } else {
      var n := |order| - 1;
      StratumIsShared(order[..n], runs, p, shuffle, c, asset);
      var a, s := Assigned(order[..n], runs, p, shuffle), shuffle(order[n], Stratum(runs, order[n]));
      PartsShare(s, runs, order[n], p, c, asset);
      HowManyAdds(a.train, TrainPart(s, p), runs, c, asset);
      HowManyAdds(a.validation, ValidationPart(s, p), runs, c, asset);
      HowManyAdds(a.test, TestPart(s, p), runs, c, asset);
      LastIsNew(order);
      assert k in order <==> k in order[..n] || k == order[n];
    }
  }

  lemma NothingShared(runs: seq<PlannedRun>, c: Scenario, asset: AssetId)
    ensures Shares(Assignment([], [], []), runs, c, asset) == [0, 0, 0]
  {
  }

  lemma LastIsNew(order: seq<Key>)
    requires Distinct(order) && order != []
    ensures Distinct(order[..|order| - 1]) && order[|order| - 1] !in order[..|order| - 1]
  {
  }

  /** The sizes of the parts are the apportioned sizes, exactly when those add up. */
  lemma PartsHaveSizes(s: seq<RunId>, p: Proportions)
    requires p.Accepted()
    ensures PartSizes(s, p) == SplitSizes(|s|, p) <==> 0 <= Remainder(|s|, p) <= 3
  {
    hide TrainPart; hide ValidationPart; hide TestPart; hide SplitSizes; hide Remainder; hide Proportions.Accepted;
    PartsMakeTheStratum(s, p);
    SizesAreNatural(|s|, p);
    assert |TrainPart(s, p) + ValidationPart(s, p) + TestPart(s, p)| == |s|;
  }

  /** In an assignment of runs with distinct ids, whatever the shuffle and the order of the strata: the runs of a
      scenario that target an asset are shared out over train, validation and test in their apportioned sizes, if and
      only if rounding the quotas down leaves zero to three of them to hand out. */
  lemma SharesAreApportioned(order: seq<Key>, runs: seq<PlannedRun>, p: Proportions, shuffle: Shuffle,
                             c: Scenario, asset: AssetId)
    requires p.Accepted() && Permutes(shuffle) && DistinctIds(runs) && ListsStrata(order, runs)
    ensures var n := RunsOf(runs, c, asset);
            Shares(Assigned(order, runs, p, shuffle), runs, c, asset) == SplitSizes(n, p) <==>
            0 <= Remainder(n, p) <= 3
  {
    hide SplitSizes; hide Remainder; hide Stratum; hide PartSizes; hide Assigned; hide DistinctIds; hide RunsOf;
    hide HasStratum; hide Shares; hide Proportions.Accepted;
    var k := Key(c, asset);
    var s := shuffle(k, Stratum(runs, k));
    SameSize(s, Stratum(runs, k));
    StratumRuns(runs, k);
    StratumIsShared(order, runs, p, shuffle, c, asset);
    PartsHaveSizes(s, p);
    if k !in order {
      NoRunsNoStratum(runs, k);
      NothingToShare(p);
    }
  }

  lemma SameSize(s: seq<RunId>, t: seq<RunId>)
    requires multiset(s) == multiset(t)
    ensures |s| == |t|
  {
    assert |multiset(s)| == |s| && |multiset(t)| == |t|;
  }

  lemma NoRunsNoStratum(runs: seq<PlannedRun>, k: Key)
    requires !HasStratum(runs, k)
    ensures Stratum(runs, k) == []
  {
    assert Stratum(runs, k) != [] ==> Stratum(runs, k)[0] in Stratum(runs, k);
    StratumRuns(runs, k);
  }

  lemma NothingToShare(p: Proportions)
    requires p.Accepted()
    ensures SplitSizes(0, p) == [0, 0, 0] && 0 <= Remainder(0, p) <= 3
  {
    SmallStrataAddUp(0, p);
  }

  // --- the shares of planned runs ------------------------------------------------------------------------------

  lemma {:induction false} RunsOfParts(a: seq<PlannedRun>, b: seq<PlannedRun>, c: Scenario, asset: AssetId)
    ensures RunsOf(a + b, c, asset) == RunsOf(a, c, asset) + RunsOf(b, c, asset)
  {
    if b == [] {
      assert a + b == a;
    } else {
      var n := |b| - 1;
      assert (a + b)[..|a + b| - 1] == a + b[..n];
      RunsOfParts(a, b[..n], c, asset);
    }
  }

  lemma {:induction false} RunsOfBatch(spec: Spec, q: nat, n: nat, c: Scenario, asset: AssetId)
    requires spec.Valid() && q < |spec.plans| && n <= spec.plans[q].runCount
    ensures RunsOf(Batch(spec, q, n), c, asset) ==
            if spec.plans[q].scenario == c then Targeting(spec, q, n, asset) else 0
  {
    hide Spec.Valid;
    if n > 0 {
      RunsOfBatch(spec, q, n - 1, c, asset);
      assert Batch(spec, q, n)[..n - 1] == Batch(spec, q, n - 1);
      assert RunOf(spec, q, n - 1).id.scenario == spec.plans[q].scenario;
      hide RunOf;
    }
  }

  /** The runs of a scenario in the plan are those of its own entry. */
  lemma {:induction false} RunsOfPlan(spec: Spec, upto: nat, q: nat, asset: AssetId)
    requires spec.Valid() && upto <= |spec.plans| && q < |spec.plans|
    ensures RunsOf(Planned(spec, upto), spec.plans[q].scenario, asset) ==
            if q < upto then Targeting(spec, q, spec.plans[q].runCount, asset) else 0
  {
    hide Batch; hide Targeting; hide RunsOf;
    if upto > 0 {
      RunsOfPlan(spec, upto - 1, q, asset);
      var count := spec.plans[upto - 1].runCount;
      RunsOfParts(Planned(spec, upto - 1), Batch(spec, upto - 1, count), spec.plans[q].scenario, asset);
      RunsOfBatch(spec, upto - 1, count, spec.plans[q].scenario, asset);
    } else {
      NoRuns(spec.plans[q].scenario, asset);
    }
  }

  lemma NoRuns(c: Scenario, asset: AssetId)
    ensures RunsOf([], c, asset) == 0
  {
  }

  /** Spec to splits: for the `q`-th scenario and the `i`-th of distinct target assets, the planned runs are as many as
      full rounds over the assets, plus one if the last round reaches the asset; and they are shared out in the sizes
      apportioned to that number, if and only if its quotas round down to at most three too few and none too many. */
  lemma PlannedSharesAreApportioned(spec: Spec, order: seq<Key>, p: Proportions, shuffle: Shuffle, q: nat, i: nat)
    requires spec.Valid() && Distinct(spec.assets) && q < |spec.plans| && i < |spec.assets|
    requires p.Accepted() && Permutes(shuffle) && ListsStrata(order, Planned(spec, |spec.plans|))
    ensures var runs, scenario := Planned(spec, |spec.plans|), spec.plans[q].scenario;
            var rounds, rest := spec.plans[q].runCount / |spec.assets|, spec.plans[q].runCount % |spec.assets|;
            var n := rounds + if i < rest then 1 else 0;
            && RunsOf(runs, scenario, spec.assets[i]) == n
            && (Shares(Assigned(order, runs, p, shuffle), runs, scenario, spec.assets[i]) == SplitSizes(n, p) <==>
                0 <= Remainder(n, p) <= 3)
  {
    hide Planned; hide Assigned; hide ListsStrata; hide Permutes; hide Proportions.Accepted; hide RunsOf; hide Shares;
    hide SplitSizes; hide Remainder; hide Targeting;
    OneRunPerSeed(spec);
    RunsOfPlan(spec, |spec.plans|, q, spec.assets[i]);
    RoundRobin(spec, q, spec.plans[q].runCount, i);
    SharesAreApportioned(order, Planned(spec, |spec.plans|), p, shuffle, spec.plans[q].scenario, spec.assets[i]);
  }
}
