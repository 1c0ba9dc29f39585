/** The inference objects (`backend/simulator/inference/session.py`): sessions whose buffers and counters
    are updated in place, and the manager that owns one session per asset. */
module InferenceManager {
  import opened Basics
  import opened Telemetry
  import opened InferenceSession
  import opened Pipeline
  import AlertPolicy

  class FaultInferenceSession {
    const assetId: AssetId
    const system: FaultSystem
    var history: Series
    var count: nat
    var last: Option<Timestamp>
    var machine: AlertPolicy.Machine

    ghost function View(): SessionState
      reads this
    {
      SessionState(history, count, last, machine)
    }

    ghost predicate Inv()
      reads this
    {
      system.WellFormed() && StateValid(View())
    }

    constructor (assetId: AssetId, system: FaultSystem)
      requires assetId != "" && system.WellFormed()
      ensures Inv() && View() == COLD() && this.assetId == assetId && this.system == system
    {
      this.assetId := assetId;
      this.system := system;
      history, count, last, machine := NoHistory(), 0, None, AlertPolicy.START;
    }

    /** Back to a cold start: history, counters and alert state. */
    method Reset()
      requires Inv()
      modifies this
      ensures Inv() && View() == COLD()
    {
      history, count, last, machine := NoHistory(), 0, None, AlertPolicy.START;
    }

    /** Appends the sample's reading to the buffer of each measurement in `names`, trimming it to twelve entries. */
    method Append(names: seq<Measurement>, elapsed: real, x: TelemetrySample)
      requires Complete(x) && forall m :: m in history <==> IsRequired(m)
      requires Distinct(names) && forall m :: m in names <==> IsRequired(m)
      modifies this`history
      ensures history == Pushed(old(history), elapsed, x)
    {
      ghost var before := history;
      for k := 0 to |names|
        invariant forall m :: m in history <==> IsRequired(m)
        invariant forall j :: 0 <= j < |names| ==> names[j] in history && names[j] in x.values
        invariant forall j :: 0 <= j < k ==>
                    history[names[j]] == LastEntries(before[names[j]] + [Entry(elapsed, x.values[names[j]])])
        invariant forall j :: k <= j < |names| ==> history[names[j]] == before[names[j]]
      {
        var m := names[k];
        var series := history[m] + [Entry(elapsed, x.values[m])];
        ghost var whole := series;
        if |series| > LONGEST_WINDOW {
          series := series[|series| - LONGEST_WINDOW..];
        }
        assert series == LastEntries(whole);
        hide LastEntries;
        history := history[m := series];
      }
      forall m | IsRequired(m) ensures history[m] == LastEntries(before[m] + [Entry(elapsed, x.values[m])]) {
        var j := IndexOf(names, m);
        assert names[j] == m;
      }
    }

    /** One more sample in the buffers, the count and the last timestamp. */
    method Record(x: TelemetrySample)
      requires Inv() && Complete(x)
      modifies this
      ensures Inv() && View() == Appended(old(View()), x)
    {
      ghost var s := View();
      RequiredIsEverything();
      hide LastEntries; hide Pushed;
      Append(REQUIRED, (count + 1) as real * DT, x);
      hide StateValid;
      count := count + 1;
      last := Some(x.timestamp);
      assert View() == Appended(s, x);
    }

    /** Computes the feature row of the newest sample, steps the alert machine and builds the result; an exception of
        the features or of the classifier comes before the machine has stepped. */
    method Score(x: TelemetrySample) returns (reply: Reply)
      requires Inv() && count >= LONGEST_WINDOW
      modifies this`machine
      ensures Inv() && (View(), reply) == ScoreNewest(system, old(View()), x)
    {
      hide InputsAt; hide RowOf; hide ResultOf; hide Ready; hide AlertPolicy.Step; hide Scorable;
      BuffersAreReady(View());
      var inputs := InputsAt(history, LONGEST_WINDOW - 1);
      if !Scorable(system, inputs) {
        return ScoringRaised;
      }
      var (next, event) := AlertPolicy.Step(system.policy, machine, count as real * DT, RowOf(system, inputs));
      machine := next;
      reply := Answer(ResultOf(system, x, inputs, next, event));
    }

    /** `ingest`: refuses a foreign or non-increasing sample unchanged, and otherwise answers it. */
    method Ingest(x: TelemetrySample) returns (reply: Reply)
      requires Inv() && Complete(x)
      modifies this
      ensures Inv()
      ensures (View(), reply) == Reacts(system, assetId, old(View()), Offer(x))
    {
      hide ScoreNewest; hide Pushed; hide StateValid;
      if x.assetId != assetId {
        return Refused(WrongAsset);
      }
      if last.Some? && x.timestamp <= last.value {
        return Refused(NonMonotonicTimestamp);
      }
      Record(x);
      if count < LONGEST_WINDOW {
        return Answer(WarmingUp(x.assetId, x.timestamp, count, LONGEST_WINDOW));
      }
      reply := Score(x);
    }
  }

  lemma RequiredIsEverything()
    ensures Distinct(REQUIRED) && forall m :: m in REQUIRED <==> IsRequired(m)
  {
    forall m ensures m in REQUIRED <==> IsRequired(m) { RequiredIsEveryMeasurementButEfficiency(m); }
  }

  lemma BuffersAreReady(s: SessionState)
    requires StateValid(s) && s.count >= LONGEST_WINDOW
    ensures Ready(s.history, LONGEST_WINDOW - 1)
  {
  }

  class FaultInferenceManager {
    const system: FaultSystem
    var sessions: map<AssetId, FaultInferenceSession>

    ghost predicate Inv()
      reads this, sessions.Values
    {
      && system.WellFormed()
      && (forall a :: a in sessions ==>
            && sessions[a] as object != this
            && sessions[a].assetId == a && sessions[a].system == system && sessions[a].Inv())
    }

    ghost function View(): Sessions
      reads this, sessions.Values
    {
      map a | a in sessions :: sessions[a].View()
    }

    constructor (system: FaultSystem)
      requires system.WellFormed()
      ensures Inv() && View() == map[] && this.system == system && fresh(sessions.Values)
    {
      this.system := system;
      sessions := map[];
    }

    /** Finds the asset's session, or makes a cold one. */
    method SessionFor(asset: AssetId) returns (session: FaultInferenceSession)
      requires Inv() && asset != ""
      modifies this
      ensures Inv() && asset in sessions && session == sessions[asset]
      ensures View() == old(View())[asset := Pipeline.SessionFor(old(View()), asset)]
      ensures fresh(sessions.Values - old(sessions.Values))
    {
      if asset !in sessions {
        var fresh' := new FaultInferenceSession(asset, system);
        sessions := sessions[asset := fresh'];
      }
      session := sessions[asset];
    }

    /** Routes the sample to its asset's session. */
    method Ingest(x: TelemetrySample) returns (reply: Reply)
      requires Inv() && Complete(x) && x.assetId != ""
      modifies this, sessions.Values
      ensures Inv()
      ensures fresh(sessions.Values - old(sessions.Values))
      ensures SessionsValid(old(View())) && (View(), reply) == Route(system, old(View()), x)
    {
      hide Reacts; hide StateValid;
      ghost var before := View();
      assert SessionsValid(before) by { SessionsAreValid(); }
      var session := SessionFor(x.assetId);
      ghost var ready := View();
      assert ready[x.assetId] == Pipeline.SessionFor(before, x.assetId);
      reply := session.Ingest(x);
      assert forall a :: a in sessions && a != x.assetId ==> sessions[a] != session;
      assert View() == ready[x.assetId := session.View()] == before[x.assetId := session.View()];
    }

    lemma SessionsAreValid()
      requires Inv()
      ensures SessionsValid(View())
    {
    }

    /** `reset(asset_id)`. */
    method ResetOne(asset: AssetId)
      requires Inv() && asset != ""
      modifies this, sessions.Values
      ensures Inv() && fresh(sessions.Values - old(sessions.Values))
      ensures View() == old(View())[asset := COLD()]
    {
      hide StateValid; hide COLD;
      ghost var before := View();
      var session := SessionFor(asset);
      ghost var ready := View();
      session.Reset();
      assert forall a :: a in sessions && a != asset ==> sessions[a] != session;
      assert View() == ready[asset := COLD()] == before[asset := COLD()];
    }
  }
}
