/** The worker object (`backend/simulator/inference_worker/worker.py`): loops over polled messages, early
    return on failure, and calls that change the assembler and the sessions. `trace` logs its effects. */
module StreamingWorkers {
  import opened Basics
  import opened Telemetry
  import opened TelemetryEvents
  import opened Assembly
  import opened Pipeline
  import opened Worker
  import opened SampleAssemblers
  import opened InferenceManager
  import S = InferenceSession

  predicate Named(o: Outcome) { o.Complete? ==> o.sample.assetId != "" }

  predicate AllNamed(outs: seq<Outcome>) { forall i :: 0 <= i < |outs| ==> Named(outs[i]) }

  class FaultInferenceStreamingWorker {
    const env: Env
    const assembler: SampleAssembler
    const manager: FaultInferenceManager
    var sends: nat
    var trace: seq<Effect>

    ghost predicate Inv()
      reads assembler, manager, manager.sessions.Values
    {
      && env.Valid() && assembler.limits == env.lim && manager.system == env.sys
      && assembler.Inv() && manager.Inv()
    }

    ghost function View(): State'
      reads this`sends, assembler, manager, manager.sessions.Values
    {
      State'(assembler.View(), manager.View(), sends)
    }

    constructor (env: Env)
      requires env.Valid()
      ensures Inv() && View() == State'(EMPTY, map[], 0) && trace == [] && this.env == env
      ensures fresh(assembler) && fresh(manager) && fresh(manager.sessions.Values)
    {
      this.env := env;
      assembler := new SampleAssembler(env.lim);
      manager := new FaultInferenceManager(env.sys);
      sends, trace := 0, [];
    }

    lemma ViewIsValid()
      requires Inv()
      ensures env.Valid() && StateValid(env, View())
      ensures View().sessions == manager.View() && View().sends == sends && SessionsValid(manager.View())
    {
    }

    /** Builds one event, which raises for a key that cannot be encoded, and publishes it with retries, logged. */
    method PublishTo(topic: Topic, key: Option<AssetId>) returns (status: Status)
      requires Inv()
      modifies this`sends, this`trace
      ensures Inv() && manager.View() == old(manager.View())
      ensures var h := Published(env, map[], old(sends), topic, key);
              && View() == old(View()).(sends := h.sends) && sends == h.sends
              && trace == old(trace) + h.effects && status == h.status
    {
      hide Attempts;
      if key.Some? && !env.lib.encodes(key.value) {
        assert trace == old(trace) + [];
        return Raised;
      }
      var ok;
      ok, sends := PublishWithRetry(env.broker, sends, env.maxRetries);
      trace := trace + [Publish(topic, key, ok)];
      return if ok then Handled else PublishFailed;
    }

    /** `_run_inference`. */
    method Infer(x: TelemetrySample) returns (status: Status)
      requires Inv() && S.Complete(x) && x.assetId != ""
      modifies this`sends, this`trace, manager, manager.sessions.Values
      ensures Inv() && fresh(manager.sessions.Values - old(manager.sessions.Values))
      ensures SessionsValid(old(manager.View())) &&
              var h := RunInference(env, old(manager.View()), old(sends), x);
              && View() == old(View()).(sessions := h.sessions, sends := h.sends)
              && trace == old(trace) + h.effects && status == h.status
    {
      hide Route; hide Attempts; hide Valid;
      var reply := manager.Ingest(x);
      if !reply.Answer? {
        assert trace == old(trace) + [];
        return Raised;
      }
      status := PublishTo(Results, Some(x.assetId));
      if status != Handled || !EventOf(reply.result) {
        return;
      }
      ghost var logged := trace;
      status := PublishTo(Transitions, Some(x.assetId));
      assert logged == old(trace) + [Publish(Results, Some(x.assetId), true)];
    }

    /** `_handle_assembly_outcome`. */
    method HandleOne(o: Outcome) returns (status: Status)
      requires Inv() && SampleFits(o) && Named(o)
      modifies this`sends, this`trace, manager, manager.sessions.Values
      ensures Inv() && fresh(manager.sessions.Values - old(manager.sessions.Values))
      ensures SessionsValid(old(manager.View())) &&
              var h := HandleOutcome(env, old(manager.View()), old(sends), o);
              && View() == old(View()).(sessions := h.sessions, sends := h.sends)
              && trace == old(trace) + h.effects && status == h.status
    {
      hide RunInference; hide Attempts; hide FaultInferenceStreamingWorker.Inv; hide FaultInferenceStreamingWorker.View;
      hide StateValid; hide Env.Valid; hide SessionsValid;
      ViewIsValid();
      match o
      case Waiting(_, _) =>
        assert trace == old(trace) + [];
        status := Handled;
      case Rejected(a, _, _) =>
        status := PublishTo(DataQuality, Some(a));
      case Complete(_, _, x) =>
        status := Infer(x);
      case Aborted(_, _) =>
        assert trace == old(trace) + [];
        status := Raised;
    }

    /** The outcomes of one message, up to the first that is not handled. */
    method HandleUntilFailure(outs: seq<Outcome>) returns (status: Status)
      requires Inv() && AllFit(outs) && AllNamed(outs)
      modifies this`sends, this`trace, manager, manager.sessions.Values
      ensures Inv() && fresh(manager.sessions.Values - old(manager.sessions.Values))
      ensures SessionsValid(old(manager.View())) &&
              var h := HandleAll(env, old(manager.View()), old(sends), outs);
              && View() == old(View()).(sessions := h.sessions, sends := h.sends)
              && trace == old(trace) + h.effects && status == h.status
    {
      hide HandleOutcome; hide FaultInferenceStreamingWorker.Inv; hide FaultInferenceStreamingWorker.View;
      hide StateValid; hide Env.Valid; hide SessionsValid;
      ViewIsValid();
      status := Handled;
      assert trace == old(trace) + [];
      for i := 0 to |outs|
        invariant Inv() && fresh(manager.sessions.Values - old(manager.sessions.Values))
        invariant status == Handled
        invariant var h := HandleAll(env, old(manager.View()), old(sends), outs[..i]);
                  && View() == old(View()).(sessions := h.sessions, sends := h.sends)
                  && trace == old(trace) + h.effects && status == h.status
      {
        assert outs[..i + 1][..i] == outs[..i];
        ViewIsValid();
        status := HandleOne(outs[i]);
        if status != Handled {
          StopsAt(env, old(manager.View()), old(sends), outs, i);
          return;
        }
      }
      assert outs[..|outs|] == outs;
    }

    /** The sweep's outcomes, each best-effort, up to an exception. */
    method HandleRegardless(outs: seq<Outcome>) returns (status: Status)
      requires Inv() && AllFit(outs) && AllNamed(outs)
      modifies this`sends, this`trace, manager, manager.sessions.Values
      ensures Inv() && fresh(manager.sessions.Values - old(manager.sessions.Values))
      ensures SessionsValid(old(manager.View())) &&
              var h := HandleEach(env, old(manager.View()), old(sends), outs);
              && View() == old(View()).(sessions := h.sessions, sends := h.sends)
              && trace == old(trace) + h.effects && status == h.status
    {
      hide HandleOutcome; hide FaultInferenceStreamingWorker.Inv; hide FaultInferenceStreamingWorker.View;
      hide StateValid; hide Env.Valid; hide SessionsValid;
      ViewIsValid();
      status := Handled;
      assert trace == old(trace) + [];
      for i := 0 to |outs|
        invariant Inv() && fresh(manager.sessions.Values - old(manager.sessions.Values))
        invariant status == Handled
        invariant var h := HandleEach(env, old(manager.View()), old(sends), outs[..i]);
                  && View() == old(View()).(sessions := h.sessions, sends := h.sends)
                  && trace == old(trace) + h.effects && status == h.status
      {
        assert outs[..i + 1][..i] == outs[..i];
        ViewIsValid();
        status := HandleOne(outs[i]);
        if status == Raised {
          EachStopsAt(env, old(manager.View()), old(sends), outs, i);
          return;
        }
        status := Handled;
      }
      assert outs[..|outs|] == outs;
    }

    /** `_handle_message`. */
    method HandleMessage(r: Record) returns (status: Status)
      requires Inv()
      modifies this`sends, this`trace, assembler, manager, manager.sessions.Values
      ensures Inv() && fresh(manager.sessions.Values - old(manager.sessions.Values))
      ensures StateValid(env, old(View())) &&
              var s := HandleRecord(env, old(View()), r);
              View() == s.after && trace == old(trace) + s.effects && status == s.status
    {
      hide HandleEvent; hide Validate; hide Attempts; hide WellFormed; hide StateValid;
      hide FaultInferenceStreamingWorker.Inv; hide FaultInferenceStreamingWorker.View;
      ViewIsValid();
      if r.message.Undecodable? {
        status := PublishTo(DataQuality, None);
        return;
      }
      if r.message.DecodeRaises? {
        assert trace == old(trace) + [];
        return Raised;
      }
      var raw := r.message.raw;
      AcceptedExactly(env.lib, raw);
      match Validate(env.lib, raw)
      case Escapes =>
        assert trace == old(trace) + [];
        status := Raised;
      case Invalid(_) =>
        if Unnameable(raw) {
          assert trace == old(trace) + [];
          return Raised;
        }
        status := PublishTo(DataQuality, KeyOf(raw));
      case Accepted(e) =>
        status := HandleAccepted(e, r.now);
    }

    /** The assembler takes one event, or raises. */
    method Assemble(e: Event, now: real) returns (outs: Option<seq<Outcome>>)
      requires Inv() && e.Valid()
      modifies assembler
      ensures Inv() && manager.View() == old(manager.View()) && StateValid(env, old(View()))
      ensures var (assembly, all) := Assembly.Ingest(env.lim, old(View()).assembly, e, now);
              && View() == old(View()).(assembly := assembly) && outs == Returned(all)
              && AllFit(all) && (outs.Some? ==> outs.value == all && AllNamed(all))
    {
      hide Assembly.Ingest; hide Valid; hide SessionsValid; hide AllFit; hide AllNamed;
      hide SampleAssembler.Inv; hide SampleAssembler.View; hide FaultInferenceManager.Inv;
      hide FaultInferenceManager.View;
      ViewIsValid();
      IngestFits(env.lim, assembler.View(), e, now);
      IngestNames(env.lim, assembler.View(), e, now);
      outs := assembler.Ingest(e, now);
    }

    /** The assembler drops its expired samples. */
    method Expire(now: real) returns (outs: seq<Outcome>)
      requires Inv()
      modifies assembler
      ensures Inv() && manager.View() == old(manager.View()) && StateValid(env, old(View()))
      ensures var (assembly, all) := Sweep(env.lim, old(View()).assembly, now);
              View() == old(View()).(assembly := assembly) && outs == all && AllFit(all) && AllNamed(all)
    {
      hide Sweep; hide Valid; hide SessionsValid; hide AllFit; hide AllNamed;
      hide SampleAssembler.Inv; hide SampleAssembler.View; hide FaultInferenceManager.Inv;
      hide FaultInferenceManager.View;
      ViewIsValid();
      SweepFits(env.lim, assembler.View(), now);
      SweepNames(env.lim, assembler.View(), now);
      outs := assembler.SweepTimeouts(now);
    }

    /** The accepted part of `_handle_message`. */
    method HandleAccepted(e: Event, now: real) returns (status: Status)
      requires Inv() && e.Valid()
      modifies this`sends, this`trace, assembler, manager, manager.sessions.Values
      ensures Inv() && fresh(manager.sessions.Values - old(manager.sessions.Values))
      ensures StateValid(env, old(View())) &&
              var s := HandleEvent(env, old(View()), e, now);
              View() == s.after && trace == old(trace) + s.effects && status == s.status
    {
      hide HandleAll; hide Assembly.Ingest; hide Valid; hide SessionsValid; hide Returned; hide Env.Valid;
      hide FaultInferenceStreamingWorker.Inv; hide FaultInferenceStreamingWorker.View;
      ViewIsValid();
      var outs := Assemble(e, now);
      if outs.None? {
        assert trace == old(trace) + [];
        return Raised;
      }
      status := HandleUntilFailure(outs.value);
    }

    /** The messages of one poll: handled and committed in turn, up to the first that is not handled. */
    method HandleMessages(rs: seq<Record>) returns (status: Status, ghost handled: nat)
      requires Inv()
      modifies this`sends, this`trace, assembler, manager, manager.sessions.Values
      ensures Inv() && fresh(manager.sessions.Values - old(manager.sessions.Values))
      ensures StateValid(env, old(View())) &&
              var p := HandleBatch(env, old(View()), rs);
              View() == p.after && trace == old(trace) + p.effects && status == p.status && handled == p.handled
    {
      hide HandleRecord; hide StateValid; hide FaultInferenceStreamingWorker.Inv;
      hide FaultInferenceStreamingWorker.View;
      ViewIsValid();
      ghost var before, logged := View(), trace;
      status, handled := Handled, 0;
      assert trace == logged + [];
      for i := 0 to |rs|
        invariant Inv() && fresh(manager.sessions.Values - old(manager.sessions.Values))
        invariant var p := HandleBatch(env, before, rs[..i]);
                  && View() == p.after && trace == logged + p.effects
                  && status == p.status == Handled && handled == p.handled
      {
        assert rs[..i + 1][..i] == rs[..i];
        status := HandleMessage(rs[i]);
        if status != Handled {
          BatchStopsAt(env, before, rs, i);
          return;
        }
        Log(Commit);
        handled := handled + 1;
      }
      assert rs[..|rs|] == rs;
    }

    /** Adds one effect to the log. */
    method Log(e: Effect)
      requires Inv()
      modifies this`trace
      ensures Inv() && View() == old(View()) && trace == old(trace) + [e]
    {
      hide FaultInferenceStreamingWorker.Inv; hide FaultInferenceStreamingWorker.View;
      trace := trace + [e];
    }

    /** `_sweep_timeouts`. */
    method ReportExpired(now: real) returns (status: Status)
      requires Inv()
      modifies this`sends, this`trace, assembler, manager, manager.sessions.Values
      ensures Inv() && fresh(manager.sessions.Values - old(manager.sessions.Values))
      ensures StateValid(env, old(View())) &&
              var s := SweepStep(env, old(View()), now);
              View() == s.after && trace == old(trace) + s.effects && status == s.status
    {
      hide HandleEach; hide Sweep; hide Valid; hide SessionsValid; hide Env.Valid;
      hide FaultInferenceStreamingWorker.Inv; hide FaultInferenceStreamingWorker.View;
      ViewIsValid();
      var outs := Expire(now);
      status := HandleRegardless(outs);
    }

    /** `poll_once`: handle and commit each message in turn, stop at the first failure, otherwise sweep. */
    method PollOnce(rs: seq<Record>, sweepNow: real) returns (status: Status, ghost handled: nat)
      requires Inv()
      modifies this`sends, this`trace, assembler, manager, manager.sessions.Values
      ensures Inv() && fresh(manager.sessions.Values - old(manager.sessions.Values))
      ensures StateValid(env, old(View())) &&
              var p := Poll(env, old(View()), rs, sweepNow);
              View() == p.after && trace == old(trace) + p.effects && status == p.status && handled == p.handled
    {
      hide HandleBatch; hide SweepStep; hide StateValid; hide FaultInferenceStreamingWorker.Inv;
      hide FaultInferenceStreamingWorker.View;
      ViewIsValid();
      status, handled := HandleMessages(rs);
      if status == Handled {
        status := ReportExpired(sweepNow);
      }
    }
  }

  lemma IngestNames(lim: Limits, s: State, e: Event, now: real)
    requires lim.Valid() && Valid(lim, s) && e.Valid()
    ensures AllNamed(Assembly.Ingest(lim, s, e, now).1)
  {
    hide Assembly.Ingest;
    IngestLatest(lim, s, e, now);
  }

  lemma SweepNames(lim: Limits, s: State, now: real)
    requires Valid(lim, s)
    ensures AllNamed(Sweep(lim, s, now).1)
  {
    SweepRejects(lim, s.order, s.buffers, now);
  }

  /** Once an outcome is not handled, the later ones make no difference. */
  lemma {:induction false} StopsAt(env: Env, ss: Sessions, sends: nat, outs: seq<Outcome>, i: nat)
    requires env.Valid() && SessionsValid(ss) && AllFit(outs) && i < |outs|
    requires HandleAll(env, ss, sends, outs[..i + 1]).status != Handled
    ensures HandleAll(env, ss, sends, outs) == HandleAll(env, ss, sends, outs[..i + 1])
  {
    hide HandleOutcome;
    var n := |outs| - 1;
    if i < n {
      assert outs[..n][..i + 1] == outs[..i + 1];
      StopsAt(env, ss, sends, outs[..n], i);
    } else {
      assert outs[..i + 1] == outs;
    }
  }

  lemma {:induction false} EachStopsAt(env: Env, ss: Sessions, sends: nat, outs: seq<Outcome>, i: nat)
    requires env.Valid() && SessionsValid(ss) && AllFit(outs) && i < |outs|
    requires HandleEach(env, ss, sends, outs[..i + 1]).status == Raised
    ensures HandleEach(env, ss, sends, outs) == HandleEach(env, ss, sends, outs[..i + 1])
  {
    hide HandleOutcome;
    var n := |outs| - 1;
    if i < n {
      assert outs[..n][..i + 1] == outs[..i + 1];
      EachStopsAt(env, ss, sends, outs[..n], i);
    } else {
      assert outs[..i + 1] == outs;
    }
  }

  lemma {:induction false} BatchStopsAt(env: Env, w: State', rs: seq<Record>, i: nat)
    requires env.Valid() && StateValid(env, w) && i < |rs|
    requires HandleBatch(env, w, rs[..i + 1]).status != Handled
    ensures HandleBatch(env, w, rs) == HandleBatch(env, w, rs[..i + 1])
  {
    hide HandleRecord;
    var n := |rs| - 1;
    if i < n {
      assert rs[..n][..i + 1] == rs[..i + 1];
      BatchStopsAt(env, w, rs[..n], i);
    } else {
      assert rs[..i + 1] == rs;
    }
  }
}
