/** The streaming worker's behaviour on values (`backend/simulator/inference_worker/worker.py`): what it
    publishes and commits for a batch of messages, over every behaviour of the broker.

    `broker(i)` is the outcome of the i-th send attempt. A commit is only a trace event. */
module Worker {
  import opened Basics
  import opened Telemetry
  import opened TelemetryEvents
  import opened Assembly
  import opened Pipeline
  import S = InferenceSession

  datatype Topic = DataQuality | Results | Transitions

  datatype Effect = Publish(topic: Topic, key: Option<AssetId>, confirmed: bool) | Commit

  datatype Env = Env(
    lim: Limits, sys: S.FaultSystem, lib: Library, broker: nat -> bool, maxRetries: nat)
  {
    ghost predicate Valid() { lim.Valid() && sys.WellFormed() }
  }

  datatype Status = Handled | PublishFailed | Raised

  /** A polled message: not UTF-8 or not JSON, which the worker catches; one on which the decoder raises something else
      (an integer with too many digits, nesting that is too deep), which it does not; or a decoded document. */
  datatype Message = Undecodable | DecodeRaises | Decoded(raw: Json)

  /** A message together with the clock reading taken when it is ingested. */
  datatype Record = Record(message: Message, now: real)

  // --- publishing with retries ----------------------------------------------------------

  /** Attempts from number `at` on until one succeeds or `left` retries are used up: (succeeded, next attempt). */
  function Attempts(broker: nat -> bool, at: nat, left: nat): (bool, nat)
    decreases left
  {
    if broker(at) then (true, at + 1) else if left == 0 then (false, at + 1) else Attempts(broker, at + 1, left - 1)
  }

  /** `publish_with_retry`: true exactly when one of the first `maxRetries + 1` attempts succeeds, and it stops
      there. */
  method PublishWithRetry(broker: nat -> bool, at: nat, maxRetries: nat) returns (ok: bool, next: nat)
    ensures (ok, next) == Attempts(broker, at, maxRetries)
    ensures at < next <= at + maxRetries + 1
    ensures forall i :: at <= i < next - 1 ==> !broker(i)
    ensures ok == broker(next - 1) && (!ok ==> next == at + maxRetries + 1)
    ensures ok <==> exists i :: at <= i <= at + maxRetries && broker(i)
  {
    var attempt := 0;
    next := at;
    while true
      invariant attempt <= maxRetries && next == at + attempt
      invariant forall i :: at <= i < next ==> !broker(i)
      invariant Attempts(broker, at, maxRetries) == Attempts(broker, next, maxRetries - attempt)
      decreases maxRetries - attempt
    {
      if broker(next) {
        return true, next + 1;
      }
      attempt := attempt + 1;
      next := next + 1;
      if attempt > maxRetries {
        return false, next;
      }
    }
  }

  // --- one outcome, one message ------------------------------------------------------------

  /** Sessions, number of send attempts so far, and what was done. */
  datatype Handling = Handling(sessions: Sessions, sends: nat, effects: seq<Effect>, status: Status)

  /** Builds one event and publishes it with retries. The event's identity is a hash of the key's UTF-8 bytes, so
      building it raises for a key that cannot be encoded. */
  function Published(env: Env, sessions: Sessions, sends: nat, topic: Topic, key: Option<AssetId>): Handling {
    if key.Some? && !env.lib.encodes(key.value) then Handling(sessions, sends, [], Raised)
    else
      var (ok, next) := Attempts(env.broker, sends, env.maxRetries);
      Handling(sessions, next, [Publish(topic, key, ok)], if ok then Handled else PublishFailed)
  }

  function EventOf(result: S.InferenceResult): bool { result.Prediction? && result.alertEvent.Some? }

  /** `_run_inference`: the result first, and a transition only once the result is confirmed. */
  ghost function RunInference(env: Env, ss: Sessions, sends: nat, x: TelemetrySample): (h: Handling)
    requires env.Valid() && SessionsValid(ss) && S.Complete(x)
    ensures SessionsValid(h.sessions)
  {
    var (ss', reply) := Route(env.sys, ss, x);
    if !reply.Answer? then Handling(ss', sends, [], Raised)
    else
      var first := Published(env, ss', sends, Results, Some(x.assetId));
      if first.status != Handled || !EventOf(reply.result) then first
      else
        var second := Published(env, ss', first.sends, Transitions, Some(x.assetId));
        second.(effects := first.effects + second.effects)
  }

  ghost function HandleOutcome(env: Env, ss: Sessions, sends: nat, o: Outcome): (h: Handling)
    requires env.Valid() && SessionsValid(ss) && SampleFits(o)
    ensures SessionsValid(h.sessions)
  {
    match o
    case Waiting(_, _) => Handling(ss, sends, [], Handled)
    case Rejected(a, _, _) => Published(env, ss, sends, DataQuality, Some(a))
    case Complete(_, _, x) => RunInference(env, ss, sends, x)
    case Aborted(_, _) => Handling(ss, sends, [], Raised)
  }

  /** `all(handle(o) for o in outcomes)`: stops at the first that is not handled. */
  ghost function HandleAll(env: Env, ss: Sessions, sends: nat, outs: seq<Outcome>): (h: Handling)
    requires env.Valid() && SessionsValid(ss) && AllFit(outs)
    ensures SessionsValid(h.sessions)
  {
    if outs == [] then Handling(ss, sends, [], Handled)
    else
      var n := |outs| - 1;
      var before := HandleAll(env, ss, sends, outs[..n]);
      if before.status != Handled then before
      else
        var last := HandleOutcome(env, before.sessions, before.sends, outs[n]);
        last.(effects := before.effects + last.effects)
  }

  /** The timeout sweep's outcomes are handled best-effort: a failed publish does not stop the others, an exception
      does. */
  ghost function HandleEach(env: Env, ss: Sessions, sends: nat, outs: seq<Outcome>): (h: Handling)
    requires env.Valid() && SessionsValid(ss) && AllFit(outs)
    ensures SessionsValid(h.sessions) && h.status != PublishFailed
  {
    if outs == [] then Handling(ss, sends, [], Handled)
    else
      var n := |outs| - 1;
      var before := HandleEach(env, ss, sends, outs[..n]);
      if before.status == Raised then before
      else
        var last := HandleOutcome(env, before.sessions, before.sends, outs[n]);
        Handling(last.sessions, last.sends, before.effects + last.effects,
                 if last.status == Raised then Raised else Handled)
  }

  datatype State' = State'(assembly: State, sessions: Sessions, sends: nat)

  ghost predicate StateValid(env: Env, w: State') { Valid(env.lim, w.assembly) && SessionsValid(w.sessions) }

  datatype Step' = Step'(after: State', effects: seq<Effect>, status: Status)

  /** Python truth value. */
  predicate Truthy(j: Json) {
    match j
    case JNull => false
    case JBool(b) => b
    case JInt(n) => n != 0
    case JFloat(r) => r != 0.0
    case JNonFinite => true
    case JStr(s) => s != ""
    case JArr(items) => items != []
    case JObj(fields) => fields != map[]
  }

  /** `raw.get("asset_id")` of a decoded message; `JNull` if it has none. */
  function AssetField(raw: Json): Json {
    if raw.JObj? && "asset_id" in raw.fields then raw.fields["asset_id"] else JNull
  }

  /** Rejecting a message names its asset in the event identity, which only works for text. */
  predicate Unnameable(raw: Json) { Truthy(AssetField(raw)) && !AssetField(raw).JStr? }

  function KeyOf(raw: Json): Option<AssetId> {
    if AssetField(raw).JStr? && AssetField(raw).s != "" then Some(AssetField(raw).s) else None
  }

  function RejectMessage(env: Env, w: State', key: Option<AssetId>): Step' {
    var h := Published(env, w.sessions, w.sends, DataQuality, key);
    Step'(w.(sends := h.sends), h.effects, h.status)
  }

  /** The accepted part of `_handle_message`: ingest, then handle the outcomes in order. */
  ghost function HandleEvent(env: Env, w: State', e: Event, now: real): (res: Step')
    requires env.Valid() && StateValid(env, w) && e.Valid()
    ensures StateValid(env, res.after)
  {
    IngestKeepsValid(env.lim, w.assembly, e, now);
    IngestFits(env.lim, w.assembly, e, now);
    var (assembly, outs) := Ingest(env.lim, w.assembly, e, now);
    if Returned(outs).None? then Step'(w.(assembly := assembly), [], Raised)
    else
      var h := HandleAll(env, w.sessions, w.sends, outs);
      Step'(State'(assembly, h.sessions, h.sends), h.effects, h.status)
  }

  /** `_handle_message`. */
  ghost function HandleRecord(env: Env, w: State', r: Record): (res: Step')
    requires env.Valid() && StateValid(env, w)
    ensures StateValid(env, res.after)
  {
    match r.message
    case Undecodable => RejectMessage(env, w, None)
    case DecodeRaises => Step'(w, [], Raised)
    case Decoded(raw) =>
      AcceptedExactly(env.lib, raw);
      match Validate(env.lib, raw)
      case Escapes => Step'(w, [], Raised)
      case Invalid(_) => if Unnameable(raw) then Step'(w, [], Raised) else RejectMessage(env, w, KeyOf(raw))
      case Accepted(e) => HandleEvent(env, w, e, r.now)
  }

  lemma IngestFits(lim: Limits, s: State, e: Event, now: real)
    requires lim.Valid() && Valid(lim, s) && e.Valid()
    ensures AllFit(Ingest(lim, s, e, now).1)
  {
    hide Ingest;
    IngestLatest(lim, s, e, now);
  }

  // --- one poll ----------------------------------------------------------------------------------

  datatype Polled = Polled(after: State', effects: seq<Effect>, status: Status, handled: nat)

  /** The messages of one poll: each is handled and committed in turn, up to the first that is not handled. */
  ghost function HandleBatch(env: Env, w: State', rs: seq<Record>): (p: Polled)
    requires env.Valid() && StateValid(env, w)
    ensures StateValid(env, p.after)
  {
    if rs == [] then Polled(w, [], Handled, 0)
    else
      var n := |rs| - 1;
      var p := HandleBatch(env, w, rs[..n]);
      if p.status != Handled then p
      else
        var s := HandleRecord(env, p.after, rs[n]);
        if s.status == Handled then Polled(s.after, p.effects + s.effects + [Commit], Handled, p.handled + 1)
        else Polled(s.after, p.effects + s.effects, s.status, p.handled)
  }

  /** `_sweep_timeouts`: expired samples are rejected, and each rejection is published best-effort. */
  ghost function SweepStep(env: Env, w: State', now: real): (res: Step')
    requires env.Valid() && StateValid(env, w)
    ensures StateValid(env, res.after) && res.status != PublishFailed
  {
    SweepKeepsValid(env.lim, w.assembly, now);
    SweepFits(env.lim, w.assembly, now);
    var (assembly, outs) := Sweep(env.lim, w.assembly, now);
    var h := HandleEach(env, w.sessions, w.sends, outs);
    Step'(State'(assembly, h.sessions, h.sends), h.effects, h.status)
  }

  /** `poll_once`: the batch, and then the timeout sweep if every message was handled. */
  ghost function Poll(env: Env, w: State', rs: seq<Record>, sweepNow: real): (p: Polled)
    requires env.Valid() && StateValid(env, w)
    ensures StateValid(env, p.after)
  {
    var p := HandleBatch(env, w, rs);
    if p.status != Handled then p
    else
      var s := SweepStep(env, p.after, sweepNow);
      Polled(s.after, p.effects + s.effects, s.status, p.handled)
  }

  datatype PollInput = PollInput(records: seq<Record>, sweepNow: real)

  /** The worker's life: one poll after another, until one raises. */
  ghost function Life(env: Env, polls: seq<PollInput>): (p: Polled)
    requires env.Valid()
    ensures StateValid(env, p.after)
  {
    if polls == [] then Polled(State'(EMPTY, map[], 0), [], Handled, 0)
    else
      var n := |polls| - 1;
      var p := Life(env, polls[..n]);
      if p.status == Raised then p else Poll(env, p.after, polls[n].records, polls[n].sweepNow)
  }

  // --- the trace --------------------------------------------------------------------------------------

  predicate Unconfirmed(e: Effect) { e.Publish? && !e.confirmed }

  predicate AllConfirmed(tr: seq<Effect>) { forall i :: 0 <= i < |tr| ==> !Unconfirmed(tr[i]) }

  predicate NoCommit(tr: seq<Effect>) { forall i :: 0 <= i < |tr| ==> !tr[i].Commit? }

  /** Nothing is committed after a failed publish: at a commit, every publish so far has been confirmed. */
  predicate CommitsAreEarned(tr: seq<Effect>) {
    forall i, j :: 0 <= i < j < |tr| && tr[j].Commit? ==> !Unconfirmed(tr[i])
  }

  /** A transition is sent only right after its own asset's result has been confirmed. */
  predicate TransitionsFollowResults(tr: seq<Effect>) {
    forall i :: 0 <= i < |tr| && tr[i].Publish? && tr[i].topic == Transitions ==>
      i > 0 && tr[i - 1] == Publish(Results, tr[i].key, true)
  }

  function Commits(tr: seq<Effect>): nat {
    if tr == [] then 0 else Commits(tr[..|tr| - 1]) + if tr[|tr| - 1].Commit? then 1 else 0
  }

  lemma {:induction false} CommitsConcat(x: seq<Effect>, y: seq<Effect>)
    ensures Commits(x + y) == Commits(x) + Commits(y)
  {
    if y == [] {
      assert x + y == x;
    } else {
      assert (x + y)[..|x + y| - 1] == x + y[..|y| - 1];
      CommitsConcat(x, y[..|y| - 1]);
    }
  }

  lemma {:induction false} NoCommitCountsZero(tr: seq<Effect>)
    requires NoCommit(tr)
    ensures Commits(tr) == 0
  {
    if tr != [] { NoCommitCountsZero(tr[..|tr| - 1]); }
  }

  lemma TransitionsConcat(x: seq<Effect>, y: seq<Effect>)
    requires TransitionsFollowResults(x) && TransitionsFollowResults(y)
    ensures TransitionsFollowResults(x + y)
  {
    var z := x + y;
    forall i | 0 <= i < |z| && z[i].Publish? && z[i].topic == Transitions
      ensures i > 0 && z[i - 1] == Publish(Results, z[i].key, true)
    {
      if i >= |x| { assert y[i - |x|] == z[i]; }
    }
  }

  /** What handling something without committing leaves in the trace. */
  ghost predicate CleanSegment(tr: seq<Effect>, status: Status) {
    NoCommit(tr) && TransitionsFollowResults(tr) && (status == Handled ==> AllConfirmed(tr))
  }

  lemma OutcomeSegment(env: Env, ss: Sessions, sends: nat, o: Outcome)
    requires env.Valid() && SessionsValid(ss) && SampleFits(o)
    ensures var h := HandleOutcome(env, ss, sends, o); CleanSegment(h.effects, h.status)
  {
    hide Route; hide Attempts;
  }

  lemma {:induction false} OutcomesSegment(env: Env, ss: Sessions, sends: nat, outs: seq<Outcome>)
    requires env.Valid() && SessionsValid(ss) && AllFit(outs)
    ensures var h := HandleAll(env, ss, sends, outs); CleanSegment(h.effects, h.status)
    ensures var h := HandleEach(env, ss, sends, outs); NoCommit(h.effects) && TransitionsFollowResults(h.effects)
  {
    hide HandleOutcome;
    if outs != [] {
      var n := |outs| - 1;
      OutcomesSegment(env, ss, sends, outs[..n]);
      var a := HandleAll(env, ss, sends, outs[..n]);
      OutcomeSegment(env, a.sessions, a.sends, outs[n]);
      TransitionsConcat(a.effects, HandleOutcome(env, a.sessions, a.sends, outs[n]).effects);
      var b := HandleEach(env, ss, sends, outs[..n]);
      OutcomeSegment(env, b.sessions, b.sends, outs[n]);
      TransitionsConcat(b.effects, HandleOutcome(env, b.sessions, b.sends, outs[n]).effects);
    }
  }

  lemma EventSegment(env: Env, w: State', e: Event, now: real)
    requires env.Valid() && StateValid(env, w) && e.Valid()
    ensures var s := HandleEvent(env, w, e, now); CleanSegment(s.effects, s.status)
  {
    assert CleanSegment([], Raised);
    hide HandleAll; hide Ingest; hide CleanSegment;
    IngestFits(env.lim, w.assembly, e, now);
    OutcomesSegment(env, w.sessions, w.sends, Ingest(env.lim, w.assembly, e, now).1);
  }

  lemma RecordSegment(env: Env, w: State', r: Record)
    requires env.Valid() && StateValid(env, w)
    ensures var s := HandleRecord(env, w, r); CleanSegment(s.effects, s.status)
  {
    hide HandleEvent; hide Validate; hide Valid; hide Attempts; hide WellFormed;
    if r.message.Decoded? && Validate(env.lib, r.message.raw).Accepted? {
      AcceptedExactly(env.lib, r.message.raw);
      EventSegment(env, w, Validate(env.lib, r.message.raw).event, r.now);
    }
  }

  ghost predicate GoodTrace(tr: seq<Effect>, status: Status, handled: nat) {
    && CommitsAreEarned(tr) && TransitionsFollowResults(tr)
    && Commits(tr) == handled
    && (status == Handled ==> AllConfirmed(tr))
  }

  /** One more message's segment, and its commit if it was handled, keep the trace good. */
  lemma TraceGrows(tr: seq<Effect>, handled: nat, segment: seq<Effect>, status: Status)
    requires GoodTrace(tr, Handled, handled) && CleanSegment(segment, status)
    ensures GoodTrace(tr + segment, status, handled)
    ensures status == Handled ==> GoodTrace(tr + segment + [Commit], status, handled + 1)
  {
    hide Commits;
    TransitionsConcat(tr, segment);
    NoCommitCountsZero(segment);
    CommitsConcat(tr, segment);
    assert GoodTrace(tr + segment, status, handled);
    if status == Handled {
      TransitionsConcat(tr + segment, [Commit]);
      CommitsConcat(tr + segment, [Commit]);
      OneCommit();
    }
  }

  lemma OneCommit()
    ensures Commits([Commit]) == 1 && Commits([]) == 0
  {
  }

  /** Handled messages are a prefix of the batch, one commit each, and nothing is committed past a failure. */
  lemma {:induction false} BatchTrace(env: Env, w: State', rs: seq<Record>)
    requires env.Valid() && StateValid(env, w)
    ensures var p := HandleBatch(env, w, rs);
            && GoodTrace(p.effects, p.status, p.handled) && p.handled <= |rs|
            && (p.status == Handled <==> p.handled == |rs|)
  {
    hide HandleRecord; hide CleanSegment;
    if rs == [] {
      OneCommit();
    } else {
      var n := |rs| - 1;
      BatchTrace(env, w, rs[..n]);
      var p := HandleBatch(env, w, rs[..n]);
      if p.status == Handled {
        var s := HandleRecord(env, p.after, rs[n]);
        RecordSegment(env, p.after, rs[n]);
        TraceGrows(p.effects, p.handled, s.effects, s.status);
      }
    }
  }

  /** Publish-then-commit, for every poll, every message batch and every broker: the trace's commits are one per
      handled message, in a prefix of the batch; at each commit every publish so far was confirmed, so nothing is
      committed after a failure; and every transition directly follows its confirmed result. */
  lemma PublishThenCommit(env: Env, w: State', rs: seq<Record>, sweepNow: real)
    requires env.Valid() && StateValid(env, w)
    ensures var p := Poll(env, w, rs, sweepNow);
            && CommitsAreEarned(p.effects) && TransitionsFollowResults(p.effects)
            && Commits(p.effects) == p.handled <= |rs|
            && (p.status == Handled ==> p.handled == |rs|) && (p.status == PublishFailed ==> p.handled < |rs|)
  {
    hide HandleBatch; hide SweepStep;
    BatchTrace(env, w, rs);
    var p := HandleBatch(env, w, rs);
    if p.status == Handled {
      SweepSegment(env, p.after, sweepNow);
      var h := SweepStep(env, p.after, sweepNow);
      TransitionsConcat(p.effects, h.effects);
      NoCommitCountsZero(h.effects);
      CommitsConcat(p.effects, h.effects);
    }
  }

  lemma SweepSegment(env: Env, w: State', now: real)
    requires env.Valid() && StateValid(env, w)
    ensures var s := SweepStep(env, w, now); NoCommit(s.effects) && TransitionsFollowResults(s.effects)
  {
    hide Sweep; hide HandleEach;
    SweepFits(env.lim, w.assembly, now);
    OutcomesSegment(env, w.sessions, w.sends, Sweep(env.lim, w.assembly, now).1);
  }

  // --- every required publish is made ------------------------------------------------------------------------

  /** The sessions once every completed sample of `outs` has been routed. */
  ghost function SessionsAfter(sys: S.FaultSystem, ss: Sessions, outs: seq<Outcome>): (r: Sessions)
    requires sys.WellFormed() && SessionsValid(ss) && AllFit(outs)
    ensures SessionsValid(r)
  {
    if outs == [] then ss
    else
      var n := |outs| - 1;
      var before := SessionsAfter(sys, ss, outs[..n]);
      if outs[n].Complete? then (assert SampleFits(outs[n]); Route(sys, before, outs[n].sample).0) else before
  }

  /** The publishes an outcome calls for: a data-quality event for a rejection; a result for a completed sample,
      and a transition with it exactly when the result carries an alert event. */
  ghost function RequiredFor(sys: S.FaultSystem, ss: Sessions, o: Outcome): seq<Effect>
    requires sys.WellFormed() && SessionsValid(ss) && SampleFits(o)
  {
    match o
    case Waiting(_, _) => []
    case Rejected(a, _, _) => [Publish(DataQuality, Some(a), true)]
    case Complete(a, _, x) =>
      var reply := Route(sys, ss, x).1;
      [Publish(Results, Some(a), true)] +
      if reply.Answer? && reply.result.Prediction? && reply.result.alertEvent.Some?
      then [Publish(Transitions, Some(a), true)] else []
    case Aborted(_, _) => []
  }

  ghost function Required(sys: S.FaultSystem, ss: Sessions, outs: seq<Outcome>): seq<Effect>
    requires sys.WellFormed() && SessionsValid(ss) && AllFit(outs)
  {
    if outs == [] then []
    else
      var n := |outs| - 1;
      assert SampleFits(outs[n]);
      Required(sys, ss, outs[..n]) + RequiredFor(sys, SessionsAfter(sys, ss, outs[..n]), outs[n])
  }

  /** The outcomes of a message are handled only when exactly the required publishes were made and confirmed, and
      every completed sample reached its session. */
  lemma {:induction false} HandledMeansRequiredPublished(env: Env, ss: Sessions, sends: nat, outs: seq<Outcome>)
    requires env.Valid() && SessionsValid(ss) && AllFit(outs)
    ensures var h := HandleAll(env, ss, sends, outs);
            h.status == Handled ==>
              h.effects == Required(env.sys, ss, outs) && h.sessions == SessionsAfter(env.sys, ss, outs)
  {
    hide HandleOutcome; hide RequiredFor; hide Route;
    if outs != [] {
      var n := |outs| - 1;
      assert SampleFits(outs[n]);
      HandledMeansRequiredPublished(env, ss, sends, outs[..n]);
      var before := HandleAll(env, ss, sends, outs[..n]);
      OneHandled(env, before.sessions, before.sends, outs[n]);
    }
  }

  lemma OneHandled(env: Env, ss: Sessions, sends: nat, o: Outcome)
    requires env.Valid() && SessionsValid(ss) && SampleFits(o)
    ensures var h := HandleOutcome(env, ss, sends, o);
            h.status == Handled ==>
              && h.effects == RequiredFor(env.sys, ss, o)
              && h.sessions == if o.Complete? then Route(env.sys, ss, o.sample).0 else ss
  {
    hide Attempts; hide Route;
  }

  /** Assembler and sessions, without anything about the broker. */
  datatype Layers = Layers(assembly: State, sessions: Sessions)

  ghost predicate LayersValid(env: Env, l: Layers) { Valid(env.lim, l.assembly) && SessionsValid(l.sessions) }

  /** Where a message takes the layers if all its publishes are confirmed. */
  ghost function Moved(env: Env, l: Layers, r: Record): (m: Layers)
    requires env.Valid() && LayersValid(env, l)
    ensures LayersValid(env, m)
  {
    if !r.message.Decoded? then l
    else
      AcceptedExactly(env.lib, r.message.raw);
      match Validate(env.lib, r.message.raw)
      case Accepted(e) =>
        IngestKeepsValid(env.lim, l.assembly, e, r.now);
        IngestFits(env.lim, l.assembly, e, r.now);
        var (assembly, outs) := Ingest(env.lim, l.assembly, e, r.now);
        Layers(assembly, SessionsAfter(env.sys, l.sessions, outs))
      case _ => l
  }

  /** The publishes a message calls for, each confirmed. */
  ghost function CalledFor(env: Env, l: Layers, r: Record): seq<Effect>
    requires env.Valid() && LayersValid(env, l)
  {
    match r.message
    case Undecodable => [Publish(DataQuality, None, true)]
    case DecodeRaises => []
    case Decoded(raw) =>
      AcceptedExactly(env.lib, raw);
      match Validate(env.lib, raw)
      case Escapes => []
      case Invalid(_) =>
        var asset := Text(Field(raw, "asset_id"));
        [Publish(DataQuality, if asset == Some("") then None else asset, true)]
      case Accepted(e) =>
        IngestFits(env.lim, l.assembly, e, r.now);
        Required(env.sys, l.sessions, Ingest(env.lim, l.assembly, e, r.now).1)
  }

  ghost function MovedAll(env: Env, l: Layers, rs: seq<Record>): (m: Layers)
    requires env.Valid() && LayersValid(env, l)
    ensures LayersValid(env, m)
  {
    if rs == [] then l else Moved(env, MovedAll(env, l, rs[..|rs| - 1]), rs[|rs| - 1])
  }

  /** The trace of a batch in which every message is handled: each message's required publishes, confirmed, and then
      its commit. */
  ghost function Script(env: Env, l: Layers, rs: seq<Record>): seq<Effect>
    requires env.Valid() && LayersValid(env, l)
  {
    if rs == [] then []
    else
      var n := |rs| - 1;
      Script(env, l, rs[..n]) + CalledFor(env, MovedAll(env, l, rs[..n]), rs[n]) + [Commit]
  }

  function LayersOf(w: State'): Layers { Layers(w.assembly, w.sessions) }

  lemma HandledRecord(env: Env, w: State', r: Record)
    requires env.Valid() && StateValid(env, w)
    ensures var s := HandleRecord(env, w, r);
            s.status == Handled ==>
              s.effects == CalledFor(env, LayersOf(w), r) && LayersOf(s.after) == Moved(env, LayersOf(w), r)
  {
    hide Validate; hide Valid; hide Attempts; hide WellFormed; hide Ingest; hide HandleAll; hide Required;
    hide SessionsAfter;
    if r.message.Decoded? {
      var raw := r.message.raw;
      AcceptedExactly(env.lib, raw);
      if Validate(env.lib, raw).Accepted? {
        var e := Validate(env.lib, raw).event;
        MapsMatch(env.lim, w.assembly);
        IngestFits(env.lim, w.assembly, e, r.now);
        HandledMeansRequiredPublished(env, w.sessions, w.sends, Ingest(env.lim, w.assembly, e, r.now).1);
      }
    }
  }

  /** The trace up to the last commit is the script of the handled messages, and nothing is committed after it. */
  ghost predicate Follows(env: Env, l: Layers, rs: seq<Record>, effects: seq<Effect>, handled: nat)
    requires env.Valid() && LayersValid(env, l)
  {
    && handled <= |rs|
    && var script := Script(env, l, rs[..handled]); script <= effects && NoCommit(effects[|script|..])
  }

  lemma {:induction false} BatchFollowsScript(env: Env, w: State', rs: seq<Record>)
    requires env.Valid() && StateValid(env, w)
    ensures var p := HandleBatch(env, w, rs);
            && Follows(env, LayersOf(w), rs, p.effects, p.handled)
            && (p.status == Handled ==> p.handled == |rs| && p.effects == Script(env, LayersOf(w), rs))
            && (p.status == Handled ==> LayersOf(p.after) == MovedAll(env, LayersOf(w), rs))
  {
    hide HandleRecord; hide CalledFor; hide Moved; hide CleanSegment; hide Env.Valid; hide StateValid;
    assert rs[..|rs|] == rs;
    if rs != [] {
      var n := |rs| - 1;
      BatchFollowsScript(env, w, rs[..n]);
      var p := HandleBatch(env, w, rs[..n]);
      var k := p.handled;
      assert rs[..n][..k] == rs[..k];
      if p.status == Handled {
        var s := HandleRecord(env, p.after, rs[n]);
        HandledRecord(env, p.after, rs[n]);
        RecordSegment(env, p.after, rs[n]);
        FailedTail(p.effects, s.effects, s.status);
      }
    }
  }

  lemma FailedTail(script: seq<Effect>, segment: seq<Effect>, status: Status)
    requires CleanSegment(segment, status)
    ensures script <= script + segment && (script + segment)[|script|..] == segment && NoCommit(segment)
  {
  }

  /** Of every poll: up to its last commit the trace is, message by message, exactly the publishes the message
      calls for, each confirmed, followed by its commit; and nothing is committed after that. */
  lemma PollFollowsScript(env: Env, w: State', rs: seq<Record>, sweepNow: real)
    requires env.Valid() && StateValid(env, w)
    ensures var p := Poll(env, w, rs, sweepNow); Follows(env, LayersOf(w), rs, p.effects, p.handled)
  {
    hide HandleBatch; hide SweepStep; hide Script;
    BatchFollowsScript(env, w, rs);
    var p := HandleBatch(env, w, rs);
    if p.status == Handled {
      SweepSegment(env, p.after, sweepNow);
      assert rs[..p.handled] == rs;
      var script := Script(env, LayersOf(w), rs);
      var tail := SweepStep(env, p.after, sweepNow).effects;
      assert (script + tail)[|script|..] == tail;
    }
  }

  predicate AllRejected(outs: seq<Outcome>) { forall i :: 0 <= i < |outs| ==> outs[i].Rejected? }

  lemma {:induction false} SweepRejects(lim: Limits, order: seq<AssetId>, buffers: map<AssetId, AssetBuffer>, now: real)
    requires forall x :: x in order ==> x in buffers && KeysMatch(buffers[x])
    ensures AllRejected(SweepOutcomes(lim, order, buffers, now))
  {
    if order != [] {
      assert order[|order| - 1] in order;
      SweepRejects(lim, order[..|order| - 1], buffers, now);
    }
  }

  /** The first `k` of `outs` have each had a data-quality event sent, confirmed or not, under their own asset. */
  ghost predicate Reports(outs: seq<Outcome>, effects: seq<Effect>, k: nat) {
    k == |effects| <= |outs| && forall i :: 0 <= i < k ==>
      && outs[i].Rejected? && effects[i].Publish?
      && effects[i].topic == DataQuality && effects[i].key == Some(outs[i].asset)
  }

  ghost predicate Nameable(env: Env, outs: seq<Outcome>) {
    forall i :: 0 <= i < |outs| && outs[i].Rejected? ==> env.lib.encodes(outs[i].asset)
  }

  lemma RejectionIsReported(env: Env, ss: Sessions, sends: nat, o: Outcome)
    requires env.Valid() && SessionsValid(ss) && o.Rejected?
    ensures var h := HandleOutcome(env, ss, sends, o);
            && h.sessions == ss
            && if env.lib.encodes(o.asset)
               then h.status != Raised && |h.effects| == 1 && Reports([o], h.effects, 1)
               else h.status == Raised && h.effects == []
  {
    hide Attempts;
  }

  lemma ReportsGrow(env: Env, outs: seq<Outcome>, effects: seq<Effect>, k: nat, more: seq<Effect>)
    requires outs != [] && k <= |outs| - 1
    requires Reports(outs[..|outs| - 1], effects, k) && Nameable(env, outs[..|outs| - 1][..k])
    ensures Reports(outs, effects, k) && Nameable(env, outs[..k])
    ensures var last := outs[|outs| - 1];
            k == |outs| - 1 && last.Rejected? && env.lib.encodes(last.asset) && Reports([last], more, 1) ==>
              Reports(outs, effects + more, |outs|) && Nameable(env, outs[..|outs|])
  {
    assert outs[..|outs| - 1][..k] == outs[..k];
  }

  /** Reporting stops at the first asset id that cannot be encoded, and nowhere else. */
  lemma {:induction false} EachIsReported(env: Env, ss: Sessions, sends: nat, outs: seq<Outcome>)
    requires env.Valid() && SessionsValid(ss) && AllFit(outs) && AllRejected(outs)
    ensures var h := HandleEach(env, ss, sends, outs); var k := |h.effects|;
            && k <= |outs| && Reports(outs, h.effects, k) && Nameable(env, outs[..k])
            && (h.status == Handled ==> k == |outs|)
            && (h.status == Raised ==> k < |outs| && !env.lib.encodes(outs[k].asset))
            && h.sessions == ss
  {
    hide HandleOutcome; hide Env.Valid; hide SessionsValid; hide Reports; hide Nameable;
    if outs == [] {
      NothingReported(env);
    } else {
      var n := |outs| - 1;
      EachIsReported(env, ss, sends, outs[..n]);
      var before := HandleEach(env, ss, sends, outs[..n]);
      RejectionIsReported(env, ss, before.sends, outs[n]);
      ReportsGrow(env, outs, before.effects, |before.effects|,
                  HandleOutcome(env, ss, before.sends, outs[n]).effects);
      assert before.effects + [] == before.effects;
    }
  }

  lemma NothingReported(env: Env)
    ensures Reports([], [], 0) && Nameable(env, [])
  {
  }

  /** A sweep reports its expired samples one by one, in order, whatever the broker confirms, up to the first whose
      asset id cannot be encoded: there it raises. */
  lemma SweepReportsEach(env: Env, w: State', now: real)
    requires env.Valid() && StateValid(env, w)
    ensures var outs, s := Sweep(env.lim, w.assembly, now).1, SweepStep(env, w, now); var k := |s.effects|;
            && Reports(outs, s.effects, k) && Nameable(env, outs[..k])
            && (s.status == Handled ==> k == |outs|)
            && (s.status == Raised ==> k < |outs| && !env.lib.encodes(outs[k].asset))
            && s.after.sessions == w.sessions
  {
    hide HandleEach; hide SweepOutcomes; hide Reports; hide Nameable; hide AllFit;
    SweepFits(env.lim, w.assembly, now);
    MapsMatch(env.lim, w.assembly);
    SweepRejects(env.lim, w.assembly.order, w.assembly.buffers, now);
    EachIsReported(env, w.sessions, w.sends, Sweep(env.lim, w.assembly, now).1);
  }
}
