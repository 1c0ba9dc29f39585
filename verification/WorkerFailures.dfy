/** What can bring the streaming worker down: exactly which messages, in which states, and which it can never be. */
module WorkerFailures {
  import opened Basics
  import opened Telemetry
  import opened TelemetryEvents
  import opened Assembly
  import opened AssemblyOrder
  import opened AssemblyIsolation
  import opened Pipeline
  import opened Worker
  import opened SafeReadings
  import opened WorkerRuns
  import S = InferenceSession

  /** No asset outside `fleet` is buffered, the fleet fits, and no session is ahead of the assembler. */
  ghost predicate Calm(env: Env, w: State', fleet: set<AssetId>) {
    w.assembly.buffers.Keys <= fleet && |fleet| <= env.lim.maxAssets && Behind(w.sessions, w.assembly)
  }

  /** The messages on which the documented promise "malformed input must never crash the worker" fails whatever the
      worker's state: the decoder or the validation raises something unexpected, or the message is rejected and its
      asset field cannot go into the identity of the rejection. */
  predicate CrashGuard(lib: Library, m: Message) {
    || m.DecodeRaises?
    || (m.Decoded? && EscapeGuard(lib, m.raw))
    || (m.Decoded? && !WellFormed(lib, m.raw) && (Unnameable(m.raw) || Unencodable(lib, KeyOf(m.raw))))
  }

  predicate Unencodable(lib: Library, key: Option<AssetId>) { key.Some? && !lib.encodes(key.value) }

  ghost predicate AnyRejected(outs: seq<Outcome>) { exists i :: 0 <= i < |outs| && outs[i].Rejected? }

  /** An accepted event raises: it completes a slot in which an event id is empty, whose asset id cannot be encoded, or
      on which the features or the classifier raise; or it is, or makes room by, a rejection whose asset id cannot be
      encoded. */
  ghost predicate EventRaises(env: Env, w: State', e: Event, now: real)
    requires env.Valid() && StateValid(env, w) && e.Valid()
  {
    var done := CompletedBy(w.assembly, e);
    if done.Some? then
      || !Identified(done.value) || !env.lib.encodes(e.assetId)
      || Route(env.sys, w.sessions, SampleOf(e.assetId, e.timestamp, done.value)).1.ScoringRaised?
    else !env.lib.encodes(e.assetId) && AnyRejected(Ingest(env.lim, w.assembly, e, now).1)
  }

  predicate From(lib: Library, r: Record, fleet: set<AssetId>) {
    r.message.Decoded? && Validate(lib, r.message.raw).Accepted? ==> Validate(lib, r.message.raw).event.assetId in fleet
  }

  lemma FittingFleetNeverEvicts(lim: Limits, s: State, op: Op, fleet: set<AssetId>)
    requires Valid(lim, s) && s.buffers.Keys <= fleet && |fleet| <= lim.maxAssets && op.Take?
    requires op.event.assetId in fleet
    ensures !EvictsAsset(lim, s, op)
  {
    if op.event.assetId !in s.buffers {
      DistinctBound(s.order, fleet - {op.event.assetId});
    }
  }

  // --- rejections -----------------------------------------------------------------------------------

  /** Rejections and waiting touch no session, and raise exactly when one of them cannot be encoded. */
  lemma {:induction false} RejectionsRaise(env: Env, ss: Sessions, sends: nat, outs: seq<Outcome>, a: AssetId)
    requires env.Valid() && SessionsValid(ss) && AllFit(outs)
    requires forall i :: 0 <= i < |outs| ==> !Finishes(outs[i]) && outs[i].asset == a
    ensures var h := HandleAll(env, ss, sends, outs);
            && h.sessions == ss
            && (h.status == Raised <==> !env.lib.encodes(a) && AnyRejected(outs))
            && (!env.lib.encodes(a) && !AnyRejected(outs) ==> h.status == Handled)
  {
    hide Attempts;
    if outs != [] {
      var n := |outs| - 1;
      RejectionsRaise(env, ss, sends, outs[..n], a);
      assert AnyRejected(outs) <==> AnyRejected(outs[..n]) || outs[n].Rejected?;
    }
  }

  /** Swept outcomes touch no session, and raise exactly when one of them is about an asset that cannot be encoded. */
  lemma {:induction false} SweepOutcomesRaise(env: Env, ss: Sessions, sends: nat, outs: seq<Outcome>)
    requires env.Valid() && SessionsValid(ss) && AllFit(outs) && AllRejected(outs)
    ensures var h := HandleEach(env, ss, sends, outs);
            && h.sessions == ss
            && (h.status == Raised <==> exists i :: 0 <= i < |outs| && !env.lib.encodes(outs[i].asset))
  {
    hide Attempts;
    if outs != [] {
      var n := |outs| - 1;
      SweepOutcomesRaise(env, ss, sends, outs[..n]);
      if i :| 0 <= i < |outs| && !env.lib.encodes(outs[i].asset) {
        assert i < n ==> outs[..n][i] == outs[i];
      }
    }
  }

  // --- one event --------------------------------------------------------------------------------------

  /** Handling a completed sample. */
  lemma CompletionRaises(env: Env, ss: Sessions, sends: nat, o: Outcome)
    requires env.Valid() && SessionsValid(ss) && SampleFits(o) && o.Complete?
    requires LastOf(ss, o.asset).None? || LastOf(ss, o.asset).value < o.timestamp
    ensures AllFit([o])
    ensures var h := HandleAll(env, ss, sends, [o]);
            && (h.status == Raised <==> !env.lib.encodes(o.asset) || Route(env.sys, ss, o.sample).1.ScoringRaised?)
            && h.sessions == Route(env.sys, ss, o.sample).0
            && LastOf(h.sessions, o.asset) == Some(o.timestamp)
            && (forall a :: a != o.asset ==> LastOf(h.sessions, a) == LastOf(ss, a))
  {
    hide Attempts; hide Route; hide LastOf;
    RouteLast(env.sys, ss, o.sample);
    RouteReply(env.sys, ss, o.sample);
    assert [o][..0] == [];
    assert HandleAll(env, ss, sends, []) == Handling(ss, sends, [], Handled);
  }

  lemma RouteReply(sys: S.FaultSystem, ss: Sessions, x: TelemetrySample)
    requires sys.WellFormed() && SessionsValid(ss) && S.Complete(x)
    ensures !Route(sys, ss, x).1.Done?
  {
    hide S.StateValid; hide S.InputsAt; hide S.RowOf; hide S.ResultOf; hide S.Pushed; hide S.Ready;
  }

  /** What one event of a fleet that fits does to the assembler, seen from the worker. */
  lemma EventInFleet(env: Env, w: State', e: Event, now: real, fleet: set<AssetId>)
    requires env.Valid() && StateValid(env, w) && e.Valid() && Calm(env, w, fleet) && e.assetId in fleet
    ensures var (assembly, outs) := Ingest(env.lim, w.assembly, e, now);
            && assembly.buffers.Keys <= fleet && AllFit(outs)
            && (forall i :: 0 <= i < |outs| ==> outs[i].asset == e.assetId)
            && Advances(w.assembly, assembly, e)
            && (forall a :: a != e.assetId ==> LatestOf(assembly, a) == LatestOf(w.assembly, a))
  {
    hide Ingest; hide Valid; hide EvictsAsset; hide SampleFits; hide LatestOf; hide CompletedBy; hide Identified;
    hide BufferIngest;
    hide Env.Valid; hide S.FaultSystem.WellFormed; hide BufferValid;
    var op := Take(e, now);
    assert env.lim.Valid() by { LimitsAreValid(env); }
    FittingFleetNeverEvicts(env.lim, w.assembly, op, fleet);
    StepAddsAsset(env.lim, w.assembly, op);
    OthersKeepLatest(env.lim, w.assembly, op);
    TakenStep(env.lim, w.assembly, e, now);
    IngestSamples(env.lim, w.assembly, e, now);
    IngestFits(env.lim, w.assembly, e, now);
    TakeIsLocal(env.lim, w.assembly, e, now);
    IngestIsLocal(env.lim, w.assembly, e, now);
    BufferIngestAsset(OwnBuffer(w.assembly, e.assetId, now), e, now, env.lim.maxBuffered);
  }

  lemma LimitsAreValid(env: Env)
    requires env.Valid()
    ensures env.lim.Valid()
  {
  }

  /** An accepted event raises exactly under its condition, and leaves the worker calm in any case. */
  lemma EventRaisesExactly(env: Env, w: State', e: Event, now: real, fleet: set<AssetId>)
    requires env.Valid() && StateValid(env, w) && e.Valid() && Calm(env, w, fleet) && e.assetId in fleet
    ensures var s := HandleEvent(env, w, e, now);
            Calm(env, s.after, fleet) && (s.status == Raised <==> EventRaises(env, w, e, now))
  {
    hide Ingest; hide Valid; hide SampleFits; hide HandleAll; hide LatestOf; hide LastOf; hide CompletedBy;
    hide Identified;
    hide Route; hide SampleOf; hide AnyRejected;
    MapsMatch(env.lim, w.assembly);
    EventInFleet(env, w, e, now, fleet);
    FinishesExactly(env.lim, w.assembly, e, now);
    var (assembly, outs) := Ingest(env.lim, w.assembly, e, now);
    var done := CompletedBy(w.assembly, e);
    var s := HandleEvent(env, w, e, now);
    if done.None? {
      RejectionsRaise(env, w.sessions, w.sends, outs, e.assetId);
    } else if Identified(done.value) {
      assert SampleFits(outs[0]);
      assert Behind(w.sessions, w.assembly);
      CompletionRaises(env, w.sessions, w.sends, outs[0]);
    }
    BehindKept(w.sessions, w.assembly, s.after.sessions, assembly, Some(e.assetId));
  }

  /** On a fleet that fits, handling a message raises if and only if the message is guarded, or it is accepted and its
      event raises: never because of a non-monotonic sample, whatever publishes have failed before. */
  lemma RaisesExactly(env: Env, w: State', r: Record, fleet: set<AssetId>)
    requires env.Valid() && StateValid(env, w) && Calm(env, w, fleet) && From(env.lib, r, fleet)
    ensures HandleRecord(env, w, r).status == Raised <==>
            CrashGuard(env.lib, r.message) || AcceptedRaises(env, w, r)
    ensures Calm(env, HandleRecord(env, w, r).after, fleet)
  {
    hide HandleEvent; hide Validate; hide Valid; hide Attempts; hide WellFormed; hide EscapeGuard; hide Unnameable;
    hide EventRaises; hide KeyOf;
    if r.message.Decoded? {
      var raw := r.message.raw;
      AcceptedExactly(env.lib, raw);
      EscapesExactly(env.lib, raw);
      if Validate(env.lib, raw).Accepted? {
        EventRaisesExactly(env, w, Validate(env.lib, raw).event, r.now, fleet);
      }
    }
  }

  ghost predicate AcceptedRaises(env: Env, w: State', r: Record)
    requires env.Valid() && StateValid(env, w)
  {
    && r.message.Decoded? && WellFormed(env.lib, r.message.raw)
    && (AcceptedExactly(env.lib, r.message.raw); EventRaises(env, w, Validate(env.lib, r.message.raw).event, r.now))
  }

  /** The timeout sweep raises if and only if it expires a sample of an asset whose id cannot be encoded. */
  lemma SweepRaisesExactly(env: Env, w: State', now: real)
    requires env.Valid() && StateValid(env, w)
    ensures var outs := Sweep(env.lim, w.assembly, now).1;
            SweepStep(env, w, now).status == Raised <==> exists i :: 0 <= i < |outs| && !env.lib.encodes(outs[i].asset)
    ensures SweepStep(env, w, now).after.sessions == w.sessions
  {
    hide BufferSweep; hide HandleEach;
    SweepFits(env.lim, w.assembly, now);
    SweepRejects(env.lim, w.assembly.order, w.assembly.buffers, now);
    SweepOutcomesRaise(env, w.sessions, w.sends, Sweep(env.lim, w.assembly, now).1);
  }

  // --- whole lives ------------------------------------------------------------------------------------------

  /** What a sender can check of its own messages: guarded, or accepted with an empty event id, an asset id that cannot
      be encoded, or a reading outside the range. */
  predicate Suspect(lib: Library, good: Range, r: Record) {
    || CrashGuard(lib, r.message)
    || (r.message.Decoded? && Validate(lib, r.message.raw).Accepted? &&
        var e := Validate(lib, r.message.raw).event; e.eventId == "" || !lib.encodes(e.assetId) || !EventIn(good, e))
  }

  /** Every buffered reading has an id, every tracked asset can be encoded, and every reading buffered or remembered is
      in the range. */
  ghost predicate Clean(env: Env, good: Range, w: State') {
    && StateIdentified(w.assembly) && (forall a :: a in w.assembly.buffers ==> env.lib.encodes(a))
    && BuffersIn(good, w.assembly) && SessionsIn(good, w.sessions)
  }

  lemma CleanEvent(env: Env, good: Range, w: State', e: Event, now: real)
    requires env.Valid() && StateValid(env, w) && e.Valid() && Clean(env, good, w) && SafeOn(env.sys, good)
    requires e.eventId != "" && env.lib.encodes(e.assetId) && EventIn(good, e)
    ensures !EventRaises(env, w, e, now) && Clean(env, good, HandleEvent(env, w, e, now).after)
  {
    hide Ingest; hide Valid; hide CompletedBy; hide Identified; hide Route; hide StateIdentified; hide BufferIngest;
    hide BufferValid; hide HandleEvent; hide SampleOf; hide BuffersIn; hide SessionsIn; hide SafeOn; hide SampleIn;
    hide AnyRejected; hide EventIn;
    var op := Take(e, now);
    TakenStep(env.lim, w.assembly, e, now);
    StepIdentified(env.lim, w.assembly, op);
    IngestIsLocal(env.lim, w.assembly, e, now);
    IngestIn(env.lim, good, w.assembly, e, now);
    EventMoves(env, w, e, now);
    var done := CompletedBy(w.assembly, e);
    if done.Some? {
      CompletedIn(good, w.assembly, e);
      RouteIn(env.sys, good, w.sessions, SampleOf(e.assetId, e.timestamp, done.value));
    }
  }

  lemma CleanRecord(env: Env, good: Range, w: State', r: Record, fleet: set<AssetId>)
    requires env.Valid() && StateValid(env, w) && Calm(env, w, fleet) && From(env.lib, r, fleet)
    requires Clean(env, good, w) && !Suspect(env.lib, good, r) && SafeOn(env.sys, good)
    ensures var s := HandleRecord(env, w, r);
            s.status != Raised && Calm(env, s.after, fleet) && Clean(env, good, s.after)
  {
    hide Validate; hide Valid; hide WellFormed; hide CrashGuard; hide EventRaises; hide HandleEvent; hide Ingest;
    hide Attempts; hide SafeOn; hide StateIdentified; hide BuffersIn; hide SessionsIn; hide EventIn; hide Calm;
    RaisesExactly(env, w, r, fleet);
    if r.message.Decoded? {
      AcceptedExactly(env.lib, r.message.raw);
      if Validate(env.lib, r.message.raw).Accepted? {
        CleanEvent(env, good, w, Validate(env.lib, r.message.raw).event, r.now);
      }
    }
  }

  lemma {:induction false} CleanBatch(env: Env, good: Range, w: State', rs: seq<Record>, fleet: set<AssetId>)
    requires env.Valid() && StateValid(env, w) && Calm(env, w, fleet) && Clean(env, good, w) && SafeOn(env.sys, good)
    requires forall i :: 0 <= i < |rs| ==> From(env.lib, rs[i], fleet) && !Suspect(env.lib, good, rs[i])
    ensures var p := HandleBatch(env, w, rs);
            p.status != Raised && Calm(env, p.after, fleet) && Clean(env, good, p.after)
  {
    hide HandleRecord; hide From; hide Suspect; hide Calm; hide Clean; hide SafeOn;
    if rs != [] {
      var n := |rs| - 1;
      CleanBatch(env, good, w, rs[..n], fleet);
      var p := HandleBatch(env, w, rs[..n]);
      if p.status == Handled {
        CleanRecord(env, good, p.after, rs[n], fleet);
      }
    }
  }

  lemma CleanSweep(env: Env, good: Range, w: State', now: real, fleet: set<AssetId>)
    requires env.Valid() && StateValid(env, w) && Calm(env, w, fleet) && Clean(env, good, w)
    ensures var s := SweepStep(env, w, now);
            s.status == Handled && Calm(env, s.after, fleet) && Clean(env, good, s.after)
  {
    hide BufferSweep; hide HandleEach; hide StateIdentified; hide LatestOf; hide LastOf; hide BufferValid;
    hide BuffersIn; hide SessionsIn;
    SweepRaisesExactly(env, w, now);
    MapsMatch(env.lim, w.assembly);
    SweepReportsTracked(env.lim, w.assembly.order, w.assembly.buffers, now);
    SweepSamples(env.lim, w.assembly, now);
    SweepIn(env.lim, good, w.assembly, now);
    StepIdentified(env.lim, w.assembly, SweepAt(now));
    BehindKept(w.sessions, w.assembly, w.sessions, Sweep(env.lim, w.assembly, now).0, None);
  }

  predicate NoneSuspect(lib: Library, good: Range, polls: seq<PollInput>) {
    forall i, j :: 0 <= i < |polls| && 0 <= j < |polls[i].records| ==> !Suspect(lib, good, polls[i].records[j])
  }

  predicate AllFrom(lib: Library, polls: seq<PollInput>, fleet: set<AssetId>) {
    forall i, j :: 0 <= i < |polls| && 0 <= j < |polls[i].records| ==> From(lib, polls[i].records[j], fleet)
  }

  /** For every broker, every clock and every sequence of polls of a fleet that fits, and every range of readings on
      which scoring twelve consecutive samples never raises: if no message is suspect, the worker never raises. */
  lemma {:induction false} OnlySuspectMessagesRaise(env: Env, good: Range, polls: seq<PollInput>, fleet: set<AssetId>)
    requires env.Valid() && |fleet| <= env.lim.maxAssets && AllFrom(env.lib, polls, fleet)
    requires SafeOn(env.sys, good) && NoneSuspect(env.lib, good, polls)
    ensures var p := Life(env, polls); p.status != Raised && Calm(env, p.after, fleet) && Clean(env, good, p.after)
  {
    hide HandleBatch; hide From; hide Suspect; hide SweepStep; hide Calm; hide Clean; hide SafeOn;
    if polls == [] {
      StartsCalm(env, good, fleet);
    } else {
      var n := |polls| - 1;
      OnlySuspectMessagesRaise(env, good, polls[..n], fleet);
      var p := Life(env, polls[..n]);
      assert forall j :: 0 <= j < |polls[n].records| ==>
               From(env.lib, polls[n].records[j], fleet) && !Suspect(env.lib, good, polls[n].records[j]);
      CleanBatch(env, good, p.after, polls[n].records, fleet);
      var b := HandleBatch(env, p.after, polls[n].records);
      if b.status == Handled {
        CleanSweep(env, good, b.after, polls[n].sweepNow, fleet);
      }
    }
  }

  lemma StartsCalm(env: Env, good: Range, fleet: set<AssetId>)
    requires |fleet| <= env.lim.maxAssets
    ensures Calm(env, State'(EMPTY, map[], 0), fleet) && Clean(env, good, State'(EMPTY, map[], 0))
  {
  }
}
