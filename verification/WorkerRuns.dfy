/** The worker's state is that of a run of the assembler and its sessions, whatever the broker does; so what is proved
    of runs holds of the worker. */
module WorkerRuns {
  import opened Telemetry
  import opened TelemetryEvents
  import opened Assembly
  import opened AssemblyOrder
  import opened AssemblyIsolation
  import opened Pipeline
  import opened Worker
  import S = InferenceSession

  // --- one event -----------------------------------------------------------------------------------------

  lemma {:induction false} UnfinishedKeepSessions(env: Env, ss: Sessions, sends: nat, outs: seq<Outcome>)
    requires env.Valid() && SessionsValid(ss) && AllFit(outs) && forall i :: 0 <= i < |outs| ==> !Finishes(outs[i])
    ensures HandleAll(env, ss, sends, outs).sessions == ss
    ensures HandleEach(env, ss, sends, outs).sessions == ss
  {
    hide Attempts;
    if outs != [] {
      UnfinishedKeepSessions(env, ss, sends, outs[..|outs| - 1]);
    }
  }

  lemma CompletedIsRouted(env: Env, ss: Sessions, sends: nat, o: Outcome)
    requires env.Valid() && SessionsValid(ss) && SampleFits(o) && o.Complete?
    ensures AllFit([o]) && HandleAll(env, ss, sends, [o]).sessions == Route(env.sys, ss, o.sample).0
  {
    hide Attempts; hide Route;
    assert [o][..0] == [];
    assert HandleAll(env, ss, sends, []) == Handling(ss, sends, [], Handled);
  }

  /** Where an accepted event takes the two layers: the assembler ingests it, and a completed sample reaches its
      session, whatever is published, fails or raises. */
  lemma EventMoves(env: Env, w: State', e: Event, now: real)
    requires env.Valid() && StateValid(env, w) && e.Valid()
    ensures var s := HandleEvent(env, w, e, now).after; var done := CompletedBy(w.assembly, e);
            && s.assembly == Ingest(env.lim, w.assembly, e, now).0
            && (if done.Some? && Identified(done.value) then
                  var x := SampleOf(e.assetId, e.timestamp, done.value);
                  S.Complete(x) && s.sessions == Route(env.sys, w.sessions, x).0
                else s.sessions == w.sessions)
  {
    hide Ingest; hide Valid; hide SampleFits; hide HandleAll; hide CompletedBy; hide Identified; hide Route;
    hide SampleOf;
    MapsMatch(env.lim, w.assembly);
    IngestFits(env.lim, w.assembly, e, now);
    FinishesExactly(env.lim, w.assembly, e, now);
    var outs := Ingest(env.lim, w.assembly, e, now).1;
    var done := CompletedBy(w.assembly, e);
    if done.None? {
      UnfinishedKeepSessions(env, w.sessions, w.sends, outs);
    } else if Identified(done.value) {
      assert SampleFits(outs[0]);
      CompletedFits(outs[0]);
      CompletedIsRouted(env, w.sessions, w.sends, outs[0]);
    }
  }

  lemma CompletedFits(o: Outcome)
    requires SampleFits(o) && o.Complete?
    ensures S.Complete(o.sample)
  {
  }

  // --- what the worker took -------------------------------------------------------------------------------

  /** The operation a message is for the assembler: its accepted event, if it has one. */
  function OpsOfRecord(lib: Library, r: Record): (ops: seq<Op>)
    ensures OpsValid(ops)
  {
    if r.message.Decoded? && Validate(lib, r.message.raw).Accepted? then
      AcceptedExactly(lib, r.message.raw);
      [Take(Validate(lib, r.message.raw).event, r.now)]
    else []
  }

  /** The accepted events of the messages a poll got to, the one it stopped at included. */
  ghost function OpsOfBatch(env: Env, w: State', rs: seq<Record>): (ops: seq<Op>)
    requires env.Valid() && StateValid(env, w)
    ensures OpsValid(ops)
  {
    if rs == [] then []
    else
      var n := |rs| - 1;
      OpsOfBatch(env, w, rs[..n]) +
      if HandleBatch(env, w, rs[..n]).status == Handled then OpsOfRecord(env.lib, rs[n]) else []
  }

  ghost function OpsOfPoll(env: Env, w: State', p: PollInput): (ops: seq<Op>)
    requires env.Valid() && StateValid(env, w)
    ensures OpsValid(ops)
  {
    OpsOfBatch(env, w, p.records) +
    if HandleBatch(env, w, p.records).status == Handled then [SweepAt(p.sweepNow)] else []
  }

  /** Everything the assembler took in the worker's life. */
  ghost function OpsOfLife(env: Env, polls: seq<PollInput>): (ops: seq<Op>)
    requires env.Valid()
    ensures OpsValid(ops)
  {
    if polls == [] then []
    else
      var n := |polls| - 1;
      var p := Life(env, polls[..n]);
      OpsOfLife(env, polls[..n]) + if p.status == Raised then [] else OpsOfPoll(env, p.after, polls[n])
  }

  /** The worker is where the run `ops` of the assembler and its sessions leads. */
  ghost predicate At(env: Env, w: State', ops: seq<Op>)
    requires env.Valid()
  {
    && OpsValid(ops) && w.assembly == After(env.lim, ops) && w.sessions == Inferred(env.lim, env.sys, ops).0
  }

  /** One more operation of a run, in both layers. */
  lemma RunMoves(lim: Limits, sys: S.FaultSystem, ops: seq<Op>, op: Op)
    requires lim.Valid() && sys.WellFormed() && OpsValid(ops) && OpValid(op)
    ensures OpsValid(ops + [op]) && After(lim, ops + [op]) == Step(lim, After(lim, ops), op).0
    ensures var xs := SamplesIn(Step(lim, After(lim, ops), op).1); var ss := Inferred(lim, sys, ops).0;
            && |xs| <= 1 && S.AllComplete(xs)
            && Inferred(lim, sys, ops + [op]).0 == if xs == [] then ss else Route(sys, ss, xs[0]).0
  {
    hide Step; hide Inferred; hide Route; hide S.FaultSystem.WellFormed; hide After;
    var all := ops + [op];
    assert all[..|all| - 1] == ops && all[|ops|] == op;
    AfterSnoc(lim, ops, op);
    InferredSnoc(lim, sys, all);
  }

  lemma TakeMoves(env: Env, w: State', ops: seq<Op>, e: Event, now: real)
    requires env.Valid() && StateValid(env, w) && At(env, w, ops) && e.Valid()
    ensures At(env, HandleEvent(env, w, e, now).after, ops + [Take(e, now)])
  {
    hide HandleEvent; hide Inferred; hide Route; hide S.FaultSystem.WellFormed; hide After; hide CompletedBy;
    hide Identified; hide Ingest; hide Valid; hide SampleOf; hide S.AllComplete;
    var op := Take(e, now);
    EventMoves(env, w, e, now);
    RunMoves(env.lim, env.sys, ops, op);
    TakenStep(env.lim, w.assembly, e, now);
    FinishesExactly(env.lim, w.assembly, e, now);
    SamplesFinished(Ingest(env.lim, w.assembly, e, now).1);
  }

  /** The samples of an event's outcomes: the one it completes, if it does. */
  lemma SamplesFinished(outs: seq<Outcome>)
    requires outs != [] && forall i :: 0 <= i < |outs| - 1 ==> outs[i].Rejected?
    ensures SamplesIn(outs) == if outs[|outs| - 1].Complete? then [outs[|outs| - 1].sample] else []
  {
    SamplesSnoc(outs);
  }

  lemma TakenStep(lim: Limits, s: State, e: Event, now: real)
    requires lim.Valid() && Valid(lim, s) && e.Valid()
    ensures (forall a :: a in s.order <==> a in s.buffers) && (forall a :: a in s.buffers ==> KeysMatch(s.buffers[a]))
    ensures Step(lim, s, Take(e, now)) == Ingest(lim, s, e, now)
  {
  }

  lemma RecordMoves(env: Env, w: State', ops: seq<Op>, r: Record)
    requires env.Valid() && StateValid(env, w) && At(env, w, ops)
    ensures At(env, HandleRecord(env, w, r).after, ops + OpsOfRecord(env.lib, r))
  {
    hide HandleEvent; hide Validate; hide StateValid; hide Attempts; hide WellFormed; hide Inferred; hide After;
    hide Unnameable; hide S.FaultSystem.WellFormed;
    if r.message.Decoded? {
      AcceptedExactly(env.lib, r.message.raw);
      if Validate(env.lib, r.message.raw).Accepted? {
        TakeMoves(env, w, ops, Validate(env.lib, r.message.raw).event, r.now);
      }
    }
    assert ops + [] == ops;
  }

  lemma {:induction false} BatchMoves(env: Env, w: State', ops: seq<Op>, rs: seq<Record>)
    requires env.Valid() && StateValid(env, w) && At(env, w, ops)
    ensures At(env, HandleBatch(env, w, rs).after, ops + OpsOfBatch(env, w, rs))
  {
    hide At; hide HandleRecord; hide OpsOfRecord; hide StateValid;
    if rs == [] {
      assert ops + [] == ops;
    } else {
      var n := |rs| - 1;
      BatchMoves(env, w, ops, rs[..n]);
      var p, before := HandleBatch(env, w, rs[..n]), OpsOfBatch(env, w, rs[..n]);
      if p.status == Handled {
        RecordMoves(env, p.after, ops + before, rs[n]);
        assert ops + before + OpsOfRecord(env.lib, rs[n]) == ops + (before + OpsOfRecord(env.lib, rs[n]));
      } else {
        assert before + [] == before;
      }
    }
  }

  lemma SweepMoves(env: Env, w: State', ops: seq<Op>, now: real)
    requires env.Valid() && StateValid(env, w) && At(env, w, ops)
    ensures At(env, SweepStep(env, w, now).after, ops + [SweepAt(now)])
  {
    hide HandleEach; hide Inferred; hide Route; hide S.FaultSystem.WellFormed; hide After; hide BufferSweep;
    hide BufferValid; hide S.AllComplete;
    MapsMatch(env.lim, w.assembly);
    SweepFits(env.lim, w.assembly, now);
    SweepRejects(env.lim, w.assembly.order, w.assembly.buffers, now);
    UnfinishedKeepSessions(env, w.sessions, w.sends, Sweep(env.lim, w.assembly, now).1);
    RunMoves(env.lim, env.sys, ops, SweepAt(now));
    SweepSamples(env.lim, w.assembly, now);
  }

  /** After every life, whatever the broker did and wherever a message failed or raised, the assembler and the sessions
      are exactly where the run of the accepted events and the sweeps leads. */
  lemma {:induction false} LifeIsRun(env: Env, polls: seq<PollInput>)
    requires env.Valid()
    ensures At(env, Life(env, polls).after, OpsOfLife(env, polls))
  {
    hide At; hide HandleBatch; hide SweepStep; hide OpsOfBatch;
    if polls == [] {
      StartsAtNothing(env);
    } else {
      var n := |polls| - 1;
      var p, ops := Life(env, polls[..n]), OpsOfLife(env, polls[..n]);
      LifeIsRun(env, polls[..n]);
      if p.status == Raised {
        assert ops + [] == ops;
      } else {
        var rs := polls[n].records;
        var b, taken := HandleBatch(env, p.after, rs), OpsOfBatch(env, p.after, rs);
        BatchMoves(env, p.after, ops, rs);
        if b.status == Handled {
          SweepMoves(env, b.after, ops + taken, polls[n].sweepNow);
          assert ops + taken + [SweepAt(polls[n].sweepNow)] == ops + (taken + [SweepAt(polls[n].sweepNow)]);
        } else {
          assert taken + [] == taken;
        }
      }
    }
  }

  lemma StartsAtNothing(env: Env)
    requires env.Valid()
    ensures At(env, State'(EMPTY, map[], 0), [])
  {
    NothingInferred(env.lim, env.sys);
  }

  /** Non-interference for the worker itself: if the events it took come from no more assets than may be tracked, then
      what it holds of asset `a`, in the assembler and in the session, is what a fresh assembler and a fresh session
      fed only `a`'s events and the same sweeps would hold; whatever the broker did to any asset. */
  lemma LifeDoesNotInterfere(env: Env, polls: seq<PollInput>, a: AssetId)
    requires env.Valid() && |AssetsOf(OpsOfLife(env, polls))| <= env.lim.maxAssets
    ensures var w := Life(env, polls).after; var own := Project(OpsOfLife(env, polls), a);
            && BufferOf(w.assembly, a) == BufferOf(After(env.lim, own), a)
            && S.OpsComplete(OffersOf(Assembled(env.lim, own), a))
            && SessionFor(w.sessions, a) == S.SessionRun(env.sys, a, OffersOf(Assembled(env.lim, own), a)).0
  {
    hide Life; hide OpsOfLife; hide After; hide Assembled; hide S.FaultSystem.WellFormed; hide BufferOf;
    hide SessionFor;
    var ops := OpsOfLife(env, polls);
    LifeIsRun(env, polls);
    AssetsDoNotInterfere(env.lim, ops, a);
    AssembledIsReadable(env.lim, ops);
    AssembledIsReadable(env.lim, Project(ops, a));
    OffersAreOwn(env.lim, ops, a);
    RoutingDoesNotInterfere(env.sys, Assembled(env.lim, ops), a);
  }

  lemma OffersAreOwn(lim: Limits, ops: seq<Op>, a: AssetId)
    requires lim.Valid() && OpsValid(ops) && |AssetsOf(ops)| <= lim.maxAssets
    ensures OffersOf(Assembled(lim, ops), a) == OffersOf(Assembled(lim, Project(ops, a)), a)
  {
    AssetsDoNotInterfere(lim, ops, a);
    OffersComeFromOwnOutcomes(lim, ops, a);
    OffersComeFromOwnOutcomes(lim, Project(ops, a), a);
    AboutTwice(Reported(lim, ops), a);
  }
}
