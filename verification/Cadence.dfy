/** The publish cadence of the simulator (`backend/simulator/__main__.py`): two deadlines that advance on fixed grids
    over any non-decreasing clock. */
module Cadence {
  import opened RealFacts

  /** `_advance_publish_deadline`; Python's `//` on floats is the floor of the quotient. */
  function AdvanceDeadline(deadline: real, interval: real, now: real): real
    requires interval > 0.0
  {
    if now < deadline then deadline else deadline + ((now - deadline) / interval).Floor as real * interval + interval
  }

  /** `_seconds_until_next_deadline`. */
  function SecondsUntilNext(now: real, core: real, derived: real): real { Min(core, derived) - now }

  /** The `k`-th slot of the grid that starts at `start`. */
  function Slot(start: real, interval: real, k: int): real { start + Times(k as real, interval) }

  lemma SlotsIncrease(start: real, interval: real, j: int, k: int)
    requires interval > 0.0
    ensures j < k <==> Slot(start, interval, j) < Slot(start, interval, k)
  {
    if j < k { SlotsApart(start, interval, j, k); }
    if k < j { SlotsApart(start, interval, k, j); }
  }

  lemma SlotsApart(start: real, interval: real, j: int, k: int)
    requires interval > 0.0 && j < k
    ensures Slot(start, interval, j) < Slot(start, interval, k)
  {
    TimesPositive((k - j) as real, interval);
    TimesSplits((k - j) as real, j as real, interval);
    hide Times;
  }

  /** A due deadline moves to the first slot of its own grid strictly after `now`. */
  lemma AdvancesToNextSlot(start: real, interval: real, k: nat, now: real) returns (n: nat)
    requires interval > 0.0 && Slot(start, interval, k) <= now
    ensures n > k && AdvanceDeadline(Slot(start, interval, k), interval, now) == Slot(start, interval, n)
    ensures Slot(start, interval, n - 1) <= now < Slot(start, interval, n)
  {
    var deadline := Slot(start, interval, k);
    var q := (now - deadline) / interval;
    var f := q.Floor;
    QuotientMonotone(0.0, now - deadline, interval);
    n := k + f + 1;
    TimesQuotient(interval, now - deadline);
    TimesCommutes(interval, q);
    TimesSplits(k as real, f as real, interval);
    TimesSplits((k + f) as real, 1.0, interval);
    TimesMonotone(f as real, q, interval);
    Strictly(q, (f + 1) as real, interval);
    TimesSplits(f as real, 1.0, interval);
    assert Times(1.0, interval) == interval && f as real * interval == Times(f as real, interval);
    hide Times;
  }

  lemma Strictly(a: real, b: real, c: real)
    requires a < b && c > 0.0
    ensures Times(a, c) < Times(b, c)
  {
    TimesPositive(b - a, c);
    TimesSplits(b - a, a, c);
    hide Times;
  }

  // --- the loop -----------------------------------------------------------------------------------

  /** One pass reads the clock on entry and, when something is due, again when it has finished. */
  datatype Pass = Pass(now: real, finished: real)

  /** A publication: the deadline that was due, and the two clock readings of its pass. */
  datatype Publication = Publication(deadline: real, now: real, finished: real)

  datatype Pause = Pause(now: real, seconds: real)

  datatype Grid = Grid(start: real, interval: real) {
    function At(k: int): real { Slot(start, interval, k) }
  }

  /** Passes over a clock that never runs backwards and starts no earlier than `from`. */
  predicate Clock(from: real, passes: seq<Pass>) {
    && (forall i :: 0 <= i < |passes| ==> from <= passes[i].now <= passes[i].finished)
    && (forall i, j :: 0 <= i < j < |passes| ==> passes[i].finished <= passes[j].now)
  }

  /** The publications of one grid serve `slots[0]`, `slots[1]`, ... and `slots[|pubs|]` is pending: the first serves
      slot zero, none is early, and each is followed by the first slot strictly after it finished. */
  predicate Cadenced(g: Grid, pubs: seq<Publication>, slots: seq<nat>) {
    && |slots| == |pubs| + 1 && slots[0] == 0
    && (forall i :: 0 <= i < |pubs| ==> pubs[i].deadline == g.At(slots[i]) <= pubs[i].now <= pubs[i].finished)
    && (forall i :: 0 <= i < |pubs| ==> Follows(g, pubs[i], slots[i], slots[i + 1]))
  }

  predicate Follows(g: Grid, p: Publication, slot: nat, next: nat) {
    slot < next && g.At(next - 1) <= p.finished < g.At(next)
  }

  predicate Pending(g: Grid, slots: seq<nat>, deadline: real) { slots != [] && deadline == g.At(slots[|slots| - 1]) }

  /** `at` is the first slot of the grid after `now`. */
  ghost predicate FirstAfter(g: Grid, now: real, at: real) {
    exists k: int :: g.At(k) == at && now < at && g.At(k - 1) <= now
  }

  /** A sleep ends at the first slot of either grid after it began. */
  ghost predicate EndsAtSlot(g: Grid, h: Grid, p: Pause) {
    var wake := p.now + p.seconds;
    exists one, other: real :: FirstAfter(g, p.now, one) && FirstAfter(h, p.now, other) &&
      (wake == one || wake == other) && wake <= one && wake <= other
  }

  ghost predicate AllEndAtSlots(g: Grid, h: Grid, pauses: seq<Pause>) {
    forall i :: 0 <= i < |pauses| ==> EndsAtSlot(g, h, pauses[i])
  }

  predicate LastFinished(pubs: seq<Publication>, time: real) { pubs == [] || pubs[|pubs| - 1].finished <= time }

  /** A pending deadline that is not due yet is the next slot. */
  lemma PendingIsNext(g: Grid, pubs: seq<Publication>, slots: seq<nat>, deadline: real, now: real)
    requires Cadenced(g, pubs, slots) && Pending(g, slots, deadline) && g.start <= now < deadline
    requires LastFinished(pubs, now)
    ensures FirstAfter(g, now, deadline)
  {
    var k := |pubs|;
    if k == 0 {
      TimesUnits(g.interval);
      assert false;
    } else {
      assert Follows(g, pubs[k - 1], slots[k - 1], slots[k]);
      assert g.At(slots[k]) == deadline;
    }
    hide Slot;
  }

  /** Serving a due deadline keeps its grid's cadence. */
  lemma Serve(g: Grid, pubs: seq<Publication>, slots: seq<nat>, deadline: real, now: real, finished: real)
    returns (n: nat)
    requires g.interval > 0.0 && Cadenced(g, pubs, slots) && Pending(g, slots, deadline) && deadline <= now <= finished
    ensures Cadenced(g, pubs + [Publication(deadline, now, finished)], slots + [n])
    ensures Pending(g, slots + [n], AdvanceDeadline(deadline, g.interval, finished))
    ensures finished < AdvanceDeadline(deadline, g.interval, finished)
  {
    hide AdvanceDeadline; hide Slot;
    var k := |pubs|;
    n := AdvancesToNextSlot(g.start, g.interval, slots[k], finished);
    var all, next := pubs + [Publication(deadline, now, finished)], slots + [n];
    forall i | 0 <= i < |all| ensures Follows(g, all[i], next[i], next[i + 1]) {
      if i < k {
        assert next[i + 1] == slots[i + 1];
      }
    }
  }

  /** `_run_dual_cadence_loop`, for as many passes as the clock gives. Both deadlines stay on their grids and are never
      left in the past, both publication sequences keep their cadence, and every sleep ends at the next slot. */
  method RunDualCadenceLoop(coreGrid: Grid, derivedGrid: Grid, passes: seq<Pass>)
    returns (core: seq<Publication>, derived: seq<Publication>, pauses: seq<Pause>, nextCore: real, nextDerived: real,
             ghost coreSlots: seq<nat>, ghost derivedSlots: seq<nat>)
    requires coreGrid.interval > 0.0 && derivedGrid.interval > 0.0
    requires Clock(coreGrid.start, passes) && Clock(derivedGrid.start, passes)
    ensures Cadenced(coreGrid, core, coreSlots) && Pending(coreGrid, coreSlots, nextCore)
    ensures Cadenced(derivedGrid, derived, derivedSlots) && Pending(derivedGrid, derivedSlots, nextDerived)
    ensures forall p :: 0 <= p < |passes| ==> passes[p].now < nextCore && passes[p].now < nextDerived
    ensures AllEndAtSlots(coreGrid, derivedGrid, pauses)
  {
    hide AdvanceDeadline; hide Slot; hide Cadenced; hide Pending; hide EndsAtSlot; hide FirstAfter;
    hide SecondsUntilNext;
    core, derived, pauses, nextCore, nextDerived := [], [], [], coreGrid.start, derivedGrid.start;
    coreSlots, derivedSlots := [0], [0];
    NothingYet(coreGrid);
    NothingYet(derivedGrid);
    for p := 0 to |passes|
      invariant Cadenced(coreGrid, core, coreSlots) && Pending(coreGrid, coreSlots, nextCore)
      invariant Cadenced(derivedGrid, derived, derivedSlots) && Pending(derivedGrid, derivedSlots, nextDerived)
      invariant forall o :: 0 <= o < p ==> passes[o].now < nextCore && passes[o].now < nextDerived
      invariant AllEndAtSlots(coreGrid, derivedGrid, pauses)
      invariant p == 0 ==> core == [] && derived == []
      invariant p > 0 ==> LastFinished(core, passes[p - 1].finished) && LastFinished(derived, passes[p - 1].finished)
    {
      var now, finished := passes[p].now, passes[p].finished;
      assert now <= finished && forall o :: 0 <= o < p ==> passes[o].now <= now;
      if now < nextCore && now < nextDerived {
        PendingIsNext(coreGrid, core, coreSlots, nextCore, now);
        PendingIsNext(derivedGrid, derived, derivedSlots, nextDerived, now);
        EndsAtFirst(coreGrid, derivedGrid, now, nextCore, nextDerived);
        pauses := pauses + [Pause(now, SecondsUntilNext(now, nextCore, nextDerived))];
      } else {
        var coreDue, derivedDue := now >= nextCore, now >= nextDerived;
        if coreDue {
          ghost var n := Serve(coreGrid, core, coreSlots, nextCore, now, finished);
          core, coreSlots := core + [Publication(nextCore, now, finished)], coreSlots + [n];
          nextCore := AdvanceDeadline(nextCore, coreGrid.interval, finished);
        }
        if derivedDue {
          ghost var n := Serve(derivedGrid, derived, derivedSlots, nextDerived, now, finished);
          derived, derivedSlots := derived + [Publication(nextDerived, now, finished)], derivedSlots + [n];
          nextDerived := AdvanceDeadline(nextDerived, derivedGrid.interval, finished);
        }
      }
    }
  }

  lemma EndsAtFirst(g: Grid, h: Grid, now: real, one: real, other: real)
    requires FirstAfter(g, now, one) && FirstAfter(h, now, other)
    ensures EndsAtSlot(g, h, Pause(now, SecondsUntilNext(now, one, other)))
  {
    hide FirstAfter;
  }

  lemma NothingYet(g: Grid)
    ensures Cadenced(g, [], [0]) && Pending(g, [0], g.start)
  {
  }

  /** No slot is served twice, and slots are served in order. */
  lemma {:induction false} SlotsServedInOrder(g: Grid, pubs: seq<Publication>, slots: seq<nat>, i: nat, j: nat)
    requires g.interval > 0.0 && Cadenced(g, pubs, slots) && i < j < |slots|
    ensures slots[i] < slots[j]
    ensures j < |pubs| ==> pubs[i].deadline < pubs[j].deadline
  {
    hide Slot;
    if i + 1 < j {
      SlotsServedInOrder(g, pubs, slots, i, j - 1);
    }
    assert Follows(g, pubs[j - 1], slots[j - 1], slots[j]);
    SlotsIncrease(g.start, g.interval, slots[i], slots[j]);
  }

  /** Without overruns nothing is skipped: slot `i` is the `i`-th served. */
  lemma {:induction false} NoOverrunNoSkip(g: Grid, pubs: seq<Publication>, slots: seq<nat>, i: nat)
    requires g.interval > 0.0 && Cadenced(g, pubs, slots) && i < |slots|
    requires forall k :: 0 <= k < i ==> pubs[k].finished < g.At(slots[k] + 1)
    ensures slots[i] == i
  {
    hide Slot;
    if i > 0 {
      NoOverrunNoSkip(g, pubs, slots, i - 1);
      assert Follows(g, pubs[i - 1], slots[i - 1], slots[i]);
      SlotsIncrease(g.start, g.interval, slots[i] - 1, slots[i - 1] + 1);
    }
  }

  /** A slot between two served ones passed while the earlier publication was still running. */
  lemma SkippedMeansOverrun(g: Grid, pubs: seq<Publication>, slots: seq<nat>, i: nat, k: nat)
    requires g.interval > 0.0 && Cadenced(g, pubs, slots) && i < |pubs| && slots[i] < k < slots[i + 1]
    ensures g.At(k) <= pubs[i].finished
  {
    hide Slot;
    assert Follows(g, pubs[i], slots[i], slots[i + 1]);
    SlotsIncrease(g.start, g.interval, k, slots[i + 1] - 1);
  }
}
