/** `OutboxDispatcher.dispatch` itself: one loop over the pending rows that marks them in place and commits
    at the end. Each call is an uninterrupted run of the protocol's steps. */
module OutboxDispatchers {
  import opened Basics
  import opened Outbox

  lemma {:induction false} RunsSnoc(w: World, actions: seq<Action>, mid: World, a: Action)
    requires RunsTo(w, actions, mid) && Enabled(mid, a)
    ensures RunsTo(w, actions + [a], Next(mid, a))
    decreases |actions|
  {
    hide Next; hide Enabled;
    var all := actions + [a];
    if actions == [] {
      assert all[1..] == [];
    } else {
      RunsSnoc(Next(w, actions[0]), actions[1..], mid, a);
      assert all[1..] == actions[1..] + [a];
    }
  }

  /** The rows put on the bus, in order. */
  function BusIds(log: seq<Entry>): seq<RowId> {
    if log == [] then []
    else
      var n := |log| - 1;
      BusIds(log[..n]) + if log[n].OnBus? then [log[n].id] else []
  }

  lemma {:induction false} BusIdsConcat(x: seq<Entry>, y: seq<Entry>)
    ensures BusIds(x + y) == BusIds(x) + BusIds(y)
  {
    if y == [] {
      assert x + y == x;
    } else {
      assert (x + y)[..|x + y| - 1] == x + y[..|y| - 1];
      BusIdsConcat(x, y[..|y| - 1]);
    }
  }

  lemma BusIdsOfOneRow(id: RowId)
    ensures BusIds([OnBus(id)]) == BusIds([OnBus(id), Confirmed(id)]) == BusIds([OnBus(id), Failed(id)]) == [id]
    ensures BusIds([Interrupted(id)]) == []
  {
    assert [OnBus(id)][..0] == [] && [Interrupted(id)][..0] == [];
    assert [OnBus(id), Confirmed(id)][..1] == [OnBus(id)];
    assert [OnBus(id), Failed(id)][..1] == [OnBus(id)];
  }

  predicate ByCreation(rows: map<RowId, Row>, ids: seq<RowId>) {
    forall i, j :: 0 <= i < j < |ids| ==>
      ids[i] in rows && ids[j] in rows && rows[ids[i]].createdAt <= rows[ids[j]].createdAt
  }

  predicate Friendly(answers: seq<Answer>) {
    forall i :: 0 <= i < |answers| ==> !answers[i].handlerRaises && answers[i].confirms
  }

  predicate AnyMalformed(rows: map<RowId, Row>, queue: seq<RowId>) {
    exists i :: 0 <= i < |queue| && queue[i] in rows && Malformed(rows[queue[i]])
  }

  ghost predicate OnlyUnknownPending(w: World) {
    forall id :: id in w.rows && Pending(w, id) ==> !Known(w.rows[id])
  }

  /** The rows a finished cycle marks: known, and not left for a retry by a failed Kafka publish. */
  predicate Marks(w: World, id: RowId, answer: Answer) {
    id in w.rows && Known(w.rows[id]) && (NeedsKafka(w, id) ==> answer.confirms)
  }

  class OutboxDispatcher {
    const hasPublisher: bool
    var rows: map<RowId, Row>
    var marked: map<RowId, int>
    var log: seq<Entry>

    constructor (hasPublisher: bool)
      ensures View() == Start(hasPublisher)
    {
      this.hasPublisher := hasPublisher;
      rows, marked, log := map[], map[], [];
    }

    ghost function View(): World
      reads this
    {
      World(hasPublisher, rows, marked, log, map[])
    }

    /** The world while a cycle of dispatcher 0 is in progress. */
    ghost function During(now: int, rest: seq<RowId>, marks: set<RowId>): World
      reads this
    {
      View().(cycles := map[0 := Cycle(now, rest, marks)])
    }

    /** `_publish_integration_event`: true once the row has no Kafka leg left to deliver. */
    method PublishIntegrationEvent(id: RowId, confirms: bool) returns (ok: bool)
      requires id in rows
      modifies this`log
      ensures ok == (!NeedsKafka(View(), id) || confirms)
      ensures log == old(log) + if !NeedsKafka(View(), id) then []
                                else if confirms then [Confirmed(id)] else [Failed(id)]
    {
      if !hasPublisher {
        return true;
      }
      if !HasKafkaLeg(rows[id].eventType) {
        return true;
      }
      log := log + [if confirms then Confirmed(id) else Failed(id)];
      return confirms;
    }

    /** The loop body: skip, crash, or deliver one row. */
    method VisitRow(id: RowId, answer: Answer) returns (raised: bool, mark: bool)
      requires id in rows
      modifies this`log
      ensures raised == Raises(rows[id], answer)
      ensures mark == (!raised && Marks(View(), id, answer))
      ensures log == old(log) + EntriesFor(View(), id, answer)
    {
      raised, mark := false, false;
      var row := rows[id];
      if !Known(row) {
        return;
      }
      if Malformed(row) {
        raised := true;
        return;
      }
      if answer.handlerRaises {
        log := log + [Interrupted(id)];
        raised := true;
        return;
      }
      log := log + [OnBus(id)];
      mark := PublishIntegrationEvent(id, answer.confirms);
    }

    /** One dispatch cycle over the rows the query returned, with the outside's answer for each row.
        It either commits its marks or, if a row cannot be deserialized or a handler raises, leaves none. */
    method Dispatch(now: int, queue: seq<RowId>, answers: seq<Answer>) returns (ok: bool, ghost actions: seq<Action>)
      requires IsPendingQuery(View(), queue) && |answers| == |queue|
      modifies this`marked, this`log
      ensures RunsTo(old(View()), actions, View())
      ensures old(log) <= log && ByCreation(rows, BusIds(log[|old(log)|..]))
      ensures !ok ==> marked == old(marked)
      ensures !ok ==> exists i :: 0 <= i < |queue| && queue[i] in rows && Raises(rows[queue[i]], answers[i])
      ensures ok ==> forall i :: 0 <= i < |queue| ==> queue[i] in rows && !Raises(rows[queue[i]], answers[i])
      ensures ok ==> marked == old(marked) + map id | id in MarkedBy(View(), queue, answers) :: now
      ensures Friendly(answers) ==> (OnlyUnknownPending(View()) <==> !AnyMalformed(rows, queue))
    {
      hide Next; hide Enabled; hide RunsTo; hide BusIds; hide ByCreation; hide EntriesFor; hide Raises; hide Marks;
      hide MarkedBy; hide IsPendingQuery;
      hide Friendly; hide AnyMalformed; hide OnlyUnknownPending;
      ghost var w := View();
      QueryListsRows(w, queue);
      var marks: set<RowId> := {};
      actions := CycleLoads(w, now, queue);
      assert log[|log|..] == [];
      NothingOnBus(rows);
      NothingMarked(w);
      for i := 0 to |queue|
        invariant rows == w.rows && marked == w.marked && w.log <= log
        invariant RunsTo(w, actions, During(now, queue[i..], marks))
        invariant forall k :: 0 <= k < i ==> !Raises(rows[queue[k]], answers[k])
        invariant queue[..0] == [] && answers[..0] == [] && marks == MarkedBy(w, queue[..i], answers[..i])
        invariant ByCreation(rows, BusIds(log[|w.log|..]))
        invariant forall id :: id in BusIds(log[|w.log|..]) ==> id in queue[..i]
      {
        ghost var before, logged := During(now, queue[i..], marks), log;
        var raised, mark := VisitRow(queue[i], answers[i]);
        VisitIsStep(before, now, queue, i, marks, answers[i]);
        DeliveryDependsOnRows(before, View(), queue[i], answers[i]);
        DeliveryDependsOnRows(w, View(), queue[i], answers[i]);
        RunsSnoc(w, actions, before, Visit(0, answers[i]));
        actions := actions + [Visit(0, answers[i])];
        BusGrows(View(), queue, i, answers[i], w.log, logged);
        ghost var after := Next(before, Visit(0, answers[i]));
        if raised {
          assert after == View();
          if Friendly(answers) { FailureFreeCycleConverges(w, queue, answers, View(), false); }
          return false, actions;
        }
        MarksGrow(w, queue, answers, i);
        if mark {
          marks := marks + {queue[i]};
        }
        assert after == During(now, queue[i + 1..], marks);
      }
      ghost var last := During(now, queue[|queue|..], marks);
      assert queue[..|queue|] == queue && answers[..|queue|] == answers;
      FinishIsStep(last, now, queue, marks);
      RunsSnoc(w, actions, last, Finish(0));
      actions := actions + [Finish(0)];
      marked := marked + map id | id in marks :: now;
      DeliveryDependsOnRowsOnly(w, View(), queue, answers);
      if Friendly(answers) { FailureFreeCycleConverges(w, queue, answers, View(), true); }
      ok := true;
    }
  }

  lemma DeliveryDependsOnRows(w: World, v: World, id: RowId, answer: Answer)
    requires w.rows == v.rows && w.hasPublisher == v.hasPublisher && id in w.rows
    ensures EntriesFor(w, id, answer) == EntriesFor(v, id, answer)
    ensures Marks(w, id, answer) == Marks(v, id, answer)
  {
  }

  lemma DeliveryDependsOnRowsOnly(w: World, v: World, queue: seq<RowId>, answers: seq<Answer>)
    requires w.rows == v.rows && w.hasPublisher == v.hasPublisher && |queue| == |answers|
    ensures MarkedBy(w, queue, answers) == MarkedBy(v, queue, answers)
  {
  }

  /** Visiting this row ends the cycle. */
  predicate Raises(row: Row, answer: Answer) { Known(row) && (Malformed(row) || answer.handlerRaises) }

  /** What visiting the row leaves outside the database. */
  function EntriesFor(w: World, id: RowId, answer: Answer): seq<Entry>
    requires id in w.rows
  {
    if !Known(w.rows[id]) || Malformed(w.rows[id]) then []
    else if answer.handlerRaises then [Interrupted(id)]
    else if !NeedsKafka(w, id) then [OnBus(id)]
    else [OnBus(id)] + [if answer.confirms then Confirmed(id) else Failed(id)]
  }

  /** The rows a finished cycle marks. */
  function MarkedBy(w: World, queue: seq<RowId>, answers: seq<Answer>): set<RowId>
    requires |queue| == |answers|
  {
    set i | 0 <= i < |queue| && Marks(w, queue[i], answers[i]) :: queue[i]
  }

  lemma NothingMarked(w: World)
    ensures MarkedBy(w, [], []) == {}
  {
  }

  lemma MarksGrow(w: World, queue: seq<RowId>, answers: seq<Answer>, i: nat)
    requires i < |queue| == |answers|
    ensures MarkedBy(w, queue[..i + 1], answers[..i + 1]) ==
            MarkedBy(w, queue[..i], answers[..i]) + if Marks(w, queue[i], answers[i]) then {queue[i]} else {}
  {
    var more, fewer := MarkedBy(w, queue[..i + 1], answers[..i + 1]), MarkedBy(w, queue[..i], answers[..i]);
    forall id | id in fewer ensures id in more {
      var k :| 0 <= k < i && Marks(w, queue[..i][k], answers[..i][k]) && queue[..i][k] == id;
      assert Marks(w, queue[..i + 1][k], answers[..i + 1][k]) && queue[..i + 1][k] == id;
    }
    forall id | id in more && id != queue[i] ensures id in fewer {
      var k :| 0 <= k < i + 1 && Marks(w, queue[..i + 1][k], answers[..i + 1][k]) && queue[..i + 1][k] == id;
      assert Marks(w, queue[..i][k], answers[..i][k]) && queue[..i][k] == id;
    }
    if queue[i] in more && !Marks(w, queue[i], answers[i]) {
      var k :| 0 <= k < i + 1 && Marks(w, queue[..i + 1][k], answers[..i + 1][k]) && queue[..i + 1][k] == queue[i];
      assert Marks(w, queue[..i][k], answers[..i][k]) && queue[..i][k] == queue[i];
    }
    if Marks(w, queue[i], answers[i]) {
      assert Marks(w, queue[..i + 1][i], answers[..i + 1][i]);
    }
  }

  lemma QueryListsRows(w: World, queue: seq<RowId>)
    requires IsPendingQuery(w, queue)
    ensures forall k :: 0 <= k < |queue| ==> queue[k] in w.rows
    ensures ByCreation(w.rows, queue)
  {
    forall k | 0 <= k < |queue| ensures queue[k] in w.rows { assert queue[k] in queue; }
  }

  lemma CycleLoads(w: World, now: int, queue: seq<RowId>) returns (actions: seq<Action>)
    requires IsPendingQuery(w, queue) && w.cycles == map[]
    ensures RunsTo(w, actions, w.(cycles := map[0 := Cycle(now, queue[0..], {})]))
  {
    actions := [] + [Load(0, now, queue)];
    assert RunsTo(w, [], w);
    RunsSnoc(w, [], w, Load(0, now, queue));
  }

  function Noted(marks: set<RowId>, id: RowId, mark: bool): set<RowId> { if mark then marks + {id} else marks }

  lemma VisitIsStep(before: World, now: int, queue: seq<RowId>, i: nat, marks: set<RowId>, answer: Answer)
    requires i < |queue| && queue[i] in before.rows && before.cycles == map[0 := Cycle(now, queue[i..], marks)]
    ensures Enabled(before, Visit(0, answer))
    ensures Next(before, Visit(0, answer)) ==
            before.(log := before.log + EntriesFor(before, queue[i], answer),
                    cycles := if Raises(before.rows[queue[i]], answer) then map[]
                              else map[0 := Cycle(now, queue[i + 1..],
                                                  Noted(marks, queue[i], Marks(before, queue[i], answer)))])
  {
    assert queue[i..][0] == queue[i] && queue[i..][1..] == queue[i + 1..];
  }

  lemma FinishIsStep(last: World, now: int, queue: seq<RowId>, marks: set<RowId>)
    requires last.cycles == map[0 := Cycle(now, queue[|queue|..], marks)]
    ensures Enabled(last, Finish(0))
    ensures Next(last, Finish(0)) == last.(marked := last.marked + (map id | id in marks :: now), cycles := map[])
  {
  }

  lemma NothingOnBus(rows: map<RowId, Row>)
    ensures BusIds([]) == [] && ByCreation(rows, BusIds([]))
  {
  }

  /** With every handler and publish succeeding, a cycle leaves only unknown-type rows pending if and only if no
      pending row is malformed: one malformed row keeps the whole table pending. */
  lemma FailureFreeCycleConverges(w: World, queue: seq<RowId>, answers: seq<Answer>, w': World, ok: bool)
    requires IsPendingQuery(w, queue) && |answers| == |queue| && Friendly(answers)
    requires w'.rows == w.rows && w'.hasPublisher == w.hasPublisher
    requires !ok ==> w'.marked == w.marked
    requires !ok ==> exists i :: 0 <= i < |queue| && queue[i] in w.rows && Raises(w.rows[queue[i]], answers[i])
    requires ok ==> forall i :: 0 <= i < |queue| ==> queue[i] in w.rows && !Raises(w.rows[queue[i]], answers[i])
    requires ok ==> w'.marked.Keys == w.marked.Keys + MarkedBy(w', queue, answers)
    ensures OnlyUnknownPending(w') <==> !AnyMalformed(w.rows, queue)
  {
    QueryListsRows(w, queue);
    if ok {
      forall i | 0 <= i < |queue| && Known(w.rows[queue[i]]) ensures queue[i] in w'.marked.Keys {
        assert Marks(w', queue[i], answers[i]);
      }
      forall id | Pending(w, id) && Known(w.rows[id]) ensures id in w'.marked.Keys {
        assert queue[IndexOf(queue, id)] == id;
      }
    } else {
      var i :| 0 <= i < |queue| && queue[i] in w.rows && Raises(w.rows[queue[i]], answers[i]);
      assert queue[i] in queue && Pending(w', queue[i]);
    }
  }

  /** Visiting a row keeps the cycle's bus publishes in creation order. */
  lemma BusGrows(w: World, queue: seq<RowId>, i: nat, answer: Answer, start: seq<Entry>, before: seq<Entry>)
    requires i < |queue| && start <= before
    requires forall k :: 0 <= k < |queue| ==> queue[k] in w.rows
    requires ByCreation(w.rows, queue)
    requires ByCreation(w.rows, BusIds(before[|start|..]))
    requires forall id :: id in BusIds(before[|start|..]) ==> id in queue[..i]
    ensures var after := before + EntriesFor(w, queue[i], answer);
            && start <= after && ByCreation(w.rows, BusIds(after[|start|..]))
            && forall id :: id in BusIds(after[|start|..]) ==> id in queue[..i + 1]
  {
    hide BusIds;
    var id := queue[i];
    var added := EntriesFor(w, id, answer);
    var after := before + added;
    assert after[|start|..] == before[|start|..] + added;
    BusIdsConcat(before[|start|..], added);
    BusIdsOfOneRow(id);
    NothingOnBus(w.rows);
    assert added == [] || added == [Interrupted(id)] || added == [OnBus(id)]
        || added == [OnBus(id), Confirmed(id)] || added == [OnBus(id), Failed(id)];
    var ids := BusIds(before[|start|..]);
    assert queue[..i + 1] == queue[..i] + [id];
    forall k | 0 <= k < |ids| ensures ids[k] in w.rows && w.rows[ids[k]].createdAt <= w.rows[id].createdAt {
      assert ids[k] in queue[..i];
      var j := IndexOf(queue[..i], ids[k]);
      assert queue[j] == ids[k];
    }
  }
}
