/** The transactional outbox (`backend/app/application/outbox_dispatcher.py`) as a protocol: any number of
    dispatchers work on the same durable rows, step by step, interleaved with inserts, publisher failures and
    crashes. Marks become durable only at commit; what was put on the bus or on Kafka cannot be taken back. */
module Outbox {
  import opened Basics

  type RowId = nat
  type DispatcherId = nat

  datatype EventType =
    | ObservationCreated | ReasoningCompleted | ReasoningStarted | RecommendationUpdated | TrendChanged
    | HealthChanged | RiskChanged | NotificationCreated | InvestigationTransitionRecorded
    | AiFaultInvestigationUpdated | UnknownType(name: string)

  /** `wellFormed`: the payload has the fields its event type needs, and its dates parse. */
  datatype Row = Row(eventType: EventType, wellFormed: bool, createdAt: int)

  /** Which domain events map to an integration event (`integration_event_mapping.py`). */
  predicate HasKafkaLeg(t: EventType) {
    match t
    case ReasoningCompleted => true
    case HealthChanged | RiskChanged | TrendChanged | RecommendationUpdated => true
    case NotificationCreated => true
    case InvestigationTransitionRecorded => true
    case _ => false
  }

  /** Effects outside the database. `Interrupted`: a handler raised, after any handlers before it had run. */
  datatype Entry = OnBus(id: RowId) | Confirmed(id: RowId) | Failed(id: RowId) | Interrupted(id: RowId)

  /** A dispatch cycle in progress: its clock reading, the rows it has still to visit, the rows it will mark. */
  datatype Cycle = Cycle(now: int, queue: seq<RowId>, marks: set<RowId>)

  datatype World = World(
    hasPublisher: bool,
    rows: map<RowId, Row>, marked: map<RowId, int>, log: seq<Entry>,
    cycles: map<DispatcherId, Cycle>)

  /** How the outside answers for one row: a handler may raise; the publisher confirms or does not. */
  datatype Answer = Answer(handlerRaises: bool, confirms: bool)

  datatype Action =
    | Insert(id: RowId, row: Row)
    | Load(d: DispatcherId, now: int, queue: seq<RowId>)
    | Visit(d: DispatcherId, answer: Answer)
    | Finish(d: DispatcherId)
    | Kill(d: DispatcherId)

  predicate Known(row: Row) { !row.eventType.UnknownType? }

  /** Deserializing this row raises. */
  predicate Malformed(row: Row) { Known(row) && !row.wellFormed }

  predicate Pending(w: World, id: RowId) { id in w.rows && id !in w.marked }

  predicate NeedsKafka(w: World, id: RowId) { id in w.rows && w.hasPublisher && HasKafkaLeg(w.rows[id].eventType) }

  /** What `select … where dispatched_at is null order by created_at` may return. */
  ghost predicate IsPendingQuery(w: World, queue: seq<RowId>) {
    && Distinct(queue)
    && (forall id :: id in queue <==> Pending(w, id))
    && (forall i, j :: 0 <= i < j < |queue| && queue[i] in w.rows && queue[j] in w.rows ==>
          w.rows[queue[i]].createdAt <= w.rows[queue[j]].createdAt)
  }

  /** The step can be taken now. */
  ghost predicate Enabled(w: World, a: Action) {
    match a
    case Insert(id, _) => id !in w.rows
    case Load(d, _, queue) => d !in w.cycles && IsPendingQuery(w, queue)
    case Visit(d, _) => d in w.cycles && w.cycles[d].queue != [] && w.cycles[d].queue[0] in w.rows
    case Finish(d) => d in w.cycles && w.cycles[d].queue == []
    case Kill(d) => d in w.cycles
  }

  function Crashed(w: World, d: DispatcherId): World { w.(cycles := w.cycles - {d}) }

  /** One row of the loop: unknown types are skipped; a malformed payload or a raising handler ends the cycle
      without a commit; otherwise the row goes on the bus and then, if it has one, on its Kafka leg. */
  function Visited(w: World, d: DispatcherId, answer: Answer): World
    requires d in w.cycles && w.cycles[d].queue != [] && w.cycles[d].queue[0] in w.rows
  {
    var c := w.cycles[d];
    var id := c.queue[0];
    var row := w.rows[id];
    var rest := c.(queue := c.queue[1..]);
    if !Known(row) then w.(cycles := w.cycles[d := rest])
    else if Malformed(row) then Crashed(w, d)
    else if answer.handlerRaises then Crashed(w.(log := w.log + [Interrupted(id)]), d)
    else if !NeedsKafka(w, id) then
      w.(log := w.log + [OnBus(id)], cycles := w.cycles[d := rest.(marks := rest.marks + {id})])
    else if answer.confirms then
      w.(log := w.log + [OnBus(id), Confirmed(id)], cycles := w.cycles[d := rest.(marks := rest.marks + {id})])
    else
      w.(log := w.log + [OnBus(id), Failed(id)], cycles := w.cycles[d := rest])
  }

  function Next(w: World, a: Action): World
    requires Enabled(w, a)
  {
    match a
    case Insert(id, row) => w.(rows := w.rows[id := row])
    case Load(d, now, queue) => w.(cycles := w.cycles[d := Cycle(now, queue, {})])
    case Visit(d, answer) => Visited(w, d, answer)
    case Finish(d) =>
      var c := w.cycles[d];
      w.(marked := w.marked + (map id | id in c.marks :: c.now), cycles := w.cycles - {d})
    case Kill(d) => Crashed(w, d)
  }

  ghost predicate RunsTo(w: World, actions: seq<Action>, w': World)
    decreases |actions|
  {
    if actions == [] then w' == w
    else Enabled(w, actions[0]) && RunsTo(Next(w, actions[0]), actions[1..], w')
  }

  function Start(hasPublisher: bool): World { World(hasPublisher, map[], map[], [], map[]) }

  // --- at least once ---------------------------------------------------------------------

  /** Row `id` has been delivered: it was put on the bus and, if it needs Kafka, confirmed there. */
  predicate Delivered(w: World, id: RowId) {
    && id in w.rows && OnBus(id) in w.log
    && (NeedsKafka(w, id) ==> Confirmed(id) in w.log)
  }

  /** Every durable mark, and every mark about to be committed, belongs to a delivered row; queues hold rows. */
  ghost predicate AtLeastOnce(w: World) {
    && (forall id :: id in w.marked ==> Delivered(w, id))
    && (forall d, id :: d in w.cycles && id in w.cycles[d].marks ==> Delivered(w, id))
    && (forall d, id :: d in w.cycles && id in w.cycles[d].queue ==> id in w.rows)
  }

  /** Nothing durable is lost: rows keep their contents, marks are not undone, effects stay in the log. */
  ghost predicate Grows(w: World, w': World) {
    && w'.hasPublisher == w.hasPublisher
    && (forall id :: id in w.rows ==> id in w'.rows && w'.rows[id] == w.rows[id])
    && w.marked.Keys <= w'.marked.Keys
    && w.log <= w'.log
  }

  lemma DeliveredStays(w: World, w': World, id: RowId)
    requires Grows(w, w') && Delivered(w, id)
    ensures Delivered(w', id)
  {
    assert w.log == w'.log[..|w.log|];
  }

  lemma NextGrows(w: World, a: Action)
    requires Enabled(w, a)
    ensures Grows(w, Next(w, a))
  {
  }

  lemma VisitKeepsAtLeastOnce(w: World, d: DispatcherId, answer: Answer)
    requires AtLeastOnce(w) && Enabled(w, Visit(d, answer))
    ensures AtLeastOnce(Next(w, Visit(d, answer)))
  {
    var w' := Next(w, Visit(d, answer));
    NextGrows(w, Visit(d, answer));
    forall id | Delivered(w, id) ensures Delivered(w', id) { DeliveredStays(w, w', id); }
    var id := w.cycles[d].queue[0];
    if d in w'.cycles && id in w'.cycles[d].marks && id !in w.cycles[d].marks {
      assert w'.log[|w.log|] == OnBus(id);
      assert NeedsKafka(w, id) ==> w'.log[|w.log| + 1] == Confirmed(id);
      assert Delivered(w', id);
    }
  }

  lemma NextKeepsAtLeastOnce(w: World, a: Action)
    requires AtLeastOnce(w) && Enabled(w, a)
    ensures AtLeastOnce(Next(w, a))
  {
    if a.Visit? {
      VisitKeepsAtLeastOnce(w, a.d, a.answer);
    } else {
      NextGrows(w, a);
      var w' := Next(w, a);
      forall id | Delivered(w, id) ensures Delivered(w', id) { DeliveredStays(w, w', id); }
    }
  }

  /** Over every run of any number of dispatchers with inserts, publisher failures and crashes: a row marked
      dispatched was put on the bus and, if it has a Kafka leg and a publisher exists, was confirmed; no row is
      lost or changed, no mark is undone, and no effect is forgotten. */
  lemma {:induction false} DispatchedMeansDelivered(w: World, actions: seq<Action>, w': World)
    requires AtLeastOnce(w) && RunsTo(w, actions, w')
    ensures AtLeastOnce(w') && Grows(w, w')
    ensures forall id :: id in w'.marked ==> Delivered(w', id)
    decreases |actions|
  {
    if actions != [] {
      hide Next; hide Enabled; hide Delivered;
      NextKeepsAtLeastOnce(w, actions[0]);
      NextGrows(w, actions[0]);
      DispatchedMeansDelivered(Next(w, actions[0]), actions[1..], w');
    }
  }

  /** In particular over every run from the empty table. */
  lemma EveryMarkIsDelivered(hasPublisher: bool, actions: seq<Action>, w: World)
    requires RunsTo(Start(hasPublisher), actions, w)
    ensures forall id :: id in w.marked ==>
              && Delivered(w, id)
              && (hasPublisher && !StaysLocal(w.rows[id].eventType) ==> Confirmed(id) in w.log)
  {
    hide RunsTo;
    DispatchedMeansDelivered(Start(hasPublisher), actions, w);
  }

  /** Events for the process's own subscribers only; every other known event also goes to Kafka. */
  predicate StaysLocal(t: EventType) {
    t in {ObservationCreated, ReasoningStarted, AiFaultInvestigationUpdated} || t.UnknownType?
  }

  // --- exactly once, with one dispatcher that never crashes --------------------------------------

  function Count(log: seq<Entry>, e: Entry): nat {
    if log == [] then 0 else Count(log[..|log| - 1], e) + if log[|log| - 1] == e then 1 else 0
  }

  lemma {:induction false} CountConcat(x: seq<Entry>, y: seq<Entry>, e: Entry)
    ensures Count(x + y, e) == Count(x, e) + Count(y, e)
  {
    if y == [] {
      assert x + y == x;
    } else {
      assert (x + y)[..|x + y| - 1] == x + y[..|y| - 1];
      CountConcat(x, y[..|y| - 1], e);
    }
  }

  lemma CountFew(e: Entry, f: Entry, g: Entry)
    ensures Count([], g) == 0
    ensures Count([e], g) == if e == g then 1 else 0
    ensures Count([e, f], g) == (if e == g then 1 else 0) + (if f == g then 1 else 0)
  {
    assert [e, f][..1] == [e] && [e][..0] == [];
  }

  /** The row is, or is about to be, marked. */
  predicate Settled(w: World, id: RowId) {
    id in w.marked || (0 in w.cycles && id in w.cycles[0].marks)
  }

  /** The tally of one row: on the bus once for each failed Kafka attempt and once more when it is settled;
      confirmed exactly once when it is settled and needs Kafka, and never before. */
  ghost predicate Tally(w: World, id: RowId) {
    && Count(w.log, OnBus(id)) == Count(w.log, Failed(id)) + (if Settled(w, id) then 1 else 0)
    && Count(w.log, Confirmed(id)) == (if Settled(w, id) && NeedsKafka(w, id) then 1 else 0)
    && (!NeedsKafka(w, id) ==> Count(w.log, Failed(id)) == 0)
    && (Settled(w, id) ==> id in w.rows)
  }

  /** Only dispatcher 0 is at work; what it still has to visit is in the table and not settled. */
  ghost predicate Alone(w: World) {
    && (forall d :: d in w.cycles ==> d == 0)
    && (0 in w.cycles ==>
          && Distinct(w.cycles[0].queue)
          && forall id :: id in w.cycles[0].queue ==> id in w.rows && !Settled(w, id))
  }

  ghost predicate ExactlyOnce(w: World) { Alone(w) && forall id: RowId :: Tally(w, id) }

  /** The steps of a single dispatcher that does not crash. */
  ghost predicate Smooth(w: World, a: Action) {
    && Enabled(w, a)
    && (match a
        case Insert(_, _) => true
        case Load(d, _, _) => d == 0
        case Visit(d, answer) => d == 0 && !answer.handlerRaises && !Malformed(w.rows[w.cycles[d].queue[0]])
        case Finish(d) => d == 0
        case Kill(_) => false)
  }

  lemma VisitKeepsTally(w: World, answer: Answer, id: RowId)
    requires ExactlyOnce(w) && Smooth(w, Visit(0, answer))
    ensures Tally(Next(w, Visit(0, answer)), id)
  {
    hide Count; hide Distinct;
    var w' := Next(w, Visit(0, answer));
    var head := w.cycles[0].queue[0];
    assert Tally(w, id) && !Settled(w, head);
    var added := w'.log[|w.log|..];
    assert w'.log == w.log + added;
    CountConcat(w.log, added, OnBus(id));
    CountConcat(w.log, added, Confirmed(id));
    CountConcat(w.log, added, Failed(id));
    CountFew(OnBus(head), Confirmed(head), OnBus(id));
    CountFew(OnBus(head), Confirmed(head), Confirmed(id));
    CountFew(OnBus(head), Confirmed(head), Failed(id));
    CountFew(OnBus(head), Failed(head), OnBus(id));
    CountFew(OnBus(head), Failed(head), Confirmed(id));
    CountFew(OnBus(head), Failed(head), Failed(id));
  }

  lemma QuietKeepsTally(w: World, a: Action, id: RowId)
    requires ExactlyOnce(w) && Smooth(w, a) && !a.Visit?
    ensures Tally(Next(w, a), id)
  {
    assert Tally(w, id);
    if a.Insert? {
      // A row is inserted under an id that was not in use, so its tally is still all zero.
      assert Tally(w, a.id) && !Settled(w, a.id);
    }
  }

  lemma SmoothKeepsAlone(w: World, a: Action)
    requires ExactlyOnce(w) && Smooth(w, a)
    ensures Alone(Next(w, a))
  {
    if a.Visit? {
      Dequeued(w.cycles[0].queue);
    }
  }

  /** One dispatcher and no crash: over every run, each marked row that needs Kafka has exactly one confirmed
      publish, and its bus publishes are one more than its failed attempts. */
  lemma {:induction false} MarkedExactlyOnce(w: World, actions: seq<Action>, w': World)
    requires ExactlyOnce(w) && SmoothRun(w, actions, w')
    ensures ExactlyOnce(w')
    ensures forall id :: id in w'.marked ==>
              && Count(w'.log, OnBus(id)) == Count(w'.log, Failed(id)) + 1
              && Count(w'.log, Confirmed(id)) == (if NeedsKafka(w', id) then 1 else 0)
    decreases |actions|
  {
    hide Next; hide Smooth; hide Count;
    if actions != [] {
      var a := actions[0];
      assert Enabled(w, a) by { SmoothIsEnabled(w, a); }
      var next := Next(w, a);
      SmoothKeepsAlone(w, a);
      forall id: RowId ensures Tally(next, id) {
        if a.Visit? {
          SmoothVisitIsOwn(w, a);
          VisitKeepsTally(w, a.answer, id);
        } else {
          QuietKeepsTally(w, a, id);
        }
      }
      MarkedExactlyOnce(next, actions[1..], w');
    } else {
      forall id | id in w'.marked ensures Count(w'.log, OnBus(id)) == Count(w'.log, Failed(id)) + 1
                                       && Count(w'.log, Confirmed(id)) == (if NeedsKafka(w', id) then 1 else 0) {
        assert Tally(w', id);
      }
    }
  }

  /** In particular over every smooth run from the empty table. */
  lemma EveryMarkIsExact(hasPublisher: bool, actions: seq<Action>, w: World)
    requires SmoothRun(Start(hasPublisher), actions, w)
    ensures forall id :: id in w.marked ==>
              && Count(w.log, OnBus(id)) == Count(w.log, Failed(id)) + 1
              && id in w.rows
              && Count(w.log, Confirmed(id)) == (if hasPublisher && !StaysLocal(w.rows[id].eventType) then 1 else 0)
  {
    StartIsExact(hasPublisher);
    hide SmoothRun; hide Count;
    MarkedExactlyOnce(Start(hasPublisher), actions, w);
    SmoothKeepsPublisher(Start(hasPublisher), actions, w);
    forall id | id in w.marked ensures id in w.rows { assert Tally(w, id); }
  }

  lemma {:induction false} SmoothKeepsPublisher(w: World, actions: seq<Action>, w': World)
    requires SmoothRun(w, actions, w')
    ensures w'.hasPublisher == w.hasPublisher
    decreases |actions|
  {
    if actions != [] {
      hide Next; hide Enabled;
      SmoothIsEnabled(w, actions[0]);
      NextGrows(w, actions[0]);
      SmoothKeepsPublisher(Next(w, actions[0]), actions[1..], w');
    }
  }

  lemma StartIsExact(hasPublisher: bool)
    ensures ExactlyOnce(Start(hasPublisher))
  {
  }

  lemma SmoothIsEnabled(w: World, a: Action)
    requires Smooth(w, a)
    ensures Enabled(w, a)
  {
  }

  lemma SmoothVisitIsOwn(w: World, a: Action)
    requires Smooth(w, a) && a.Visit?
    ensures a == Visit(0, a.answer)
  {
  }

  ghost predicate SmoothRun(w: World, actions: seq<Action>, w': World)
    decreases |actions|
  {
    if actions == [] then w' == w
    else Smooth(w, actions[0]) && SmoothRun(Next(w, actions[0]), actions[1..], w')
  }

  // --- a malformed row stops the outbox --------------------------------------------------------------

  /** Row `bad` cannot be deserialized, is not marked, and every cycle in progress has still to visit it. */
  ghost predicate Poisoned(w: World, bad: RowId) {
    && Pending(w, bad) && Malformed(w.rows[bad])
    && forall d :: d in w.cycles ==> bad in w.cycles[d].queue
  }

  lemma PoisonSpreads(w: World, a: Action, bad: RowId)
    requires Poisoned(w, bad) && Enabled(w, a)
    ensures Poisoned(Next(w, a), bad) && Next(w, a).marked == w.marked
  {
    if a.Visit? {
      var c := w.cycles[a.d];
      assert c.queue == [c.queue[0]] + c.queue[1..];
    }
  }

  /** From then on, whatever is inserted, published, answered or restarted, by any number of dispatchers, no row is
      ever marked dispatched again. */
  lemma {:induction false} PoisonStopsDispatch(w: World, actions: seq<Action>, w': World, bad: RowId)
    requires Poisoned(w, bad) && RunsTo(w, actions, w')
    ensures w'.marked == w.marked
    decreases |actions|
  {
    if actions != [] {
      hide Next; hide Enabled; hide Poisoned;
      PoisonSpreads(w, actions[0], bad);
      PoisonStopsDispatch(Next(w, actions[0]), actions[1..], w', bad);
    }
  }

  // --- what a mark says -----------------------------------------------------------------------------------

  /** Some cycle of the run was started at `time` and had `id` to visit. */
  ghost predicate Started(actions: seq<Action>, time: int, id: RowId) {
    exists k :: 0 <= k < |actions| && actions[k].Load? && actions[k].now == time && id in actions[k].queue
  }

  ghost predicate MarksAreTimed(w: World, actions: seq<Action>) {
    && (forall id :: id in w.marked ==> Started(actions, w.marked[id], id))
    && (forall d, id :: d in w.cycles && id in w.cycles[d].marks ==> Started(actions, w.cycles[d].now, id))
    && (forall d, id :: d in w.cycles && id in w.cycles[d].queue ==> Started(actions, w.cycles[d].now, id))
  }

  lemma StartedStays(actions: seq<Action>, a: Action, time: int, id: RowId)
    requires Started(actions, time, id)
    ensures Started(actions + [a], time, id)
  {
    var k :| 0 <= k < |actions| && actions[k].Load? && actions[k].now == time && id in actions[k].queue;
    assert (actions + [a])[k] == actions[k];
  }

  lemma NextKeepsTimes(w: World, actions: seq<Action>, a: Action)
    requires MarksAreTimed(w, actions) && Enabled(w, a)
    ensures MarksAreTimed(Next(w, a), actions + [a])
  {
    forall time, id | Started(actions, time, id) ensures Started(actions + [a], time, id) {
      StartedStays(actions, a, time, id);
    }
    if a.Load? {
      assert (actions + [a])[|actions|] == a;
      forall id | id in a.queue ensures Started(actions + [a], a.now, id) {}
    }
    hide Started;
  }

  /** Over every run of any number of dispatchers: a mark is the clock reading of a cycle that had that row to visit. */
  lemma {:induction false} MarksTellTheirCycle(w: World, before: seq<Action>, actions: seq<Action>, w': World)
    requires MarksAreTimed(w, before) && RunsTo(w, actions, w')
    ensures MarksAreTimed(w', before + actions)
    decreases |actions|
  {
    if actions == [] {
      assert before + actions == before;
    } else {
      hide Next; hide Enabled; hide MarksAreTimed;
      NextKeepsTimes(w, before, actions[0]);
      MarksTellTheirCycle(Next(w, actions[0]), before + [actions[0]], actions[1..], w');
      assert before + [actions[0]] + actions[1..] == before + actions;
    }
  }

  /** In particular over every run from the empty table. */
  lemma EveryMarkTellsItsCycle(hasPublisher: bool, actions: seq<Action>, w: World)
    requires RunsTo(Start(hasPublisher), actions, w)
    ensures forall id :: id in w.marked ==> Started(actions, w.marked[id], id)
  {
    hide RunsTo; hide Started;
    MarksTellTheirCycle(Start(hasPublisher), [], actions, w);
    assert [] + actions == actions;
  }
}
