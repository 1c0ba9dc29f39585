/** The hysteresis alert machine (`backend/simulator/dataset/alert_policy/state_machine.py`) and the
    history-based policy its constant-size counters stand for. */
module AlertPolicy {
  import opened Basics

  type FaultClass = string

  const HEALTHY: FaultClass := "healthy"

  datatype Config = Config(
    entryProbability: real, entryPersistence: int, healthyExitProbability: real, exitPersistence: int)

  /** One feature row as the machine sees it: untrusted, or a diagnosis with its scores. */
  datatype Row = Untrusted | Scored(diagnosis: FaultClass, score: real, healthyScore: real)

  datatype AlertState = Healthy | Confirmed(c: FaultClass)

  datatype AlertEvent =
    | NewAlert(elapsed: real, to: FaultClass)
    | ClassChange(elapsed: real, from: FaultClass, to: FaultClass)
    | Cleared(elapsed: real, from: FaultClass)
  {
    function FromState(): AlertState {
      match this
      case NewAlert(_, _) => Healthy
      case ClassChange(_, c, _) => Confirmed(c)
      case Cleared(_, c) => Confirmed(c)
    }

    function ToState(): AlertState {
      match this
      case NewAlert(_, c) => Confirmed(c)
      case ClassChange(_, _, c) => Confirmed(c)
      case Cleared(_, _) => Healthy
    }
  }

  datatype Machine = Machine(
    state: AlertState,
    pendingClass: Option<FaultClass>, pendingStreak: int,
    exitStreak: int,
    switchClass: Option<FaultClass>, switchStreak: int)

  const START := Machine(Healthy, None, 0, 0, None, 0)

  /** The diagnosis is a fault, scored high enough to count towards confirmation. */
  predicate Qualifies(cfg: Config, row: Row) {
    row.Scored? && row.diagnosis != HEALTHY && row.score >= cfg.entryProbability
  }

  /** `step_state_machine`. */
  function Step(cfg: Config, m: Machine, elapsed: real, row: Row): (Machine, Option<AlertEvent>) {
    if row.Untrusted? then
      if m.state == Healthy then (m.(pendingClass := None, pendingStreak := 0), None) else (m, None)
    else match m.state
      case Healthy =>
        var pendingClass := if Qualifies(cfg, row) then Some(row.diagnosis) else None;
        var pendingStreak :=
          if !Qualifies(cfg, row) then 0 else if m.pendingClass == pendingClass then m.pendingStreak + 1 else 1;
        if pendingClass.Some? && pendingStreak >= cfg.entryPersistence then
          (START.(state := Confirmed(pendingClass.value)), Some(NewAlert(elapsed, pendingClass.value)))
        else
          (m.(pendingClass := pendingClass, pendingStreak := pendingStreak), None)
      case Confirmed(c) =>
        var exitStreak := if row.healthyScore >= cfg.healthyExitProbability then m.exitStreak + 1 else 0;
        var switching := row.diagnosis != c && Qualifies(cfg, row);
        var switchClass := if switching then Some(row.diagnosis) else None;
        var switchStreak :=
          if !switching then 0 else if m.switchClass == switchClass then m.switchStreak + 1 else 1;
        if exitStreak >= cfg.exitPersistence then
          (START, Some(Cleared(elapsed, c)))
        else if switchClass.Some? && switchStreak >= cfg.entryPersistence then
          (START.(state := Confirmed(switchClass.value)), Some(ClassChange(elapsed, c, switchClass.value)))
        else
          (m.(exitStreak := exitStreak, switchClass := switchClass, switchStreak := switchStreak), None)
  }

  // --- the policy over full history ----------------------------------------------------

  /** How many rows at the end of `rows` all qualify as class `c`. */
  function QualifyingRun(cfg: Config, rows: seq<Row>, c: FaultClass): nat {
    if rows == [] then 0
    else
      var n := |rows| - 1;
      if Qualifies(cfg, rows[n]) && rows[n].diagnosis == c then 1 + QualifyingRun(cfg, rows[..n], c) else 0
  }

  /** How many rows at the end of `rows` all give healthy evidence. */
  function HealthyRun(cfg: Config, rows: seq<Row>): nat {
    if rows == [] then 0
    else
      var n := |rows| - 1;
      if rows[n].Scored? && rows[n].healthyScore >= cfg.healthyExitProbability
      then 1 + HealthyRun(cfg, rows[..n]) else 0
  }

  function Trusted(rows: seq<Row>): seq<Row> {
    if rows == [] then []
    else
      var n := |rows| - 1;
      Trusted(rows[..n]) + if rows[n].Scored? then [rows[n]] else []
  }

  /** The confirmed class, if any, and every row seen since the last event. */
  datatype History = History(confirmed: AlertState, rows: seq<Row>)

  /** The alert policy read off the history: while healthy, untrusted rows interrupt a candidate;
      while confirmed, they are as if absent; exit is looked at before a change of class. */
  function Decide(cfg: Config, h: History, elapsed: real, row: Row): Option<AlertEvent> {
    var rows := h.rows + [row];
    if row.Untrusted? then None
    else match h.confirmed
      case Healthy =>
        if Qualifies(cfg, row) && QualifyingRun(cfg, rows, row.diagnosis) >= cfg.entryPersistence
        then Some(NewAlert(elapsed, row.diagnosis)) else None
      case Confirmed(c) =>
        if HealthyRun(cfg, Trusted(rows)) >= cfg.exitPersistence then Some(Cleared(elapsed, c))
        else if row.diagnosis != c && Qualifies(cfg, row) &&
            QualifyingRun(cfg, Trusted(rows), row.diagnosis) >= cfg.entryPersistence
        then Some(ClassChange(elapsed, c, row.diagnosis)) else None
  }

  function Record(h: History, row: Row, event: Option<AlertEvent>): History {
    if event.Some? then History(event.value.ToState(), []) else h.(rows := h.rows + [row])
  }

  /** The candidate class at the end of `rows`, other than `except`, with the length of its run. */
  function Candidate(cfg: Config, rows: seq<Row>, except: AlertState): (Option<FaultClass>, int) {
    if rows == [] then (None, 0)
    else
      var last := rows[|rows| - 1];
      if Qualifies(cfg, last) && except != Confirmed(last.diagnosis)
      then (Some(last.diagnosis), QualifyingRun(cfg, rows, last.diagnosis)) else (None, 0)
  }

  /** The constant-size summary of a history. */
  function Summary(cfg: Config, h: History): Machine {
    match h.confirmed
    case Healthy =>
      var (c, n) := Candidate(cfg, h.rows, Healthy);
      Machine(Healthy, c, n, 0, None, 0)
    case Confirmed(_) =>
      var rows := Trusted(h.rows);
      var (c, n) := Candidate(cfg, rows, h.confirmed);
      Machine(h.confirmed, None, 0, HealthyRun(cfg, rows), c, n)
  }

  /** What one more row does to the runs at the end of a list. */
  lemma RunsGrow(cfg: Config, rows: seq<Row>, row: Row)
    ensures row.Scored? ==>
              QualifyingRun(cfg, rows + [row], row.diagnosis) ==
                if Qualifies(cfg, row) then 1 + QualifyingRun(cfg, rows, row.diagnosis) else 0
    ensures row.Scored? ==>
              HealthyRun(cfg, rows + [row]) ==
                if row.healthyScore >= cfg.healthyExitProbability then 1 + HealthyRun(cfg, rows) else 0
    ensures Trusted(rows + [row]) == Trusted(rows) + if row.Scored? then [row] else []
    ensures forall except :: Candidate(cfg, rows + [row], except) ==
              if Qualifies(cfg, row) && except != Confirmed(row.diagnosis)
              then (Some(row.diagnosis), QualifyingRun(cfg, rows + [row], row.diagnosis)) else (None, 0)
  {
    var all := rows + [row];
    assert all[..|all| - 1] == rows;
  }

  /** One step of the counters is one decision of the policy. */
  lemma StepDecides(cfg: Config, h: History, elapsed: real, row: Row)
    ensures Step(cfg, Summary(cfg, h), elapsed, row).1 == Decide(cfg, h, elapsed, row)
    ensures Step(cfg, Summary(cfg, h), elapsed, row).0 == Summary(cfg, Record(h, row, Decide(cfg, h, elapsed, row)))
  {
    hide QualifyingRun; hide HealthyRun;
    NothingSummarized(cfg);
    if h.confirmed == Healthy {
      hide Trusted;
      RunsGrow(cfg, h.rows, row);
      if row.Scored? { RunStartsAtCandidate(cfg, h.rows, row.diagnosis); }
      hide Candidate;
    } else {
      var trusted := Trusted(h.rows);
      RunsGrow(cfg, h.rows, row);
      hide Trusted;
      if row.Scored? {
        RunsGrow(cfg, trusted, row);
        RunStartsAtCandidate(cfg, trusted, row.diagnosis);
        ExceptOnlyItself(cfg, trusted, h.confirmed);
        hide Candidate;
      } else {
        assert Trusted(h.rows + [row]) == trusted;
      }
    }
  }

  lemma NothingSummarized(cfg: Config)
    ensures Summary(cfg, History(Healthy, [])) == START
    ensures forall c :: Summary(cfg, History(Confirmed(c), [])) == START.(state := Confirmed(c))
  {
    assert Trusted([]) == [];
  }

  /** Excluding the confirmed class changes the candidate only if it is that class. */
  lemma ExceptOnlyItself(cfg: Config, rows: seq<Row>, except: AlertState)
    ensures var (c, n) := Candidate(cfg, rows, Healthy);
            Candidate(cfg, rows, except) == if c.Some? && except == Confirmed(c.value) then (None, 0) else (c, n)
  {
  }

  /** A class that is not the one at the end of `rows` has no run there. */
  lemma RunStartsAtCandidate(cfg: Config, rows: seq<Row>, c: FaultClass)
    ensures Candidate(cfg, rows, Healthy).0 != Some(c) ==> QualifyingRun(cfg, rows, c) == 0
    ensures Candidate(cfg, rows, Healthy).0 == Some(c) ==>
            QualifyingRun(cfg, rows, c) == Candidate(cfg, rows, Healthy).1
  {
  }

  // --- whole runs -----------------------------------------------------------------------

  datatype TimedRow = TimedRow(elapsed: real, row: Row)

  /** `run_state_machine`: the machine and its events after all of `rows`. */
  function Run(cfg: Config, rows: seq<TimedRow>): (Machine, seq<AlertEvent>) {
    if rows == [] then (START, [])
    else
      var n := |rows| - 1;
      var (m, events) := Run(cfg, rows[..n]);
      var (m', event) := Step(cfg, m, rows[n].elapsed, rows[n].row);
      (m', events + if event.Some? then [event.value] else [])
  }

  function PolicyRun(cfg: Config, rows: seq<TimedRow>): (History, seq<AlertEvent>) {
    if rows == [] then (History(Healthy, []), [])
    else
      var n := |rows| - 1;
      var (h, events) := PolicyRun(cfg, rows[..n]);
      var event := Decide(cfg, h, rows[n].elapsed, rows[n].row);
      (Record(h, rows[n].row, event), events + if event.Some? then [event.value] else [])
  }

  /** For every row sequence the constant-size machine emits exactly the events of the full-history policy. */
  lemma {:induction false} MachineRefinesPolicy(cfg: Config, rows: seq<TimedRow>)
    ensures Run(cfg, rows).1 == PolicyRun(cfg, rows).1
    ensures Run(cfg, rows).0 == Summary(cfg, PolicyRun(cfg, rows).0)
  {
    hide Step; hide Decide; hide Record;
    if rows != [] {
      var n := |rows| - 1;
      MachineRefinesPolicy(cfg, rows[..n]);
      StepDecides(cfg, PolicyRun(cfg, rows[..n]).0, rows[n].elapsed, rows[n].row);
    }
  }

  /** The events of every run form one path of states from healthy to the current state. */
  lemma {:induction false} EventsFormPath(cfg: Config, rows: seq<TimedRow>)
    ensures var (m, events) := Run(cfg, rows);
            && (events == [] ==> m.state == Healthy)
            && (events != [] ==> events[0].FromState() == Healthy && events[|events| - 1].ToState() == m.state)
    ensures Linked(Run(cfg, rows).1)
  {
    if rows != [] {
      var n := |rows| - 1;
      EventsFormPath(cfg, rows[..n]);
      var (m, events) := Run(cfg, rows[..n]);
      var (m', event) := Step(cfg, m, rows[n].elapsed, rows[n].row);
      if event.Some? {
        assert event.value.FromState() == m.state && event.value.ToState() == m'.state;
        assert Run(cfg, rows).1 == events + [event.value];
      } else {
        assert Run(cfg, rows).1 == events;
      }
    }
  }

  predicate Linked(events: seq<AlertEvent>) {
    forall i :: 0 < i < |events| ==> events[i].FromState() == events[i - 1].ToState()
  }

  /** A run of length `k` means the last `k` rows all qualify as the class. */
  lemma {:induction false} RunIsSuffix(cfg: Config, rows: seq<Row>, c: FaultClass, k: nat)
    requires k <= QualifyingRun(cfg, rows, c)
    ensures k <= |rows|
    ensures forall i :: |rows| - k <= i < |rows| ==> Qualifies(cfg, rows[i]) && rows[i].diagnosis == c
  {
    if k > 0 {
      RunIsSuffix(cfg, rows[..|rows| - 1], c, k - 1);
    }
  }

  /** No alert without persistence: when an event enters class `c`, the last `entryPersistence` rows since the
      previous event (trusted ones, if an alert was already confirmed) all qualified as `c`. */
  lemma AlertsNeedPersistence(cfg: Config, h: History, elapsed: real, row: Row, c: FaultClass)
    requires Decide(cfg, h, elapsed, row).Some? && Decide(cfg, h, elapsed, row).value.ToState() == Confirmed(c)
    ensures var rows := if h.confirmed == Healthy then h.rows + [row] else Trusted(h.rows + [row]);
            && cfg.entryPersistence <= |rows|
            && forall i :: 0 <= i < |rows| && |rows| - cfg.entryPersistence <= i ==>
                 Qualifies(cfg, rows[i]) && rows[i].diagnosis == c
  {
    var rows := if h.confirmed == Healthy then h.rows + [row] else Trusted(h.rows + [row]);
    RunIsSuffix(cfg, rows, c, QualifyingRun(cfg, rows, c));
  }

  // --- the policy in terms of what was scored ---------------------------------------------------------

  /** The last `k` rows were all scored, diagnosed `c`, and scored it at least at the entry probability. */
  predicate LastDiagnosed(cfg: Config, rows: seq<Row>, c: FaultClass, k: int) {
    k <= |rows| && forall i :: 0 <= i < |rows| && |rows| - k <= i ==>
      rows[i].Scored? && rows[i].diagnosis == c && rows[i].score >= cfg.entryProbability
  }

  /** The last `k` rows were all scored, and scored `healthy` at least at the exit probability. */
  predicate LastHealthy(cfg: Config, rows: seq<Row>, k: int) {
    k <= |rows| && forall i :: 0 <= i < |rows| && |rows| - k <= i ==>
      rows[i].Scored? && rows[i].healthyScore >= cfg.healthyExitProbability
  }

  lemma {:induction false} QualifyingRunExactly(cfg: Config, rows: seq<Row>, c: FaultClass, k: int)
    ensures k <= QualifyingRun(cfg, rows, c) <==> k <= 0 || (c != "healthy" && LastDiagnosed(cfg, rows, c, k))
  {
    if k > 0 && rows != [] {
      var n := |rows| - 1;
      QualifyingRunExactly(cfg, rows[..n], c, k - 1);
      assert LastDiagnosed(cfg, rows, c, k) <==>
        LastDiagnosed(cfg, rows[..n], c, k - 1) && LastDiagnosed(cfg, rows[n..], c, 1);
    }
  }

  lemma {:induction false} HealthyRunExactly(cfg: Config, rows: seq<Row>, k: int)
    ensures k <= HealthyRun(cfg, rows) <==> LastHealthy(cfg, rows, k)
  {
    if k > 0 && rows != [] {
      var n := |rows| - 1;
      HealthyRunExactly(cfg, rows[..n], k - 1);
      assert LastHealthy(cfg, rows, k) <==> LastHealthy(cfg, rows[..n], k - 1) && LastHealthy(cfg, rows[n..], 1);
    }
  }

  function AtLeastOne(k: int): int { if k < 1 then 1 else k }

  /** The rows an alert can be decided on: all since the last event, or the trusted ones once an alert is confirmed. */
  function Evidence(h: History, row: Row): seq<Row> {
    if h.confirmed == Healthy then h.rows + [row] else Trusted(h.rows + [row])
  }

  lemma LastOfEvidence(h: History, row: Row)
    ensures row.Scored? ==> Evidence(h, row) != [] && Evidence(h, row)[|Evidence(h, row)| - 1] == row
  {
  }

  /** When the policy enters a class, and which event that makes. */
  predicate Enters(cfg: Config, h: History, row: Row, c: FaultClass) {
    c != "healthy" && h.confirmed != Confirmed(c) && row.Scored? &&
    LastDiagnosed(cfg, Evidence(h, row), c, AtLeastOne(cfg.entryPersistence))
  }

  predicate Clears(cfg: Config, h: History, row: Row) {
    h.confirmed != Healthy && row.Scored? && LastHealthy(cfg, Evidence(h, row), cfg.exitPersistence)
  }

  /** The event that leads from one state to another. */
  function Transition(elapsed: real, from: AlertState, to: AlertState): AlertEvent
    requires from != to
  {
    match from
    case Healthy => NewAlert(elapsed, to.c)
    case Confirmed(c) => if to == Healthy then Cleared(elapsed, c) else ClassChange(elapsed, c, to.c)
  }

  /** The event says where it leads from `confirmed`: to healthy exactly if the alert clears, and to a class exactly if
      that class is entered and the alert does not clear. */
  ghost predicate Decides(event: Option<AlertEvent>, elapsed: real, confirmed: AlertState, clears: bool,
                          enters: FaultClass -> bool)
  {
    && (event.Some? ==> event.value.ToState() != confirmed)
    && (event.Some? ==> event.value == Transition(elapsed, confirmed, event.value.ToState()))
    && (event.Some? && event.value.ToState() == Healthy <==> clears)
    && (forall c :: event.Some? && event.value.ToState() == Confirmed(c) <==> enters(c) && !clears)
  }

  /** Every decision of the policy: a confirmed alert clears exactly on enough healthy evidence; otherwise a class is
      entered exactly when it was diagnosed, surely enough, often enough in a row. */
  lemma DecidesExactly(cfg: Config, h: History, elapsed: real, row: Row)
    ensures Decides(Decide(cfg, h, elapsed, row), elapsed, h.confirmed, Clears(cfg, h, row),
                    c => Enters(cfg, h, row, c))
  {
    if row.Scored? {
      var rows, c := Evidence(h, row), row.diagnosis;
      LastOfEvidence(h, row);
      QualifyingRunExactly(cfg, rows, c, AtLeastOne(cfg.entryPersistence));
      HealthyRunExactly(cfg, rows, cfg.exitPersistence);
      assert Qualifies(cfg, row) && row.diagnosis == c <==> QualifyingRun(cfg, rows, c) >= 1;
      forall d | Enters(cfg, h, row, d) ensures d == c {
        assert rows[|rows| - 1].diagnosis == d;
      }
    }
    hide QualifyingRun; hide HealthyRun; hide Trusted; hide LastDiagnosed; hide LastHealthy;
  }
}
