/** Mission-scoped logging: the backend's request and event handlers over the Arm protocol and
    the mission store, all of whose steps may interleave in any way. */
module MissionLog {
  import Seqs
  import opened Options
  import opened Esp32Parser
  import opened Missions
  import opened RobotBackend
  import AckOutcomes
  import AckTheorems
  import opened Esp32Sections
  import P = AckProtocol

  /** What an arm_command request asks for. */
  datatype Request = Request(command: string, angles: seq<int>)

  /** `requests` holds the request behind each registered command and `refusals` the requests told
      that another command is pending; `settled` and `dismissed` are those of them whose handler
      has passed its logging step. */
  datatype System = System(
    esp: P.State, store: Store, requests: seq<Request>, refusals: seq<Request>,
    settled: set<nat>, dismissed: set<nat>, results: seq<ArmResult>, events: seq<AgvEvent>)

  /** Registration happens in ArmRequest; Esp stands for every other step of the protocol. */
  datatype Step =
    | Esp(step: P.Step)
    | MissionStart(ok: bool)
    | MissionEnd(result: string, ok: bool)
    | ArmRequest(request: Request)
    | ArmHandled(id: nat, ok: bool)
    | ArmRefused(call: nat, ok: bool)
    | AgvFrame(event: Parsed, ok: bool)

  /** The backend starts on tables that earlier processes may have left behind. */
  function Initial(t: Tables): System {
    System(P.START, Store(t, None), [], [], {}, {}, [], [])
  }

  function Handle(s: System, attempt: Attempt, request: Request, ack: bool, ok: bool): System {
    var (store, results) := LogAttempt(s.store, s.results, attempt, request.command, request.angles, ack, ok);
    s.(store := store, results := results)
  }

  /** A request takes the command lock and tries to register its command. */
  function ArmRequestStep(s: System, request: Request): System {
    if !s.esp.sender.Idle? then s
    else
      var s' := s.(esp := P.Next(s.esp, P.Register));
      match RegisterSection(s.esp.client, |s.esp.commands|).1
      case NotConnected => Handle(s', Unconnected, request, false, true)
      case AlreadyPending => s'.(refusals := s.refusals + [request])
      case Accepted => s'.(requests := s.requests + [request])
  }

  /** send_arm_command has ended and its handler has not logged it yet. */
  predicate Ended(s: System, id: nat) {
    id < |s.esp.commands| && id < |s.requests| && s.esp.commands[id].end.Some? && id !in s.settled
  }

  function ArmHandledStep(s: System, id: nat, ok: bool): System {
    if !Ended(s, id) then s
    else Handle(s.(settled := s.settled + {id}), Registered(id), s.requests[id], AckOf(s.esp.commands[id].end.value),
         ok)
  }

  predicate Refused(s: System, call: nat) {
    call < |s.refusals| && call !in s.dismissed
  }

  function ArmRefusedStep(s: System, call: nat, ok: bool): System {
    if !Refused(s, call) then s
    else Handle(s.(dismissed := s.dismissed + {call}), TurnedAway(call), s.refusals[call], false, ok)
  }

  function AgvFrameStep(s: System, event: Parsed, ok: bool): System {
    if !(event.AgvSensors? || event.AgvDest?) then s
    else
      var (store, events) := LogFrame(s.store, s.events, event, ok);
      s.(store := store, events := events)
  }

  function Next(s: System, step: Step): System {
    match step
    case Esp(e) => if e.Register? then s else s.(esp := P.Next(s.esp, e))
    case MissionStart(ok) => s.(store := Start(s.store, ok).0)
    case MissionEnd(result, ok) => s.(store := End(s.store, result, ok).0)
    case ArmRequest(request) => ArmRequestStep(s, request)
    case ArmHandled(id, ok) => ArmHandledStep(s, id, ok)
    case ArmRefused(call, ok) => ArmRefusedStep(s, call, ok)
    case AgvFrame(event, ok) => AgvFrameStep(s, event, ok)
  }

  /** The store after a step: the protocol's own steps do not touch it. */
  function StoreAfter(s: System, step: Step): Store {
    match step
    case Esp(_) => s.store
    case MissionStart(ok) => Start(s.store, ok).0
    case MissionEnd(result, ok) => End(s.store, result, ok).0
    case ArmRequest(_) => s.store
    case ArmHandled(id, ok) =>
      if Ended(s, id)
      then LogArm(s.store, s.requests[id].command, s.requests[id].angles, AckOf(s.esp.commands[id].end.value), ok).0
      else s.store
    case ArmRefused(call, ok) =>
      if Refused(s, call) then LogArm(s.store, s.refusals[call].command, s.refusals[call].angles, false, ok).0
        else s.store
    case AgvFrame(event, ok) =>
      if event.AgvSensors? || event.AgvDest? then LogAgv(s.store, event, ok).0 else s.store
  }

  lemma StoreIs(s: System, step: Step)
    ensures Next(s, step).store == StoreAfter(s, step)
  {
  }

  function Run(t: Tables, steps: seq<Step>): System {
    if steps == [] then Initial(t) else Next(Run(t, steps[..|steps| - 1]), steps[|steps| - 1])
  }

  // ---------- the current mission ----------

  /** The current id names the only open row this process created; older rows are untouched. */
  predicate OnlyCurrentOpen(t: Tables, s: Store) {
    && t.missions <= s.tables.missions
    && (s.current.Some? ==> |t.missions| < s.current.value <= |s.tables.missions|)
    && forall id :: |t.missions| < id <= |s.tables.missions| ==>
         (s.tables.missions[id - 1].result.None? <==> s.current == Some(id))
  }

  lemma StartKeepsOpen(t: Tables, s: Store, ok: bool)
    requires OnlyCurrentOpen(t, s)
    ensures OnlyCurrentOpen(t, Start(s, ok).0)
  {
  }

  lemma EndKeepsOpen(t: Tables, s: Store, result: string, ok: bool)
    requires OnlyCurrentOpen(t, s)
    ensures OnlyCurrentOpen(t, End(s, result, ok).0)
  {
  }

  lemma LoggingKeepsMissions(s: System, step: Step)
    requires !step.MissionStart? && !step.MissionEnd?
    ensures StoreAfter(s, step).tables.missions == s.store.tables.missions
    ensures StoreAfter(s, step).current == s.store.current
  {
  }

  lemma StoreStep(t: Tables, s: System, step: Step)
    requires OnlyCurrentOpen(t, s.store)
    ensures OnlyCurrentOpen(t, StoreAfter(s, step))
  {
    match step
    case MissionStart(ok) => StartKeepsOpen(t, s.store, ok);
    case MissionEnd(result, ok) => EndKeepsOpen(t, s.store, result, ok);
    case _ => LoggingKeepsMissions(s, step);
  }

  lemma {:induction false} CurrentIsOnlyOpenRow(t: Tables, steps: seq<Step>)
    ensures OnlyCurrentOpen(t, Run(t, steps).store)
  {
    if steps != [] {
      CurrentIsOnlyOpenRow(t, steps[..|steps| - 1]);
      StoreStep(t, Run(t, steps[..|steps| - 1]), steps[|steps| - 1]);
      StoreIs(Run(t, steps[..|steps| - 1]), steps[|steps| - 1]);
    }
  }

  /** So ending the current mission never misses its row: it fails only for an empty result or a
      database error. */
  lemma EndFindsItsRow(t: Tables, steps: seq<Step>, result: string, ok: bool)
    requires Run(t, steps).store.current.Some?
    ensures !End(Run(t, steps).store, result, ok).1.Failed?
            || End(Run(t, steps).store, result, ok).1.error in [EmptyResult, DatabaseFailure]
  {
    CurrentIsOnlyOpenRow(t, steps);
  }

  // ---------- rows and what was reported about them ----------

  function ArmRows(results: seq<ArmResult>): seq<ArmRow> {
    if results == [] then []
    else
      var r := results[|results| - 1];
      ArmRows(results[..|results| - 1])
      + if r.mission.Some? then [ArmRow(r.mission.value, r.command, r.angles, r.ack)] else []
  }

  function AgvRows(events: seq<AgvEvent>): seq<AgvRow> {
    if events == [] then []
    else
      var e := events[|events| - 1];
      AgvRows(events[..|events| - 1]) + if e.mission.Some? then [AgvRow(e.mission.value, e.event)] else []
  }

  predicate RowsAreReported(t: Tables, s: System) {
    && s.store.tables.armLog == t.armLog + ArmRows(s.results)
    && s.store.tables.agvLog == t.agvLog + AgvRows(s.events)
  }

  lemma ResultAppended(results: seq<ArmResult>, r: ArmResult)
    ensures ArmRows(results + [r]) ==
            ArmRows(results) + if r.mission.Some? then [ArmRow(r.mission.value, r.command, r.angles, r.ack)] else []
  {
    assert (results + [r])[..|results|] == results;
  }

  lemma EventAppended(events: seq<AgvEvent>, e: AgvEvent)
    ensures AgvRows(events + [e]) == AgvRows(events)
            + if e.mission.Some? then [AgvRow(e.mission.value, e.event)] else []
  {
    assert (events + [e])[..|events|] == events;
  }

  /** The row an attempt leaves in the table, if any. */
  function NewRows(s: System, attempt: Attempt, request: Request, ack: bool, ok: bool): seq<ArmRow> {
    if attempt.Unconnected? || s.store.current.None? || |request.angles| != 4 || !ok then []
    else [ArmRow(s.store.current.value, request.command, request.angles, ack)]
  }

  lemma TableGrows(s: System, attempt: Attempt, request: Request, ack: bool, ok: bool)
    ensures var after := Handle(s, attempt, request, ack, ok).store.tables;
            after.armLog == s.store.tables.armLog + NewRows(s, attempt, request, ack, ok)
            && after.agvLog == s.store.tables.agvLog
  {
    Seqs.EmptyConcat(s.store.tables.armLog);
  }

  lemma ResultsGrow(s: System, attempt: Attempt, request: Request, ack: bool, ok: bool)
    ensures ArmRows(Handle(s, attempt, request, ack, ok).results) ==
            ArmRows(s.results) + NewRows(s, attempt, request, ack, ok)
  {
    Seqs.EmptyConcat(ArmRows(s.results));
    var results := Handle(s, attempt, request, ack, ok).results;
    if |results| > |s.results| {
      ResultAppended(s.results, results[|s.results|]);
    }
  }

  lemma AttemptIsReported(t: Tables, s: System, attempt: Attempt, request: Request, ack: bool, ok: bool)
    requires RowsAreReported(t, s)
    ensures RowsAreReported(t, Handle(s, attempt, request, ack, ok))
  {
    TableGrows(s, attempt, request, ack, ok);
    ResultsGrow(s, attempt, request, ack, ok);
    Seqs.Assoc(t.armLog, ArmRows(s.results), NewRows(s, attempt, request, ack, ok));
  }

  lemma RequestIsReported(t: Tables, s: System, request: Request)
    requires RowsAreReported(t, s)
    ensures RowsAreReported(t, ArmRequestStep(s, request))
  {
    AttemptIsReported(t, s.(esp := P.Next(s.esp, P.Register)), Unconnected, request, false, true);
  }

  lemma StepIsReported(t: Tables, s: System, step: Step)
    requires RowsAreReported(t, s)
    ensures RowsAreReported(t, Next(s, step))
  {
    match step
    case ArmRequest(request) => RequestIsReported(t, s, request);
    case ArmHandled(id, ok) =>
      if Ended(s, id) {
        AttemptIsReported(t, s.(settled := s.settled + {id}), Registered(id), s.requests[id],
                          AckOf(s.esp.commands[id].end.value), ok);
      }
    case ArmRefused(call, ok) =>
      if Refused(s, call) {
        AttemptIsReported(t, s.(dismissed := s.dismissed + {call}), TurnedAway(call), s.refusals[call],
                          false, ok);
      }
    case AgvFrame(event, ok) => FrameIsReported(t, s, event, ok);
    case _ =>
  }

  lemma FrameIsReported(t: Tables, s: System, event: Parsed, ok: bool)
    requires RowsAreReported(t, s)
    ensures RowsAreReported(t, AgvFrameStep(s, event, ok))
  {
    EventAppended(s.events, AgvEvent(event, None));
    EventAppended(s.events, AgvEvent(event, s.store.current));
  }

  /** The rows this process appended are exactly those its replies and broadcasts call logged, in
      the same order and under the reported mission: the `logged` flags agree with the tables. */
  lemma {:induction false} LoggedFlagsAgree(t: Tables, steps: seq<Step>)
    ensures RowsAreReported(t, Run(t, steps))
  {
    if steps != [] {
      LoggedFlagsAgree(t, steps[..|steps| - 1]);
      StepIsReported(t, Run(t, steps[..|steps| - 1]), steps[|steps| - 1]);
    }
  }

  // ---------- one mission's log ----------

  /** The AGV rows of one mission, in order. */
  function AgvLogOf(rows: seq<AgvRow>, mission: nat): seq<Parsed> {
    if rows == [] then []
    else
      var last := rows[|rows| - 1];
      AgvLogOf(rows[..|rows| - 1], mission) + if last.mission == mission then [last.event] else []
  }

  function ArmLogOf(rows: seq<ArmRow>, mission: nat): seq<ArmRow> {
    if rows == [] then []
    else
      var last := rows[|rows| - 1];
      ArmLogOf(rows[..|rows| - 1], mission) + if last.mission == mission then [last] else []
  }

  /** A step that brings an AGV frame while the mission is current, without a database error. */
  predicate LogsFrame(s: System, step: Step, mission: nat) {
    step.AgvFrame? && (step.event.AgvSensors? || step.event.AgvDest?) && step.ok && s.store.current == Some(mission)
  }

  /** The AGV frames of a run that came while the mission was current and met no database error. */
  function FramesDuring(t: Tables, steps: seq<Step>, mission: nat): seq<Parsed> {
    if steps == [] then []
    else
      var init, last := steps[..|steps| - 1], steps[|steps| - 1];
      FramesDuring(t, init, mission) + if LogsFrame(Run(t, init), last, mission) then [last.event] else []
  }

  lemma AgvRowAppended(rows: seq<AgvRow>, row: AgvRow, mission: nat)
    ensures AgvLogOf(rows + [row], mission) == AgvLogOf(rows, mission)
            + if row.mission == mission then [row.event] else []
  {
    assert (rows + [row])[..|rows|] == rows;
  }

  lemma ArmRowAppended(rows: seq<ArmRow>, row: ArmRow, mission: nat)
    ensures ArmLogOf(rows + [row], mission) == ArmLogOf(rows, mission) + if row.mission == mission then [row] else []
  {
    assert (rows + [row])[..|rows|] == rows;
  }

  lemma LoggedFrame(s: Store, event: Parsed, ok: bool, mission: nat)
    ensures AgvLogOf(LogAgv(s, event, ok).0.tables.agvLog, mission) ==
            AgvLogOf(s.tables.agvLog, mission) + if ok && s.current == Some(mission) then [event] else []
  {
    if s.current.Some? {
      AgvRowAppended(s.tables.agvLog, AgvRow(s.current.value, event), mission);
    }
  }

  lemma MissionsKeepLogs(s: Store, result: string, ok: bool)
    ensures Start(s, ok).0.tables.agvLog == End(s, result, ok).0.tables.agvLog == s.tables.agvLog
    ensures Start(s, ok).0.tables.armLog == End(s, result, ok).0.tables.armLog == s.tables.armLog
  {
  }

  lemma OtherStepsKeepAgvLog(s: System, step: Step)
    requires !step.AgvFrame?
    ensures StoreAfter(s, step).tables.agvLog == s.store.tables.agvLog
  {
    if step.MissionStart? {
      MissionsKeepLogs(s.store, "", step.ok);
    } else if step.MissionEnd? {
      MissionsKeepLogs(s.store, step.result, step.ok);
    }
  }

  lemma FrameStep(s: System, step: Step, mission: nat)
    ensures AgvLogOf(StoreAfter(s, step).tables.agvLog, mission) ==
            AgvLogOf(s.store.tables.agvLog, mission) + if LogsFrame(s, step, mission) then [step.event] else []
  {
    if step.AgvFrame? {
      LoggedFrame(s.store, step.event, step.ok, mission);
    } else {
      OtherStepsKeepAgvLog(s, step);
    }
  }

  /** Each mission's AGV log is in order exactly the AGV frames logged while it was current. */
  lemma {:induction false} MissionLogIsItsFrames(t: Tables, steps: seq<Step>, mission: nat)
    requires AgvLogOf(t.agvLog, mission) == []
    ensures AgvLogOf(Run(t, steps).store.tables.agvLog, mission) == FramesDuring(t, steps, mission)
  {
    if steps != [] {
      MissionLogIsItsFrames(t, steps[..|steps| - 1], mission);
      FrameStep(Run(t, steps[..|steps| - 1]), steps[|steps| - 1], mission);
      StoreIs(Run(t, steps[..|steps| - 1]), steps[|steps| - 1]);
    }
  }

  // ---------- closed missions ----------

  predicate Closed(s: Store, mission: nat) {
    1 <= mission <= |s.tables.missions| && s.tables.missions[mission - 1].result.Some?
  }

  lemma StartKeepsClosed(s: Store, ok: bool, mission: nat)
    requires Closed(s, mission)
    ensures Closed(Start(s, ok).0, mission)
    ensures Start(s, ok).0.tables.missions[mission - 1] == s.tables.missions[mission - 1]
  {
  }

  lemma EndKeepsClosed(s: Store, result: string, ok: bool, mission: nat)
    requires Closed(s, mission) && s.current != Some(mission)
    ensures Closed(End(s, result, ok).0, mission)
    ensures End(s, result, ok).0.tables.missions[mission - 1] == s.tables.missions[mission - 1]
  {
  }

  lemma ClosedRowStays(t: Tables, s: System, step: Step, mission: nat)
    requires OnlyCurrentOpen(t, s.store) && |t.missions| < mission && Closed(s.store, mission)
    ensures s.store.current != Some(mission) && Closed(StoreAfter(s, step), mission)
    ensures StoreAfter(s, step).tables.missions[mission - 1] == s.store.tables.missions[mission - 1]
  {
    match step
    case MissionStart(ok) => StartKeepsClosed(s.store, ok, mission);
    case MissionEnd(result, ok) => EndKeepsClosed(s.store, result, ok, mission);
    case _ => LoggingKeepsMissions(s, step);
  }

  lemma ClosedAgvLogStays(s: System, step: Step, mission: nat)
    requires s.store.current != Some(mission)
    ensures AgvLogOf(StoreAfter(s, step).tables.agvLog, mission) == AgvLogOf(s.store.tables.agvLog, mission)
  {
    FrameStep(s, step, mission);
  }

  lemma ClosedArmLogStays(s: System, step: Step, mission: nat)
    requires s.store.current != Some(mission)
    ensures ArmLogOf(StoreAfter(s, step).tables.armLog, mission) == ArmLogOf(s.store.tables.armLog, mission)
  {
    if step.ArmHandled? && Ended(s, step.id) {
      var r := s.requests[step.id];
      ClosedArm(s.store, r.command, r.angles, AckOf(s.esp.commands[step.id].end.value), step.ok, mission);
    } else if step.ArmRefused? && Refused(s, step.call) {
      ClosedArm(s.store, s.refusals[step.call].command, s.refusals[step.call].angles, false, step.ok, mission);
    }
  }

  lemma ClosedArm(s: Store, command: string, angles: seq<int>, ack: bool, ok: bool, mission: nat)
    requires s.current != Some(mission)
    ensures ArmLogOf(LogArm(s, command, angles, ack, ok).0.tables.armLog, mission) == ArmLogOf(s.tables.armLog, mission)
  {
    if s.current.Some? {
      ArmRowAppended(s.tables.armLog, ArmRow(s.current.value, command, angles, ack), mission);
    }
  }

  /** The mission's row and both its logs are the same in both states. */
  predicate Frozen(before: Store, after: Store, mission: nat) {
    && Closed(before, mission) && Closed(after, mission)
    && after.tables.missions[mission - 1] == before.tables.missions[mission - 1]
    && AgvLogOf(after.tables.agvLog, mission) == AgvLogOf(before.tables.agvLog, mission)
    && ArmLogOf(after.tables.armLog, mission) == ArmLogOf(before.tables.armLog, mission)
  }

  lemma RunAfter(t: Tables, steps: seq<Step>, more: seq<Step>)
    requires more != []
    ensures Run(t, steps + more) == Next(Run(t, steps + more[..|more| - 1]), more[|more| - 1])
  {
    assert (steps + more)[..|steps + more| - 1] == steps + more[..|more| - 1];
  }

  lemma FrozenStep(t: Tables, before: Store, s: System, step: Step, mission: nat)
    requires OnlyCurrentOpen(t, s.store) && |t.missions| < mission && Frozen(before, s.store, mission)
    ensures Frozen(before, StoreAfter(s, step), mission)
  {
    ClosedRowStays(t, s, step, mission);
    ClosedAgvLogStays(s, step, mission);
    ClosedArmLogStays(s, step, mission);
  }

  /** Once a mission this process created has ended, its row and both its logs never change again. */
  lemma {:induction false} EndedMissionIsFrozen(t: Tables, steps: seq<Step>, more: seq<Step>, mission: nat)
    requires |t.missions| < mission && Closed(Run(t, steps).store, mission)
    ensures Frozen(Run(t, steps).store, Run(t, steps + more).store, mission)
    decreases |more|
  {
    if more == [] {
      assert steps + more == steps;
    } else {
      var init := more[..|more| - 1];
      EndedMissionIsFrozen(t, steps, init, mission);
      RunAfter(t, steps, more);
      CurrentIsOnlyOpenRow(t, steps + init);
      FrozenStep(t, Run(t, steps).store, Run(t, steps + init), more[|more| - 1], mission);
      StoreIs(Run(t, steps + init), more[|more| - 1]);
    }
  }

  // ---------- arm rows and the protocol ----------

  function EspStep(step: Step): seq<P.Step> {
    if step.ArmRequest? then [P.Register]
    else if step.Esp? && !step.step.Register? then [step.step]
    else []
  }

  /** The protocol steps of a run. */
  function EspSteps(steps: seq<Step>): seq<P.Step> {
    if steps == [] then [] else EspSteps(steps[..|steps| - 1]) + EspStep(steps[|steps| - 1])
  }

  lemma EspOf(s: System, step: Step)
    ensures Next(s, step).esp == if EspStep(step) == [] then s.esp else P.Next(s.esp, EspStep(step)[0])
  {
  }

  lemma EspAppend(steps: seq<P.Step>, step: P.Step)
    ensures P.Run(steps + [step]) == P.Next(P.Run(steps), step)
  {
    assert (steps + [step])[..|steps|] == steps;
  }

  lemma {:induction false} EspRun(t: Tables, steps: seq<Step>)
    ensures Run(t, steps).esp == P.Run(EspSteps(steps))
  {
    if steps != [] {
      var init, last := steps[..|steps| - 1], steps[|steps| - 1];
      EspRun(t, init);
      EspOf(Run(t, init), last);
      if EspStep(last) == [] {
        Seqs.EmptyConcat(EspSteps(init));
      } else {
        assert EspStep(last) == [EspStep(last)[0]];
        EspAppend(EspSteps(init), EspStep(last)[0]);
      }
    }
  }

  /** A result stands for a call that has ended, and has that call's request and ack. */
  predicate ResultOk(s: System, r: ArmResult) {
    match r.attempt
    case Registered(id) =>
      id in s.settled && id < |s.esp.commands| && s.esp.commands[id].end.Some?
      && r.ack == AckOf(s.esp.commands[id].end.value)
      && id < |s.requests| && s.requests[id] == Request(r.command, r.angles)
    case TurnedAway(call) =>
      call in s.dismissed && !r.ack && call < |s.refusals| && s.refusals[call] == Request(r.command, r.angles)
    case Unconnected => !r.ack && r.mission.None?
  }

  predicate SameAttempt(a: ArmResult, b: ArmResult) {
    !a.attempt.Unconnected? && a.attempt == b.attempt
  }

  ghost predicate ResultsOk(s: System) {
    && (forall i :: 0 <= i < |s.results| ==> ResultOk(s, s.results[i]))
    && (forall i, j :: 0 <= i < j < |s.results| ==> !SameAttempt(s.results[i], s.results[j]))
  }

  /** Every registered command and every refused call has its request. */
  predicate RequestsKnown(s: System) {
    |s.requests| == |s.esp.commands| && |s.refusals| == s.esp.alreadyPending
  }

  lemma OthersRegisterNothing(s: P.State, step: P.Step)
    requires !step.Register?
    ensures |P.Next(s, step).commands| == |s.commands| && P.Next(s, step).alreadyPending == s.alreadyPending
  {
  }

  lemma StepKnowsRequests(s: System, step: Step)
    requires RequestsKnown(s)
    ensures RequestsKnown(Next(s, step))
  {
    if step.Esp? && !step.step.Register? {
      OthersRegisterNothing(s.esp, step.step);
    }
  }

  /** What the results rest on stays as it is. */
  predicate Extends(s: System, s': System) {
    && AckOutcomes.EndsKept(s.esp.commands, s'.esp.commands)
    && s.requests <= s'.requests && s.refusals <= s'.refusals
    && s.settled <= s'.settled && s.dismissed <= s'.dismissed
  }

  lemma ResultKept(s: System, s': System, r: ArmResult)
    requires Extends(s, s') && ResultOk(s, r)
    ensures ResultOk(s', r)
  {
  }

  lemma ResultsStay(s: System, s': System)
    requires ResultsOk(s) && Extends(s, s') && s'.results == s.results
    ensures ResultsOk(s')
  {
    forall i | 0 <= i < |s.results| ensures ResultOk(s', s'.results[i]) {
      ResultKept(s, s', s.results[i]);
    }
  }

  /** A new result of an attempt not seen before. */
  lemma ResultJoins(s: System, s': System, r: ArmResult)
    requires ResultsOk(s) && Extends(s, s') && s'.results == s.results + [r] && ResultOk(s', r)
    requires r.attempt.Registered? ==> r.attempt.id !in s.settled
    requires r.attempt.TurnedAway? ==> r.attempt.call !in s.dismissed
    ensures ResultsOk(s')
  {
    forall i | 0 <= i < |s.results|
      ensures ResultOk(s', s'.results[i]) && !SameAttempt(s'.results[i], r)
    {
      assert ResultOk(s, s.results[i]);
      ResultKept(s, s', s.results[i]);
    }
  }

  lemma RequestKeepsResults(s: System, request: Request)
    requires P.Inv(s.esp) && ResultsOk(s)
    ensures ResultsOk(ArmRequestStep(s, request))
  {
    AckOutcomes.EndsStay(s.esp, P.Register);
    var s' := ArmRequestStep(s, request);
    if s'.results == s.results {
      ResultsStay(s, s');
    } else {
      ResultJoins(s, s', s'.results[|s.results|]);
    }
  }

  lemma StepKeepsResults(s: System, step: Step)
    requires P.Inv(s.esp) && ResultsOk(s)
    ensures ResultsOk(Next(s, step))
  {
    if step.ArmRequest? {
      RequestKeepsResults(s, step.request);
    } else if step.Esp? {
      AckOutcomes.EndsStay(s.esp, step.step);
      ResultsStay(s, Next(s, step));
    } else {
      LoggingKeepsResults(s, step, Next(s, step));
    }
  }

  lemma LoggingKeepsResults(s: System, step: Step, s': System)
    requires ResultsOk(s) && !step.Esp? && !step.ArmRequest? && s' == Next(s, step)
    ensures ResultsOk(s')
  {
    if s'.results == s.results {
      ResultsStay(s, s');
    } else {
      ResultJoins(s, s', s'.results[|s.results|]);
    }
  }

  lemma {:induction false} RunKeepsResults(t: Tables, steps: seq<Step>)
    ensures ResultsOk(Run(t, steps)) && RequestsKnown(Run(t, steps))
  {
    if steps != [] {
      var init := steps[..|steps| - 1];
      RunKeepsResults(t, init);
      EspRun(t, init);
      P.RunKeepsInv(EspSteps(init));
      StepKeepsResults(Run(t, init), steps[|steps| - 1]);
      StepKnowsRequests(Run(t, init), steps[|steps| - 1]);
    }
  }

  /** Position of a logged result among all results. */
  lemma {:induction false} RowsHaveResults(results: seq<ArmResult>, k: nat) returns (i: nat)
    requires k < |ArmRows(results)|
    ensures i < |results| && results[i].mission.Some?
    ensures ArmRows(results)[k] == ArmRow(results[i].mission.value, results[i].command, results[i].angles,
            results[i].ack)
    ensures |ArmRows(results[..i])| == k
  {
    var n := |results| - 1;
    if k < |ArmRows(results[..n])| {
      i := RowsHaveResults(results[..n], k);
      assert results[..n][..i] == results[..i];
    } else {
      i := n;
    }
  }

  /** Row k of this process, counted from the first row it wrote, is the one of result i. */
  predicate RowOf(t: Tables, s: System, k: nat, i: nat) {
    && i < |s.results| && |t.armLog| + k < |s.store.tables.armLog|
    && s.results[i].mission.Some? && |ArmRows(s.results[..i])| == k
    && s.store.tables.armLog[|t.armLog| + k] ==
       ArmRow(s.results[i].mission.value, s.results[i].command, s.results[i].angles, s.results[i].ack)
  }

  lemma RowHasResult(t: Tables, steps: seq<Step>, k: nat) returns (i: nat)
    requires |t.armLog| + k < |Run(t, steps).store.tables.armLog|
    ensures RowOf(t, Run(t, steps), k, i) && ResultOk(Run(t, steps), Run(t, steps).results[i])
  {
    LoggedFlagsAgree(t, steps);
    RunKeepsResults(t, steps);
    i := RowsHaveResults(Run(t, steps).results, k);
  }

  /** Every arm row this process wrote stands for one attempt that reached the protocol, and has the
      command and angles of that attempt's request: a registered command whose call has ended, or a
      call refused because another command was pending.  The row of a registered command has ack
      set exactly when an OK reply to that very command completed it and its send did not fail. */
  lemma ArmRowIsAttempt(t: Tables, steps: seq<Step>, k: nat) returns (i: nat)
    requires |t.armLog| + k < |Run(t, steps).store.tables.armLog|
    ensures RowOf(t, Run(t, steps), k, i)
    ensures var s, r := Run(t, steps), Run(t, steps).results[i];
            match r.attempt
            case Registered(id) =>
              && id < |s.esp.commands| == |s.requests| && s.requests[id] == Request(r.command, r.angles)
              && s.esp.commands[id].end.Some?
              && (r.ack <==> s.esp.commands[id].cause == Some(P.ByAck(id, true))
                             && !s.esp.commands[id].end.value.RaisedSendFailure?)
            case TurnedAway(call) =>
              call < |s.refusals| == s.esp.alreadyPending && s.refusals[call] == Request(r.command, r.angles) && !r.ack
            case Unconnected => false
  {
    i := RowHasResult(t, steps, k);
    RunKeepsResults(t, steps);
    EspRun(t, steps);
    var r := Run(t, steps).results[i];
    if r.attempt.Registered? {
      AckOutcomes.AckedIffOkReply(EspSteps(steps), r.attempt.id);
    }
  }

  /** Different rows stand for different results, and no two results for the same attempt: no command
      has two rows. */
  lemma OneRowPerCommand(t: Tables, steps: seq<Step>, k: nat, l: nat, i: nat, j: nat)
    requires k != l && RowOf(t, Run(t, steps), k, i) && RowOf(t, Run(t, steps), l, j)
    ensures !SameAttempt(Run(t, steps).results[i], Run(t, steps).results[j])
  {
    RunKeepsResults(t, steps);
  }

  /** And a row stands for one result only. */
  lemma OneResultPerRow(t: Tables, s: System, k: nat, i: nat, j: nat)
    requires RowOf(t, s, k, i) && RowOf(t, s, k, j)
    ensures i == j
  {
    if i < j {
      RowsBefore(s.results, i, j);
    } else if j < i {
      RowsBefore(s.results, j, i);
    }
  }

  lemma {:induction false} RowsBefore(results: seq<ArmResult>, i: nat, j: nat)
    requires i < j <= |results| && results[i].mission.Some?
    ensures |ArmRows(results[..i])| < |ArmRows(results[..j])|
    decreases j
  {
    assert results[..j][..j - 1] == results[..j - 1];
    if i < j - 1 {
      RowsBefore(results, i, j - 1);
    }
  }

  /** If no failed send delivers its line, the row of a registered command has ack set exactly when an
      OK reply to that command completed it. */
  lemma AckColumnIsExact(t: Tables, steps: seq<Step>, k: nat) returns (i: nat)
    requires AckOutcomes.FailedSendsDeliverNothing(EspSteps(steps))
    requires |t.armLog| + k < |Run(t, steps).store.tables.armLog|
    ensures RowOf(t, Run(t, steps), k, i)
    ensures var s, r := Run(t, steps), Run(t, steps).results[i];
            r.attempt.Registered? ==>
              r.attempt.id < |s.esp.commands|
              && (r.ack <==> s.esp.commands[r.attempt.id].cause == Some(P.ByAck(r.attempt.id, true)))
  {
    i := ArmRowIsAttempt(t, steps, k);
    EspRun(t, steps);
    var r := Run(t, steps).results[i];
    if r.attempt.Registered? {
      AckOutcomes.AckedExactlyWhenOkReply(EspSteps(steps), r.attempt.id);
      AckOutcomes.AckedIffOkReply(EspSteps(steps), r.attempt.id);
    }
  }

  /** When connect calls do not overlap, every arm row is a registered command's. */
  lemma EveryRowIsRegistered(t: Tables, steps: seq<Step>, k: nat) returns (i: nat)
    requires AckTheorems.ConnectsDoNotOverlap(EspSteps(steps))
    requires |t.armLog| + k < |Run(t, steps).store.tables.armLog|
    ensures RowOf(t, Run(t, steps), k, i) && Run(t, steps).results[i].attempt.Registered?
  {
    i := ArmRowIsAttempt(t, steps, k);
    EspRun(t, steps);
    AckTheorems.FreeLockMeansNothingPending(EspSteps(steps));
  }
}
