/** What the mission handlers do when nothing is in the way, in every run of the backend: missions
    start and end, and attempts are logged. */
module MissionProgress {
  import opened Options
  import opened Text
  import opened Missions
  import opened MissionLog
  import opened RobotBackend
  import opened Esp32Parser
  import Seqs
  import P = AckProtocol

  // ---------- starting and ending ----------

  /** Exactly the missions of s and one more, open and current. */
  predicate Started(s: Store, after: Store) {
    && after.current == Some(|s.tables.missions| + 1)
    && after.tables.missions == s.tables.missions + [Mission(None)]
    && after.tables.armLog == s.tables.armLog && after.tables.agvLog == s.tables.agvLog
  }

  /** Starting a mission makes a new open row and its number current, if none is current and the
      database does not fail; otherwise nothing changes. */
  lemma StartOpensMission(t: Tables, steps: seq<Step>, ok: bool)
    ensures var s, after := Run(t, steps).store, Run(t, steps + [MissionStart(ok)]).store;
            if s.current.None? && ok then Started(s, after) else after == s
  {
    RunAfter(t, steps, [MissionStart(ok)]);
    assert steps + [] == steps;
  }

  /** The same rows, except that mission id now has this result, and none is current. */
  predicate Finished(s: Store, after: Store, id: nat, result: string) {
    && 1 <= id <= |s.tables.missions| == |after.tables.missions| && after.current.None?
    && after.tables.missions[id - 1] == Mission(Some(result))
    && (forall i :: 0 <= i < |s.tables.missions| && i != id - 1 ==>
          after.tables.missions[i] == s.tables.missions[i])
    && after.tables.armLog == s.tables.armLog && after.tables.agvLog == s.tables.agvLog
  }

  /** Ending the current mission with a result that is not blank stores the result without the white
      space around it in that mission's row and leaves none current, if the database does not fail;
      otherwise nothing changes. */
  lemma EndClosesMission(t: Tables, steps: seq<Step>, result: string, ok: bool)
    ensures var s, after := Run(t, steps).store, Run(t, steps + [MissionEnd(result, ok)]).store;
            if s.current.Some? && !Blank(result) && ok then Finished(s, after, s.current.value, Strip(result))
            else after == s
  {
    RunAfter(t, steps, [MissionEnd(result, ok)]);
    assert steps + [] == steps;
    CurrentIsOnlyOpenRow(t, steps);
    StripBlank(result);
    EndFinishes(Run(t, steps).store, result, ok);
  }

  lemma EndFinishes(s: Store, result: string, ok: bool)
    requires s.current.Some? ==> IsOpen(s.tables, s.current.value)
    ensures if s.current.Some? && Strip(result) != "" && ok
            then Finished(s, End(s, result, ok).0, s.current.value, Strip(result)) else End(s, result, ok).0 == s
  {
  }

  /** And that result stays, whatever comes after. */
  lemma ResultIsKept(t: Tables, steps: seq<Step>, result: string, more: seq<Step>, id: nat, end: seq<Step>)
    requires Run(t, steps).store.current == Some(id) && !Blank(result) && end == steps + [MissionEnd(result, true)]
    ensures id <= |Run(t, end + more).store.tables.missions|
    ensures 1 <= id && Run(t, end + more).store.tables.missions[id - 1] == Mission(Some(Strip(result)))
  {
    CurrentIsOnlyOpenRow(t, steps);
    EndClosesMission(t, steps, result, true);
    EndedMissionIsFrozen(t, end, more, id);
  }

  // ---------- logging ----------

  /** What an attempt leaves: its row and a reply that names the mission, a reply that names none, or,
      when the row cannot be written, nothing. */
  predicate Logged(s: System, after: System, attempt: Attempt, request: Request, ack: bool, ok: bool) {
    var reply := ArmResult(attempt, request.command, request.angles, ack, s.store.current);
    match s.store.current
    case None => after.store == s.store && after.results == s.results + [reply]
    case Some(mission) =>
      if ok && |request.angles| == 4
      then
        && after.store.tables.armLog
           == s.store.tables.armLog + [ArmRow(mission, request.command, request.angles, ack)]
        && after.store.tables.missions == s.store.tables.missions
        && after.store.tables.agvLog == s.store.tables.agvLog
        && after.store.current == s.store.current && after.results == s.results + [reply]
      else after.store == s.store && after.results == s.results
  }

  /** The handler of a command whose call has ended logs it under the mission current by then, with an
      ack exactly when the call returned one. */
  lemma HandledIsLogged(t: Tables, steps: seq<Step>, s: System, id: nat, ok: bool)
    requires s == Run(t, steps) && Ended(s, id)
    ensures var end := s.esp.commands[id].end.value;
            Logged(s, Run(t, steps + [ArmHandled(id, ok)]), Registered(id), s.requests[id],
                   end.Returned? && end.ack, ok)
  {
    RunAfter(t, steps, [ArmHandled(id, ok)]);
    assert steps + [] == steps;
  }

  /** And one told that another command is pending logs it without. */
  lemma RefusedIsLogged(t: Tables, steps: seq<Step>, s: System, call: nat, ok: bool)
    requires s == Run(t, steps) && Refused(s, call)
    ensures Logged(s, Run(t, steps + [ArmRefused(call, ok)]), TurnedAway(call), s.refusals[call], false, ok)
  {
    RunAfter(t, steps, [ArmRefused(call, ok)]);
    assert steps + [] == steps;
  }

  /** An ended call stays to be handled until it is, and once only. */
  lemma HandledOnce(t: Tables, steps: seq<Step>, s: System, id: nat, step: Step)
    requires s == Run(t, steps) && id < |s.esp.commands| && s.esp.commands[id].end.Some?
    ensures Ended(s, id) <==> id !in s.settled
    ensures var after := Run(t, steps + [step]);
            id in after.settled <==> id in s.settled || (step.ArmHandled? && step.id == id)
  {
    RunKeepsResults(t, steps);
    RunAfter(t, steps, [step]);
    assert steps + [] == steps;
    SettledStep(s, step, id);
  }

  lemma SettledStep(s: System, step: Step, id: nat)
    requires Ended(s, id) || id in s.settled
    ensures id in Next(s, step).settled <==> id in s.settled || (step.ArmHandled? && step.id == id)
  {
  }

  // ---------- requests and frames ----------

  /** What becomes of a request while the command lock is free: with no connection it is answered at
      once and logged nowhere; with another command pending it is refused; otherwise its command is
      registered. */
  lemma RequestIsTaken(t: Tables, steps: seq<Step>, s: System, request: Request)
    requires s == Run(t, steps) && s.esp.sender.Idle?
    ensures var after := Run(t, steps + [ArmRequest(request)]);
            && after.store == s.store && after.events == s.events
            && (s.esp.client.socket.None? ==>
                  after.results == s.results + [ArmResult(Unconnected, request.command, request.angles, false, None)]
                  && after.requests == s.requests && after.refusals == s.refusals)
            && (s.esp.client.socket.Some? && s.esp.client.pending.Some? ==>
                  after.refusals == s.refusals + [request] && after.requests == s.requests
                  && after.results == s.results)
            && (s.esp.client.socket.Some? && s.esp.client.pending.None? ==>
                  after.requests == s.requests + [request] && after.refusals == s.refusals
                  && after.results == s.results && after.esp.client.pending == Some(|s.requests|))
  {
    RunAfter(t, steps, [ArmRequest(request)]);
    assert steps + [] == steps;
    RunKeepsResults(t, steps);
  }

  /** Every AGV frame is broadcast, once, with the mission it was logged in: none without a current
      mission or on a database error. */
  lemma FrameIsBroadcast(t: Tables, steps: seq<Step>, s: System, event: Parsed, ok: bool)
    requires s == Run(t, steps) && (event.AgvSensors? || event.AgvDest?)
    ensures var after := Run(t, steps + [AgvFrame(event, ok)]);
            after.events == s.events + [AgvEvent(event, if ok then s.store.current else None)]
            && after.results == s.results && after.store.current == s.store.current
            && after.store.tables.agvLog == s.store.tables.agvLog
                 + if ok && s.store.current.Some? then [AgvRow(s.store.current.value, event)] else []
  {
    RunAfter(t, steps, [AgvFrame(event, ok)]);
    assert steps + [] == steps;
    Seqs.EmptyConcat(s.store.tables.agvLog);
  }
}
