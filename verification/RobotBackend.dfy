/** The backend's handlers of arm_command requests and of AGV events, from the moment the Arm
    protocol has answered or raised. */
module RobotBackend {
  import opened Options
  import opened Esp32Parser
  import opened Missions
  import P = AckProtocol

  /** What an arm_command request came to before it was logged. */
  datatype Attempt = Registered(id: nat) | TurnedAway(call: nat) | Unconnected

  /** The arm_result reply; `logged` is mission.Some?. */
  datatype ArmResult = ArmResult(attempt: Attempt, command: string, angles: seq<int>, ack: bool, mission: Option<nat>)

  /** The agv_event broadcast; `logged` is mission.Some?. */
  datatype AgvEvent = AgvEvent(event: Parsed, mission: Option<nat>)

  /** The `ack` the handler holds when send_arm_command has returned or raised. */
  predicate AckOf(end: P.CallEnd) {
    end.Returned? && end.ack
  }

  /** The tail of _handle_arm_command for an attempt; a database error leaves no result. */
  function LogAttempt(store: Store, results: seq<ArmResult>, attempt: Attempt, command: string, angles: seq<int>,
                      ack: bool, ok: bool): (Store, seq<ArmResult>) {
    if attempt.Unconnected? then (store, results + [ArmResult(attempt, command, angles, ack, None)])
    else
      var (after, outcome) := LogArm(store, command, angles, ack, ok);
      (after, if outcome.Done? then results + [ArmResult(attempt, command, angles, ack, outcome.value)] else results)
  }

  /** _handle_esp32_event for an AGV frame; a database error is reported as not logged. */
  function LogFrame(store: Store, events: seq<AgvEvent>, event: Parsed, ok: bool): (Store, seq<AgvEvent>) {
    var (after, outcome) := LogAgv(store, event, ok);
    (after, events + [AgvEvent(event, if outcome.Done? then outcome.value else None)])
  }

  class RobotBackend {
    const missions: MissionManager
    var results: seq<ArmResult>
    var events: seq<AgvEvent>

    constructor (missions: MissionManager)
      ensures this.missions == missions && results == [] && events == []
    {
      this.missions := missions;
      results, events := [], [];
    }

    /** `end` is how send_arm_command ended, for a registered command. */
    method HandleArmCommand(attempt: Attempt, end: P.CallEnd, command: string, angles: seq<int>, ok: bool)
      modifies this`results, missions.database
      ensures (missions.Now(), results) ==
              LogAttempt(old(missions.Now()), old(results), attempt, command, angles,
                         attempt.Registered? && AckOf(end), ok)
    {
      var ack, attempted := false, false;
      match attempt {
        case Registered(_) =>
          attempted := true;
          if end.Returned? {
            ack := end.ack;
          }
        case TurnedAway(_) =>
          attempted := true;
        case Unconnected =>
      }
      var loggedMissionId := None;
      if attempted {
        var outcome := missions.LogArmIfActive(command, angles, ack, ok);
        if outcome.Failed? {
          return;
        }
        loggedMissionId := outcome.value;
      }
      results := results + [ArmResult(attempt, command, angles, ack, loggedMissionId)];
    }

    method HandleAgvEvent(event: Parsed, ok: bool)
      modifies this`events, missions.database
      ensures (missions.Now(), events) == LogFrame(old(missions.Now()), old(events), event, ok)
    {
      var missionId := None;
      var outcome := missions.LogAgvIfActive(event, ok);
      if outcome.Done? {
        missionId := outcome.value;
      }
      events := events + [AgvEvent(event, missionId)];
    }
  }
}
