/** Missions and their logs: MissionManager over the three tables of DatabaseManager.

    Tables are append-only sequences; a mission's id is its place in its table, counted from 1.
    Timestamps are not kept.  Every database call may fail, and then changes nothing. */
module Missions {
  import opened Options
  import opened Text
  import opened Esp32Parser

  /** A row of the mission table: open until it has a result. */
  datatype Mission = Mission(result: Option<string>)

  datatype ArmRow = ArmRow(mission: nat, command: string, angles: seq<int>, ack: bool)
  datatype AgvRow = AgvRow(mission: nat, event: Parsed)

  datatype Tables = Tables(missions: seq<Mission>, armLog: seq<ArmRow>, agvLog: seq<AgvRow>)

  datatype Error = MissionAlreadyActive(id: nat) | NoActiveMission | EmptyResult | MissionNotFound(id: nat)
                 | NotFourAngles | DatabaseFailure

  datatype Outcome<+T> = Done(value: T) | Failed(error: Error)

  /** The row of mission id exists and is open. */
  predicate IsOpen(t: Tables, id: nat) {
    1 <= id <= |t.missions| && t.missions[id - 1].result.None?
  }

  // ---------- the database ----------

  function CreateMission(t: Tables, ok: bool): (Tables, Outcome<nat>) {
    if !ok then (t, Failed(DatabaseFailure))
    else (t.(missions := t.missions + [Mission(None)]), Done(|t.missions| + 1))
  }

  function EndMission(t: Tables, id: nat, result: string, ok: bool): (Tables, Outcome<nat>) {
    if Strip(result) == "" then (t, Failed(EmptyResult))
    else if !ok then (t, Failed(DatabaseFailure))
    else if !IsOpen(t, id) then (t, Failed(MissionNotFound(id)))
    else (t.(missions := t.missions[id - 1 := Mission(Some(Strip(result)))]), Done(id))
  }

  function InsertArmLog(t: Tables, row: ArmRow, ok: bool): (Tables, Outcome<nat>) {
    if |row.angles| != 4 then (t, Failed(NotFourAngles))
    else if !ok then (t, Failed(DatabaseFailure))
    else (t.(armLog := t.armLog + [row]), Done(|t.armLog| + 1))
  }

  function InsertAgvLog(t: Tables, row: AgvRow, ok: bool): (Tables, Outcome<nat>) {
    if !ok then (t, Failed(DatabaseFailure)) else (t.(agvLog := t.agvLog + [row]), Done(|t.agvLog| + 1))
  }

  // ---------- the mission manager ----------

  datatype Store = Store(tables: Tables, current: Option<nat>)

  function Start(s: Store, ok: bool): (Store, Outcome<nat>) {
    if s.current.Some? then (s, Failed(MissionAlreadyActive(s.current.value)))
    else
      var (t, outcome) := CreateMission(s.tables, ok);
      if outcome.Done? then (Store(t, Some(outcome.value)), outcome) else (s, outcome)
  }

  function End(s: Store, result: string, ok: bool): (Store, Outcome<nat>) {
    if s.current.None? then (s, Failed(NoActiveMission))
    else
      var (t, outcome) := EndMission(s.tables, s.current.value, result, ok);
      if outcome.Done? then (Store(t, None), outcome) else (s, outcome)
  }

  /** The value is the mission the row was logged in, if any. */
  function LogArm(s: Store, command: string, angles: seq<int>, ack: bool, ok: bool): (Store, Outcome<Option<nat>>) {
    if s.current.None? then (s, Done(None))
    else
      var (t, outcome) := InsertArmLog(s.tables, ArmRow(s.current.value, command, angles, ack), ok);
      if outcome.Done? then (s.(tables := t), Done(s.current)) else (s, Failed(outcome.error))
  }

  function LogAgv(s: Store, event: Parsed, ok: bool): (Store, Outcome<Option<nat>>) {
    if s.current.None? then (s, Done(None))
    else
      var (t, outcome) := InsertAgvLog(s.tables, AgvRow(s.current.value, event), ok);
      if outcome.Done? then (s.(tables := t), Done(s.current)) else (s, Failed(outcome.error))
  }

  // ---------- in place ----------

  class DatabaseManager {
    var mission: seq<Mission>
    var armLog: seq<ArmRow>
    var agvLog: seq<AgvRow>

    function Now(): Tables
      reads this
    {
      Tables(mission, armLog, agvLog)
    }

    constructor (t: Tables)
      ensures Now() == t
    {
      mission, armLog, agvLog := t.missions, t.armLog, t.agvLog;
    }

    method CreateRow(ok: bool) returns (outcome: Outcome<nat>)
      modifies this`mission
      ensures (Now(), outcome) == CreateMission(old(Now()), ok)
    {
      if !ok {
        return Failed(DatabaseFailure);
      }
      mission := mission + [Mission(None)];
      outcome := Done(|mission|);
    }

    method CloseRow(id: nat, result: string, ok: bool) returns (outcome: Outcome<nat>)
      modifies this`mission
      ensures (Now(), outcome) == EndMission(old(Now()), id, result, ok)
    {
      var stripped := Strip(result);
      if stripped == "" {
        return Failed(EmptyResult);
      }
      if !ok {
        return Failed(DatabaseFailure);
      }
      var rowcount := 0;
      if 1 <= id <= |mission| && mission[id - 1].result.None? {
        mission := mission[id - 1 := Mission(Some(stripped))];
        rowcount := 1;
      }
      if rowcount != 1 {
        return Failed(MissionNotFound(id));
      }
      outcome := Done(id);
    }

    method AppendArm(row: ArmRow, ok: bool) returns (outcome: Outcome<nat>)
      modifies this`armLog
      ensures (Now(), outcome) == InsertArmLog(old(Now()), row, ok)
    {
      if |row.angles| != 4 {
        return Failed(NotFourAngles);
      }
      if !ok {
        return Failed(DatabaseFailure);
      }
      armLog := armLog + [row];
      outcome := Done(|armLog|);
    }

    method AppendAgv(row: AgvRow, ok: bool) returns (outcome: Outcome<nat>)
      modifies this`agvLog
      ensures (Now(), outcome) == InsertAgvLog(old(Now()), row, ok)
    {
      if !ok {
        return Failed(DatabaseFailure);
      }
      agvLog := agvLog + [row];
      outcome := Done(|agvLog|);
    }
  }

  class MissionManager {
    const database: DatabaseManager
    var currentMissionId: Option<nat>

    function Now(): Store
      reads this, database
    {
      Store(database.Now(), currentMissionId)
    }

    constructor (database: DatabaseManager)
      ensures this.database == database && Now() == Store(database.Now(), None)
    {
      this.database := database;
      currentMissionId := None;
    }

    method StartMission(ok: bool) returns (outcome: Outcome<nat>)
      modifies this, database
      ensures (Now(), outcome) == Start(old(Now()), ok)
    {
      if currentMissionId.Some? {
        return Failed(MissionAlreadyActive(currentMissionId.value));
      }
      outcome := database.CreateRow(ok);
      if outcome.Done? {
        currentMissionId := Some(outcome.value);
      }
    }

    method FinishMission(result: string, ok: bool) returns (outcome: Outcome<nat>)
      modifies this, database
      ensures (Now(), outcome) == End(old(Now()), result, ok)
    {
      if currentMissionId.None? {
        return Failed(NoActiveMission);
      }
      outcome := database.CloseRow(currentMissionId.value, result, ok);
      if outcome.Done? {
        currentMissionId := None;
      }
    }

    method LogArmIfActive(command: string, angles: seq<int>, ack: bool, ok: bool)
                          returns (outcome: Outcome<Option<nat>>)
      modifies database
      ensures (Now(), outcome) == LogArm(old(Now()), command, angles, ack, ok)
    {
      if currentMissionId.None? {
        return Done(None);
      }
      var inserted := database.AppendArm(ArmRow(currentMissionId.value, command, angles, ack), ok);
      outcome := if inserted.Done? then Done(currentMissionId) else Failed(inserted.error);
    }

    method LogAgvIfActive(event: Parsed, ok: bool) returns (outcome: Outcome<Option<nat>>)
      modifies database
      ensures (Now(), outcome) == LogAgv(old(Now()), event, ok)
    {
      if currentMissionId.None? {
        return Done(None);
      }
      var inserted := database.AppendAgv(AgvRow(currentMissionId.value, event), ok);
      outcome := if inserted.Done? then Done(currentMissionId) else Failed(inserted.error);
    }
  }
}
