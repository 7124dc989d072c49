/** Esp32Client's shared fields and their critical sections, in place.  Every method is one
    `with self._state_lock` block and implements the section function of the same name. */
module Esp32Client {
  import opened Options
  import opened Esp32Sections

  /** _PendingArmCommand.  `id` is its place in the order of registration. */
  class PendingArmCommand {
    ghost const id: CmdId
    var completed: bool
    var event: bool
    var ack: bool
    var response: string
    var error: Option<string>

    constructor (ghost id: CmdId)
      ensures this.id == id && !completed && !event && !ack && response == "" && error == None
    {
      this.id := id;
      completed, event, ack, response, error := false, false, false, "", None;
    }

    /** Completed by a teardown: no ACK, an error, and the waiting sender released. */
    ghost predicate Failed(reason: string)
      reads this
    {
      completed && event && !ack && error == Some(reason)
    }
  }

  class Esp32Client {
    var socket: Option<Gen>
    var generation: Gen
    var pending: PendingArmCommand?
    ghost var registered: seq<PendingArmCommand>

    ghost predicate Valid()
      reads this, pending
    {
      && (forall i :: 0 <= i < |registered| ==> registered[i].id == i)
      && (pending != null ==> !pending.completed && !pending.event && !pending.ack && pending.error == None)
      && (pending != null ==> pending.id < |registered| && registered[pending.id] == pending)
    }

    ghost function Abs(): Client
      reads this
    {
      Client(socket, generation, if pending == null then None else Some(pending.id))
    }

    ghost predicate Registered(command: PendingArmCommand)
      reads this
    {
      command.id < |registered| && registered[command.id] == command
    }

    constructor ()
      ensures Valid() && Abs() == DISCONNECTED && registered == []
    {
      socket, generation, pending, registered := None, 0, null, [];
    }

    method Register() returns (outcome: Registration, command: PendingArmCommand?, sendGeneration: Gen)
      requires Valid()
      modifies this
      ensures Valid() && (Abs(), outcome) == RegisterSection(old(Abs()), |old(registered)|)
      ensures command != null <==> outcome.Accepted?
      ensures command != null ==>
                fresh(command) && command == pending && !command.completed && !command.event && command.error == None
                && registered == old(registered) + [command]
      ensures command == null ==> registered == old(registered)
      ensures sendGeneration == generation
    {
      command := null;
      sendGeneration := generation;
      if socket.None? {
        outcome := NotConnected;
        return;
      }
      if pending != null {
        outcome := AlreadyPending;
        return;
      }
      command := new PendingArmCommand(|registered|);
      registered := registered + [command];
      pending := command;
      outcome := Accepted;
    }

    method Expire(command: PendingArmCommand, reason: string) returns (timedOut: bool)
      requires Valid() && Registered(command)
      modifies this`pending, command
      ensures Valid() && (Abs(), timedOut) == ExpireSection(old(Abs()), command.id, old(command.completed))
      ensures timedOut ==> command.completed && !command.ack && !command.event && command.error == Some(reason)
      ensures !timedOut ==> unchanged(command)
    {
      timedOut := false;
      if !command.completed && pending == command {
        pending := null;
        command.completed := true;
        command.error := Some(reason);
        timedOut := true;
      }
    }

    /** The second check of _route_received_line; the caller reports an unexpected ACK. */
    method RouteAck(g: Gen, ok: bool, rawText: string) returns (unexpected: bool)
      requires Valid()
      modifies this`pending, pending
      ensures Valid() && Abs() == AckSection(old(Abs()), g).0
      ensures unexpected <==> AckSection(old(Abs()), g).1.Unexpected?
      ensures match AckSection(old(Abs()), g).1
              case Completes(id) =>
                && old(pending).id == id
                && old(pending).completed && old(pending).event && old(pending).ack == ok
                && old(pending).response == rawText
                && old(pending).error == if ok then None else Some("ESP32 returned " + rawText)
              case _ => old(pending) != null ==> unchanged(old(pending))
    {
      if g != generation || socket.None? {
        return false;
      }
      var command := pending;
      if command == null {
        return true;
      }
      pending := null;
      command.completed := true;
      command.ack := ok;
      command.response := rawText;
      if !command.ack {
        command.error := Some("ESP32 returned " + rawText);
      }
      command.event := true;
      unexpected := false;
    }

    method ConnectionLost(g: Gen, reason: string) returns (lost: bool)
      requires Valid()
      modifies this`socket, this`pending, pending
      ensures Valid() && Abs() == LostSection(old(Abs()), g).0
      ensures lost <==> LostSection(old(Abs()), g).1.TornDown?
      ensures lost && old(pending) != null ==> old(pending).Failed(reason)
      ensures !lost && old(pending) != null ==> unchanged(old(pending))
    {
      if g != generation || socket != Some(g) {
        return false;
      }
      socket := None;
      ReleasePending(reason);
      lost := true;
    }

    method DisconnectGeneration(g: Gen, reason: string) returns (hadSocket: bool)
      requires Valid()
      modifies this`socket, this`pending, pending
      ensures Valid() && Abs() == DisconnectSection(old(Abs()), g).0
      ensures hadSocket <==>
                DisconnectSection(old(Abs()), g).1.TornDown? && DisconnectSection(old(Abs()), g).1.hadSocket
      ensures g == generation && old(pending) != null ==> old(pending).Failed(reason)
      ensures g != generation && old(pending) != null ==> unchanged(old(pending))
    {
      if g != generation {
        return false;
      }
      hadSocket := socket.Some?;
      socket := None;
      ReleasePending(reason);
    }

    /** connect(), second critical section. */
    method Install()
      requires Valid()
      modifies this`socket, this`generation
      ensures Valid() && Abs() == InstallSection(old(Abs()))
    {
      generation := generation + 1;
      socket := Some(generation);
    }

    /** The tail both teardowns share. */
    method ReleasePending(reason: string)
      requires Valid()
      modifies this`pending, pending
      ensures Valid() && pending == null
      ensures old(pending) != null ==> old(pending).Failed(reason)
    {
      var command := pending;
      pending := null;
      if command != null {
        command.completed := true;
        command.error := Some(reason);
        command.event := true;
      }
    }
  }
}
