/** The Arm command/ACK protocol as a transition system.

    One step is one critical section, one socket call, or one action of the device.
    Anything may happen between two steps: every thread of the backend is a program
    counter in the state, and the device answers arbitrarily late.  `connect` calls may
    overlap each other; the theorems that need them not to say so. */
module AckProtocol {
  import opened Options
  import opened Esp32Sections
  import Seqs

  /** How a pending command came to be completed; an ACK remembers the command it answers. */
  datatype Cause = ByAck(reply: CmdId, ok: bool) | ByTimeout | ByLoss | ByDisconnect

  datatype CallEnd = Returned(ack: bool, error: bool) | RaisedSendFailure | RaisedTimeout

  /** One registered command: the fields of its _PendingArmCommand and its history. */
  datatype Command = Command(
    gen: Gen, completed: bool, ack: bool, error: bool,
    cause: Option<Cause>, completions: nat, end: Option<CallEnd>)

  datatype Line = Ack(cmd: CmdId, ok: bool) | OtherLine

  /** One TCP connection and its receiver thread: command lines the device has not answered,
      lines on their way back, and the ACK the receiver holds between its two checks. */
  datatype Conn = Conn(inbox: seq<CmdId>, wire: seq<Line>, hand: Option<Line>, alive: bool, losses: nat)

  /** The thread inside send_arm_command; `_command_lock` is free exactly in Idle. */
  datatype Sender =
    | Idle
    | Holding(id: CmdId, gen: Gen)
    | SendFailed(id: CmdId, gen: Gen)
    | Waiting(id: CmdId, gen: Gen)
    | TimedOut(id: CmdId, gen: Gen)

  datatype Connector = Opened | ReadGeneration(gen: Gen) | Closed

  datatype State = State(
    client: Client, sender: Sender, commands: seq<Command>,
    conns: map<Gen, Conn>, connectors: map<nat, Connector>, alreadyPending: nat)

  datatype Step =
    | Register
    | Send(ok: bool, delivered: bool)
    | SendFailTeardown
    | WakeUp
    | WaitExpires
    | TimeoutTeardown
    | Receive(gen: Gen)
    | RouteAck(gen: Gen)
    | ConnectionLost(gen: Gen)
    | Disconnect(gen: Gen)
    | ConnectOpen(thread: nat)
    | ConnectRead(thread: nat)
    | ConnectClose(thread: nat)
    | ConnectInstall(thread: nat)
    | DeviceReply(gen: Gen, ok: bool, torn: bool)
    | DeviceOther(gen: Gen)

  const START := State(DISCONNECTED, Idle, [], map[], map[], 0)

  // ---------- effects shared by several steps ----------

  function Complete(commands: seq<Command>, id: CmdId, cause: Cause): seq<Command> {
    if id >= |commands| then commands
    else
      var ack := cause.ByAck? && cause.ok;
      commands[id := commands[id].(completed := true, ack := ack, error := !ack,
                                   cause := Some(cause), completions := commands[id].completions + 1)]
  }

  function CompleteOrphan(commands: seq<Command>, t: Teardown, cause: Cause): seq<Command> {
    if t.TornDown? && t.orphan.Some? then Complete(commands, t.orphan.value, cause) else commands
  }

  /** The CONNECTION event that follows a teardown of generation g. */
  function Report(conns: map<Gen, Conn>, g: Gen, emit: bool): map<Gen, Conn> {
    if emit && g in conns then conns[g := conns[g].(losses := conns[g].losses + 1)] else conns
  }

  function EndCall(commands: seq<Command>, id: CmdId, end: CallEnd): seq<Command> {
    if id >= |commands| then commands else commands[id := commands[id].(end := Some(end))]
  }

  function Result(commands: seq<Command>, id: CmdId): CallEnd {
    if id >= |commands| then Returned(false, false) else Returned(commands[id].ack, commands[id].error)
  }

  /** _disconnect_generation(g, reason, notify). */
  function DisconnectGeneration(s: State, g: Gen, notify: bool): State {
    var (client, t) := DisconnectSection(s.client, g);
    s.(client := client,
       commands := CompleteOrphan(s.commands, t, ByDisconnect),
       conns := Report(s.conns, g, notify && t.TornDown? && t.hadSocket))
  }

  // ---------- the steps ----------

  function RegisterStep(s: State): State {
    if !s.sender.Idle? then s
    else
      var (client, r) := RegisterSection(s.client, |s.commands|);
      match r
      case NotConnected => s
      case AlreadyPending => s.(alreadyPending := s.alreadyPending + 1)
      case Accepted =>
        var g := s.client.generation;
        s.(client := client, sender := Holding(|s.commands|, g),
           commands := s.commands + [Command(g, false, false, false, None, 0, None)])
  }

  /** sendall: it may fail, and in either case the line may or may not have reached the device. */
  function SendStep(s: State, ok: bool, delivered: bool): State {
    if !s.sender.Holding? then s
    else
      var id, g := s.sender.id, s.sender.gen;
      var conns := if delivered && g in s.conns
                   then s.conns[g := s.conns[g].(inbox := s.conns[g].inbox + [id])] else s.conns;
      s.(conns := conns, sender := if ok then Waiting(id, g) else SendFailed(id, g))
  }

  function SendFailTeardownStep(s: State): State {
    if !s.sender.SendFailed? then s
    else
      var s' := DisconnectGeneration(s, s.sender.gen, true);
      s'.(sender := Idle, commands := EndCall(s'.commands, s.sender.id, RaisedSendFailure))
  }

  function WakeUpStep(s: State): State {
    if s.sender.Waiting? && s.sender.id < |s.commands| && s.commands[s.sender.id].completed
    then s.(sender := Idle, commands := EndCall(s.commands, s.sender.id, Result(s.commands, s.sender.id)))
    else s
  }

  function WaitExpiresStep(s: State): State {
    if s.sender.Waiting? && s.sender.id < |s.commands| then
      var id := s.sender.id;
      var (client, expired) := ExpireSection(s.client, id, s.commands[id].completed);
      if expired
      then s.(client := client, commands := Complete(s.commands, id, ByTimeout), sender := TimedOut(id, s.sender.gen))
      else s.(sender := Idle, commands := EndCall(s.commands, id, Result(s.commands, id)))
    else s
  }

  function TimeoutTeardownStep(s: State): State {
    if !s.sender.TimedOut? then s
    else
      var s' := DisconnectGeneration(s, s.sender.gen, true);
      s'.(sender := Idle, commands := EndCall(s'.commands, s.sender.id, RaisedTimeout))
  }

  /** The receiver takes the next line off its connection and makes its first check. */
  function ReceiveStep(s: State, g: Gen): State {
    if g in s.conns && s.conns[g].alive && s.conns[g].hand.None? && s.conns[g].wire != [] then
      var k := s.conns[g];
      var line := k.wire[0];
      var hand := if Current(s.client, g) && line.Ack? then Some(line) else None;
      s.(conns := s.conns[g := k.(wire := k.wire[1..], hand := hand)])
    else s
  }

  function RouteAckStep(s: State, g: Gen): State {
    if g in s.conns && s.conns[g].hand.Some? then
      var k := s.conns[g];
      var (client, r) := AckSection(s.client, g);
      var commands := if r.Completes? && k.hand.value.Ack?
                      then Complete(s.commands, r.id, ByAck(k.hand.value.cmd, k.hand.value.ok)) else s.commands;
      s.(client := client, commands := commands, conns := s.conns[g := k.(hand := None)])
    else s
  }

  function ConnectionLostStep(s: State, g: Gen): State {
    if g in s.conns && s.conns[g].alive && s.conns[g].hand.None? then
      var (client, t) := LostSection(s.client, g);
      s.(client := client,
         commands := CompleteOrphan(s.commands, t, ByLoss),
         conns := Report(s.conns[g := s.conns[g].(alive := false)], g, t.TornDown?))
    else s
  }

  /** disconnect() from any thread, which read generation g at some earlier moment. */
  function DisconnectStep(s: State, g: Gen): State {
    if g <= s.client.generation then DisconnectGeneration(s, g, false) else s
  }

  function ConnectOpenStep(s: State, t: nat): State {
    if t in s.connectors then s else s.(connectors := s.connectors[t := Opened])
  }

  function ConnectReadStep(s: State, t: nat): State {
    if t in s.connectors && s.connectors[t].Opened?
    then s.(connectors := s.connectors[t := ReadGeneration(s.client.generation)]) else s
  }

  function ConnectCloseStep(s: State, t: nat): State {
    if t in s.connectors && s.connectors[t].ReadGeneration?
    then DisconnectGeneration(s, s.connectors[t].gen, false).(connectors := s.connectors[t := Closed]) else s
  }

  function ConnectInstallStep(s: State, t: nat): State {
    if t in s.connectors && s.connectors[t].Closed? then
      var client := InstallSection(s.client);
      s.(client := client, connectors := s.connectors - {t},
         conns := s.conns[client.generation := Conn([], [], None, true, 0)])
    else s
  }

  /** The device answers the oldest unanswered command line of one connection, once.
      A torn reply reaches the backend as a line that is no ACK. */
  function DeviceReplyStep(s: State, g: Gen, ok: bool, torn: bool): State {
    if g in s.conns && s.conns[g].inbox != [] then
      var k := s.conns[g];
      var line := if torn then OtherLine else Ack(k.inbox[0], ok);
      s.(conns := s.conns[g := k.(inbox := k.inbox[1..], wire := k.wire + [line])])
    else s
  }

  function DeviceOtherStep(s: State, g: Gen): State {
    if g in s.conns then s.(conns := s.conns[g := s.conns[g].(wire := s.conns[g].wire + [OtherLine])]) else s
  }

  function Next(s: State, step: Step): State {
    match step
    case Register => RegisterStep(s)
    case Send(ok, delivered) => SendStep(s, ok, delivered)
    case SendFailTeardown => SendFailTeardownStep(s)
    case WakeUp => WakeUpStep(s)
    case WaitExpires => WaitExpiresStep(s)
    case TimeoutTeardown => TimeoutTeardownStep(s)
    case Receive(g) => ReceiveStep(s, g)
    case RouteAck(g) => RouteAckStep(s, g)
    case ConnectionLost(g) => ConnectionLostStep(s, g)
    case Disconnect(g) => DisconnectStep(s, g)
    case ConnectOpen(t) => ConnectOpenStep(s, t)
    case ConnectRead(t) => ConnectReadStep(s, t)
    case ConnectClose(t) => ConnectCloseStep(s, t)
    case ConnectInstall(t) => ConnectInstallStep(s, t)
    case DeviceReply(g, ok, torn) => DeviceReplyStep(s, g, ok, torn)
    case DeviceOther(g) => DeviceOtherStep(s, g)
  }

  /** The state after a run; a step that is not enabled changes nothing. */
  function Run(steps: seq<Step>): State {
    if steps == [] then START else Next(Run(steps[..|steps| - 1]), steps[|steps| - 1])
  }

  // ---------- the invariant ----------

  function AckCommands(lines: seq<Line>): seq<CmdId> {
    if lines == [] then []
    else (if lines[0].Ack? then [lines[0].cmd] else []) + AckCommands(lines[1..])
  }

  /** Commands of one connection whose ACK has not been routed yet, oldest first. */
  function Outstanding(k: Conn): seq<CmdId> {
    (if k.hand.Some? then AckCommands([k.hand.value]) else []) + AckCommands(k.wire) + k.inbox
  }

  predicate Holds(s: Sender, id: CmdId) {
    !s.Idle? && s.id == id
  }

  predicate Live(s: State, g: Gen) {
    s.client.socket == Some(g)
  }

  predicate CommandOk(s: State, id: CmdId)
    requires id < |s.commands|
  {
    var c := s.commands[id];
    && c.gen <= s.client.generation
    && c.completions == (if s.client.pending == Some(id) then 0 else 1)
    && (c.completed <==> s.client.pending != Some(id))
    && (c.completed <==> c.cause.Some?)
    && (c.ack <==> c.cause.Some? && c.cause.value.ByAck? && c.cause.value.ok)
    && (c.completed ==> (c.error <==> !c.ack))
    && (c.cause.Some? && c.cause.value.ByAck? ==> c.cause.value.reply == id)
    && (c.end.None? <==> Holds(s.sender, id))
    && (c.end.Some? && c.end.value.Returned? ==> c.completed && c.end.value == Returned(c.ack, c.error))
  }

  /** A command that ended without its ACK leaves its generation dead. */
  predicate DeadUnlessAcked(s: State, id: CmdId)
    requires id < |s.commands|
  {
    var c := s.commands[id];
    && (c.cause.Some? && (c.cause.value.ByLoss? || c.cause.value.ByDisconnect?) ==> !Live(s, c.gen))
    && (c.cause == Some(ByTimeout) ==> s.sender == TimedOut(id, c.gen) || !Live(s, c.gen))
    && (c.cause.None? ==> Holds(s.sender, id) || !Live(s, c.gen))
  }

  predicate SenderOk(s: State) {
    s.sender.Idle? ||
    var id, g := s.sender.id, s.sender.gen;
    && id < |s.commands| && s.commands[id].gen == g
    && (s.client.pending.Some? ==> s.client.pending == Some(id))
    && (s.sender.TimedOut? <==> s.commands[id].cause == Some(ByTimeout))
    && (s.sender.Holding? && Live(s, g) ==> s.client.pending == Some(id))
  }

  /** On the live connection at most one ACK is outstanding, and it is the current command's. */
  predicate OwnerOk(s: State, g: Gen)
    requires g in s.conns
  {
    var o := Outstanding(s.conns[g]);
    o == [] ||
    (!s.sender.Idle? && !s.sender.Holding? && s.sender.gen == g && o == [s.sender.id]
     && (s.client.pending == Some(s.sender.id) || s.sender.TimedOut?))
  }

  ghost predicate Inv(s: State) {
    && (s.client.socket.Some? ==> s.client.socket.value == s.client.generation)
    && (forall g :: g in s.conns <==> 1 <= g <= s.client.generation)
    && (s.client.socket.Some? ==> s.client.generation in s.conns)
    && (s.client.pending.Some? ==> s.client.pending.value < |s.commands|)
    && (forall id :: 0 <= id < |s.commands| ==> CommandOk(s, id) && DeadUnlessAcked(s, id))
    && SenderOk(s)
    && (forall g :: g in s.conns ==>
          s.conns[g].losses <= 1
          && (Live(s, g) ==> s.conns[g].losses == 0 && OwnerOk(s, g))
          && (s.conns[g].hand.Some? ==> s.conns[g].hand.value.Ack?))
  }

  lemma {:induction false} AckCommandsAppend(a: seq<Line>, b: seq<Line>)
    ensures AckCommands(a + b) == AckCommands(a) + AckCommands(b)
  {
    if a == [] {
      assert a + b == b;
    } else {
      var first := if a[0].Ack? then [a[0].cmd] else [];
      Seqs.TailOfConcat(a, b);
      AckCommandsAppend(a[1..], b);
      Seqs.Assoc(first, AckCommands(a[1..]), AckCommands(b));
    }
  }

  /** The commands after the pending one, if any, is completed for the given cause. */
  function Orphaned(s: State, cause: Cause): seq<Command> {
    if s.client.pending.Some? then Complete(s.commands, s.client.pending.value, cause) else s.commands
  }

  /** Clearing the socket and completing the orphan keeps the invariant, whatever the cause. */
  lemma TeardownKeepsInv(s: State, cause: Cause, s': State)
    requires Inv(s) && (cause.ByLoss? || cause.ByDisconnect?)
    requires s' == s.(client := s.client.(socket := None, pending := None), conns := s'.conns,
                      commands := Orphaned(s, cause))
    requires s'.conns.Keys == s.conns.Keys
    requires forall g :: g in s.conns ==> s'.conns[g].hand == s.conns[g].hand && s'.conns[g].losses <= 1
    ensures Inv(s')
  {
    forall id | 0 <= id < |s'.commands| ensures CommandOk(s', id) && DeadUnlessAcked(s', id) {
      assert CommandOk(s, id) && DeadUnlessAcked(s, id);
    }
    if !s.sender.Idle? {
      assert CommandOk(s, s.sender.id);
    }
    assert SenderOk(s');
  }

  lemma DisconnectKeepsInv(s: State, g: Gen, notify: bool)
    requires Inv(s)
    ensures Inv(DisconnectGeneration(s, g, notify))
  {
    var s' := DisconnectGeneration(s, g, notify);
    if g == s.client.generation {
      TeardownKeepsInv(s, ByDisconnect, s');
    } else {
      assert s' == s;
    }
  }

  /** Releasing `_command_lock`: the command is completed, or its generation is dead. */
  lemma EndCallKeepsInv(s: State, end: CallEnd)
    requires Inv(s) && !s.sender.Idle?
    requires end.Returned? ==>
               s.sender.Waiting? && s.commands[s.sender.id].completed && end == Result(s.commands, s.sender.id)
    requires !end.Returned? ==> !Live(s, s.sender.gen)
    ensures Inv(s.(sender := Idle, commands := EndCall(s.commands, s.sender.id, end)))
  {
    var s' := s.(sender := Idle, commands := EndCall(s.commands, s.sender.id, end));
    forall id | 0 <= id < |s'.commands| ensures CommandOk(s', id) && DeadUnlessAcked(s', id) {
      assert CommandOk(s, id) && DeadUnlessAcked(s, id);
    }
    assert CommandOk(s, s.sender.id);
  }

  lemma RegisterKeepsInv(s: State)
    requires Inv(s)
    ensures Inv(RegisterStep(s))
  {
    var s' := RegisterStep(s);
    forall id | 0 <= id < |s'.commands| ensures CommandOk(s', id) && DeadUnlessAcked(s', id) {
      if id < |s.commands| {
        assert CommandOk(s, id) && DeadUnlessAcked(s, id);
        assert s'.commands[id] == s.commands[id];
      }
    }
  }

  lemma SendKeepsInv(s: State, ok: bool, delivered: bool)
    requires Inv(s)
    ensures Inv(SendStep(s, ok, delivered))
  {
    var s' := SendStep(s, ok, delivered);
    if s.sender.Holding? {
      forall id | 0 <= id < |s'.commands| ensures CommandOk(s', id) && DeadUnlessAcked(s', id) {
        assert CommandOk(s, id) && DeadUnlessAcked(s, id);
      }
    }
  }

  lemma SendFailTeardownKeepsInv(s: State)
    requires Inv(s)
    ensures Inv(SendFailTeardownStep(s))
  {
    if s.sender.SendFailed? {
      DisconnectKeepsInv(s, s.sender.gen, true);
      var s' := DisconnectGeneration(s, s.sender.gen, true);
      EndCallKeepsInv(s', RaisedSendFailure);
    }
  }

  lemma WakeUpKeepsInv(s: State)
    requires Inv(s)
    ensures Inv(WakeUpStep(s))
  {
    if WakeUpStep(s) != s {
      EndCallKeepsInv(s, Result(s.commands, s.sender.id));
    }
  }

  lemma WaitExpiresKeepsInv(s: State)
    requires Inv(s)
    ensures Inv(WaitExpiresStep(s))
  {
    if s.sender.Waiting? {
      var s' := WaitExpiresStep(s);
      assert CommandOk(s, s.sender.id);
      if s'.sender.Idle? {
        EndCallKeepsInv(s, Result(s.commands, s.sender.id));
      } else {
        forall id | 0 <= id < |s'.commands| ensures CommandOk(s', id) && DeadUnlessAcked(s', id) {
          assert CommandOk(s, id) && DeadUnlessAcked(s, id);
        }
      }
    }
  }

  lemma TimeoutTeardownKeepsInv(s: State)
    requires Inv(s)
    ensures Inv(TimeoutTeardownStep(s))
  {
    if s.sender.TimedOut? {
      DisconnectKeepsInv(s, s.sender.gen, true);
      var s' := DisconnectGeneration(s, s.sender.gen, true);
      EndCallKeepsInv(s', RaisedTimeout);
    }
  }

  /** Steps that only move lines along one connection. */
  lemma ConnUpdateKeepsInv(s: State, g: Gen, k: Conn)
    requires Inv(s) && g in s.conns
    requires k.losses == s.conns[g].losses
    requires k.hand.Some? ==> k.hand.value.Ack?
    requires Live(s, g) ==> Outstanding(k) == Outstanding(s.conns[g]) || Outstanding(k) == []
    ensures Inv(s.(conns := s.conns[g := k]))
  {
    var s' := s.(conns := s.conns[g := k]);
    forall id | 0 <= id < |s'.commands| ensures CommandOk(s', id) && DeadUnlessAcked(s', id) {
      assert CommandOk(s, id) && DeadUnlessAcked(s, id);
    }
  }

  lemma ReceiveKeepsInv(s: State, g: Gen)
    requires Inv(s)
    ensures Inv(ReceiveStep(s, g))
  {
    if ReceiveStep(s, g) != s {
      var k := s.conns[g];
      assert AckCommands(k.wire) == AckCommands([k.wire[0]]) + AckCommands(k.wire[1..]);
      ConnUpdateKeepsInv(s, g, ReceiveStep(s, g).conns[g]);
    }
  }

  /** The owner step: the ACK in the receiver's hand can only complete the command it answers. */
  lemma RouteAckKeepsInv(s: State, g: Gen)
    requires Inv(s)
    ensures Inv(RouteAckStep(s, g))
  {
    if g in s.conns && s.conns[g].hand.Some? {
      var k := s.conns[g];
      var s' := RouteAckStep(s, g);
      var (client, r) := AckSection(s.client, g);
      if r.Completes? {
        assert Live(s, g) && OwnerOk(s, g);
        assert Outstanding(k)[0] == k.hand.value.cmd;
        assert r.id == k.hand.value.cmd == s.sender.id;
        assert Outstanding(s'.conns[g]) == Outstanding(k)[1..];
        forall id | 0 <= id < |s'.commands| ensures CommandOk(s', id) && DeadUnlessAcked(s', id) {
          assert CommandOk(s, id) && DeadUnlessAcked(s, id);
        }
        assert CommandOk(s, r.id);
        assert SenderOk(s');
      } else {
        if Live(s, g) {
          assert Outstanding(k)[0] == k.hand.value.cmd;
          assert Outstanding(k.(hand := None)) == Outstanding(k)[1..];
        }
        ConnUpdateKeepsInv(s, g, k.(hand := None));
      }
    }
  }

  lemma ConnectionLostKeepsInv(s: State, g: Gen)
    requires Inv(s)
    ensures Inv(ConnectionLostStep(s, g))
  {
    var s' := ConnectionLostStep(s, g);
    if g in s.conns && s.conns[g].alive && s.conns[g].hand.None? {
      if Live(s, g) {
        TeardownKeepsInv(s, ByLoss, s');
      } else {
        ConnUpdateKeepsInv(s, g, s.conns[g].(alive := false));
      }
    }
  }

  lemma ConnectInstallKeepsInv(s: State, t: nat)
    requires Inv(s)
    ensures Inv(ConnectInstallStep(s, t))
  {
    var s' := ConnectInstallStep(s, t);
    if s' != s {
      forall id | 0 <= id < |s'.commands| ensures CommandOk(s', id) && DeadUnlessAcked(s', id) {
        assert CommandOk(s, id) && DeadUnlessAcked(s, id);
      }
      if !s.sender.Idle? {
        assert CommandOk(s, s.sender.id);
      }
    }
  }

  /** No other client field moves, so opening a candidate or reading the generation is harmless. */
  lemma ConnectorKeepsInv(s: State, connectors: map<nat, Connector>)
    requires Inv(s)
    ensures Inv(s.(connectors := connectors))
  {
    var s' := s.(connectors := connectors);
    forall id | 0 <= id < |s'.commands| ensures CommandOk(s', id) && DeadUnlessAcked(s', id) {
      assert CommandOk(s, id) && DeadUnlessAcked(s, id);
    }
  }

  lemma DeviceReplyKeepsInv(s: State, g: Gen, ok: bool, torn: bool)
    requires Inv(s)
    ensures Inv(DeviceReplyStep(s, g, ok, torn))
  {
    if g in s.conns && s.conns[g].inbox != [] {
      var k := s.conns[g];
      var k' := DeviceReplyStep(s, g, ok, torn).conns[g];
      var line := if torn then OtherLine else Ack(k.inbox[0], ok);
      AckCommandsAppend(k.wire, [line]);
      assert k.inbox == [k.inbox[0]] + k.inbox[1..];
      if Live(s, g) {
        assert OwnerOk(s, g) && |Outstanding(k)| <= 1;
        assert Outstanding(k') == if torn then [] else Outstanding(k);
      }
      ConnUpdateKeepsInv(s, g, k');
    }
  }

  lemma DeviceOtherKeepsInv(s: State, g: Gen)
    requires Inv(s)
    ensures Inv(DeviceOtherStep(s, g))
  {
    if g in s.conns {
      AckCommandsAppend(s.conns[g].wire, [OtherLine]);
      ConnUpdateKeepsInv(s, g, DeviceOtherStep(s, g).conns[g]);
    }
  }

  lemma NextKeepsInv(s: State, step: Step)
    requires Inv(s)
    ensures Inv(Next(s, step))
  {
    match step
    case Register => RegisterKeepsInv(s);
    case Send(ok, delivered) => SendKeepsInv(s, ok, delivered);
    case SendFailTeardown => SendFailTeardownKeepsInv(s);
    case WakeUp => WakeUpKeepsInv(s);
    case WaitExpires => WaitExpiresKeepsInv(s);
    case TimeoutTeardown => TimeoutTeardownKeepsInv(s);
    case Receive(g) => ReceiveKeepsInv(s, g);
    case RouteAck(g) => RouteAckKeepsInv(s, g);
    case ConnectionLost(g) => ConnectionLostKeepsInv(s, g);
    case Disconnect(g) => DisconnectKeepsInv(s, g, false);
    case ConnectOpen(t) => ConnectorKeepsInv(s, ConnectOpenStep(s, t).connectors);
    case ConnectRead(t) => ConnectorKeepsInv(s, ConnectReadStep(s, t).connectors);
    case ConnectClose(t) =>
      if ConnectCloseStep(s, t) != s {
        DisconnectKeepsInv(s, s.connectors[t].gen, false);
        ConnectorKeepsInv(DisconnectGeneration(s, s.connectors[t].gen, false), s.connectors[t := Closed]);
      }
    case ConnectInstall(t) => ConnectInstallKeepsInv(s, t);
    case DeviceReply(g, ok, torn) => DeviceReplyKeepsInv(s, g, ok, torn);
    case DeviceOther(g) => DeviceOtherKeepsInv(s, g);
  }

  lemma {:induction false} RunKeepsInv(steps: seq<Step>)
    ensures Inv(Run(steps))
  {
    if steps != [] {
      RunKeepsInv(steps[..|steps| - 1]);
      NextKeepsInv(Run(steps[..|steps| - 1]), steps[|steps| - 1]);
    }
  }
}
