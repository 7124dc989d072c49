/** What the steps of the Arm protocol bring about, in every run: the other half of what they keep. */
module AckProgress {
  import opened Options
  import opened Esp32Sections
  import opened AckProtocol
  import AckTheorems

  // ---------- teardown ----------

  /** Command c after it was completed without an ACK. */
  function Failed(c: Command, cause: Cause): Command {
    c.(completed := true, ack := false, error := true, cause := Some(cause), completions := 1)
  }

  /** The pending command of s, and only it, has failed for the given cause, and nothing is up or
      pending any more. */
  ghost predicate TornDown(s: State, s': State, cause: Cause) {
    && s'.client.socket.None? && s'.client.pending.None? && s'.client.generation == s.client.generation
    && |s'.commands| == |s.commands|
    && forall id :: 0 <= id < |s.commands| ==>
         s'.commands[id] == if s.client.pending == Some(id) then Failed(s.commands[id], cause) else s.commands[id]
  }

  /** In every run the receiver of the live connection that finds it lost takes it down: nothing is
      up or pending any more, the loss is reported once, and the command that was pending has
      failed because of it. */
  lemma LossTearsDown(steps: seq<Step>, g: Gen, s: State, s': State)
    requires s == Run(steps) && s' == Run(steps + [ConnectionLost(g)])
    requires s.client.socket == Some(g) && g in s.conns && s.conns[g].alive && s.conns[g].hand.None?
    ensures TornDown(s, s', ByLoss)
    ensures g in s'.conns && s'.conns[g].losses == 1 && !s'.conns[g].alive
    ensures s'.sender == s.sender
  {
    AckTheorems.OneMore(steps, ConnectionLost(g));
    RunKeepsInv(steps);
    if s.client.pending.Some? {
      assert CommandOk(s, s.client.pending.value);
    }
  }

  /** And the receiver of any other connection changes nothing but its own. */
  lemma StaleLossChangesNothing(steps: seq<Step>, g: Gen, s: State, s': State)
    requires s == Run(steps) && s' == Run(steps + [ConnectionLost(g)]) && s.client.socket != Some(g)
    ensures s'.client == s.client && s'.commands == s.commands && s'.sender == s.sender
    ensures s'.conns.Keys == s.conns.Keys
    ensures forall h :: h in s.conns ==> s'.conns[h].losses == s.conns[h].losses
    ensures forall h :: h in s.conns && h != g ==> s'.conns[h] == s.conns[h]
  {
    AckTheorems.OneMore(steps, ConnectionLost(g));
    RunKeepsInv(steps);
  }

  /** disconnect() of the current generation takes it down without reporting it; of an older one it
      changes nothing. */
  lemma DisconnectTearsDown(steps: seq<Step>, g: Gen, s: State, s': State)
    requires s == Run(steps) && s' == Run(steps + [Disconnect(g)]) && g <= s.client.generation
    ensures if g == s.client.generation
            then TornDown(s, s', ByDisconnect) && s'.conns == s.conns && s'.sender == s.sender
            else s' == s
  {
    AckTheorems.OneMore(steps, Disconnect(g));
    RunKeepsInv(steps);
    if s.client.pending.Some? {
      assert CommandOk(s, s.client.pending.value);
    }
  }

  // ---------- connecting ----------

  lemma TwoMore(steps: seq<Step>, a: Step, b: Step)
    ensures Run(steps + [a, b]) == Next(Next(Run(steps), a), b)
  {
    assert (steps + [a]) + [b] == steps + [a, b];
    AckTheorems.OneMore(steps, a);
    AckTheorems.OneMore(steps + [a], b);
  }

  lemma FourMore(steps: seq<Step>, a: Step, b: Step, c: Step, d: Step)
    ensures Run(steps + [a, b, c, d]) == Next(Next(Next(Next(Run(steps), a), b), c), d)
  {
    assert (steps + [a, b]) + [c, d] == steps + [a, b, c, d];
    TwoMore(steps, a, b);
    TwoMore(steps + [a, b], c, d);
  }

  lemma CloseTearsDown(s: State, t: nat)
    requires Inv(s) && t in s.connectors && s.connectors[t] == ReadGeneration(s.client.generation)
    ensures TornDown(s, Next(s, ConnectClose(t)), ByDisconnect)
    ensures Next(s, ConnectClose(t)).conns == s.conns && Next(s, ConnectClose(t)).sender == s.sender
    ensures t in Next(s, ConnectClose(t)).connectors && Next(s, ConnectClose(t)).connectors[t] == Closed
  {
    if s.client.pending.Some? {
      assert CommandOk(s, s.client.pending.value);
    }
  }

  /** The state after one connect call, made without another step in between. */
  ghost predicate Connected(s: State, s': State) {
    && s'.client == Client(Some(s.client.generation + 1), s.client.generation + 1, None)
    && s'.conns == s.conns[s.client.generation + 1 := Conn([], [], None, true, 0)]
    && |s'.commands| == |s.commands| && s'.sender == s.sender
    && forall id :: 0 <= id < |s.commands| ==>
         s'.commands[id] ==
         if s.client.pending == Some(id) then Failed(s.commands[id], ByDisconnect) else s.commands[id]
  }

  /** connect() brings a new generation up, on a new connection with nothing pending, and fails the
      command that was pending on the old one. */
  lemma ConnectBringsUp(steps: seq<Step>, t: nat, s: State, s': State)
    requires s == Run(steps) && t !in s.connectors
    requires s' == Run(steps + [ConnectOpen(t), ConnectRead(t), ConnectClose(t), ConnectInstall(t)])
    ensures Connected(s, s')
  {
    RunKeepsInv(steps);
    FourMore(steps, ConnectOpen(t), ConnectRead(t), ConnectClose(t), ConnectInstall(t));
    var s1 := Next(s, ConnectOpen(t));
    var s2 := Next(s1, ConnectRead(t));
    NextKeepsInv(s, ConnectOpen(t));
    NextKeepsInv(s1, ConnectRead(t));
    CloseTearsDown(s2, t);
    InstallBringsUp(s2, Next(s2, ConnectClose(t)), t);
  }

  lemma InstallBringsUp(s: State, c: State, t: nat)
    requires TornDown(s, c, ByDisconnect) && c.conns == s.conns && c.sender == s.sender
    requires t in c.connectors && c.connectors[t] == Closed
    ensures Connected(s, Next(c, ConnectInstall(t)))
  {
  }

  // ---------- a call ----------

  /** send_arm_command registers exactly when a connection is up and nothing is pending: the new
      command is the pending one, on the live generation. */
  lemma RegisterIff(steps: seq<Step>, s: State, s': State)
    requires s == Run(steps) && s' == Run(steps + [Register]) && s.sender.Idle?
    ensures if s.client.socket.Some? && s.client.pending.None?
            then s'.client == s.client.(pending := Some(|s.commands|))
                 && s'.sender == Holding(|s.commands|, s.client.generation)
                 && s'.commands == s.commands + [Command(s.client.generation, false, false, false, None, 0, None)]
            else s'.client == s.client && s'.sender == s.sender && s'.commands == s.commands
                 && s'.alreadyPending == s.alreadyPending + (if s.client.socket.Some? then 1 else 0)
    ensures s'.conns == s.conns
  {
    AckTheorems.OneMore(steps, Register);
  }

  /** Connection g is up with nothing on it. */
  predicate Quiet(s: State, g: Gen) {
    && s.client == Client(Some(g), g, None) && s.sender.Idle?
    && g in s.conns && s.conns[g].alive && s.conns[g].hand.None? && s.conns[g].inbox == [] && s.conns[g].wire == []
  }

  /** Command id is pending on connection k of generation g. */
  predicate Asked(s: State, g: Gen, id: CmdId, sender: Sender, k: Conn) {
    && s.client == Client(Some(g), g, Some(id)) && s.sender == sender && g in s.conns && s.conns[g] == k
    && |s.commands| == id + 1 && s.commands[id] == Command(g, false, false, false, None, 0, None)
  }

  lemma AskAndDeliver(s: State, g: Gen)
    requires Quiet(s, g)
    ensures Asked(Next(Next(s, Register), Send(true, true)), g, |s.commands|, Waiting(|s.commands|, g),
                  s.conns[g].(inbox := [|s.commands|]))
  {
  }

  lemma ReplyAndReceive(s: State, g: Gen, id: CmdId, k: Conn, ok: bool)
    requires Asked(s, g, id, Waiting(id, g), k) && k.alive && k.hand.None? && k.inbox == [id] && k.wire == []
    ensures Asked(Next(Next(s, DeviceReply(g, ok, false)), Receive(g)), g, id, Waiting(id, g),
                  k.(inbox := [], wire := [], hand := Some(Ack(id, ok))))
  {
    var s1 := Next(s, DeviceReply(g, ok, false));
    assert s1.conns[g] == k.(inbox := [], wire := [Ack(id, ok)]);
    assert [Ack(id, ok)][1..] == [];
  }

  lemma RouteAndWake(s: State, g: Gen, id: CmdId, k: Conn, ok: bool)
    requires Asked(s, g, id, Waiting(id, g), k) && k.hand == Some(Ack(id, ok))
    ensures var s' := Next(Next(s, RouteAck(g)), WakeUp);
            && s'.client == Client(Some(g), g, None) && s'.sender.Idle?
            && g in s'.conns && s'.conns[g] == k.(hand := None)
            && |s'.commands| == id + 1
            && s'.commands[id] == Command(g, true, ok, !ok, Some(ByAck(id, ok)), 1, Some(Returned(ok, !ok)))
  {
    var s1 := Next(s, RouteAck(g));
    assert s1.commands[id] == Command(g, true, ok, !ok, Some(ByAck(id, ok)), 1, None);
  }

  /** The six steps of an undisturbed call. */
  function Call(g: Gen, ok: bool): seq<Step> {
    [Register, Send(true, true), DeviceReply(g, ok, false), Receive(g), RouteAck(g), WakeUp]
  }

  lemma CallIs(steps: seq<Step>, g: Gen, ok: bool)
    ensures Run(steps + Call(g, ok)) ==
            Next(Next(Next(Next(Next(Next(Run(steps), Register), Send(true, true)), DeviceReply(g, ok, false)),
                                Receive(g)), RouteAck(g)), WakeUp)
  {
    var c := Call(g, ok);
    assert steps + c == (steps + [c[0], c[1], c[2], c[3]]) + [c[4], c[5]];
    FourMore(steps, c[0], c[1], c[2], c[3]);
    TwoMore(steps + [c[0], c[1], c[2], c[3]], c[4], c[5]);
  }

  /** An undisturbed call, after any run that leaves the link quiet, returns the device's own answer,
      and leaves the link up and quiet for the next one. */
  lemma CallReturnsReply(steps: seq<Step>, g: Gen, ok: bool, s: State, s': State)
    requires s == Run(steps) && s' == Run(steps + Call(g, ok)) && Quiet(s, g)
    ensures Quiet(s', g) && |s'.commands| == |s.commands| + 1
    ensures s'.commands[|s.commands|] ==
            Command(g, true, ok, !ok, Some(ByAck(|s.commands|, ok)), 1, Some(Returned(ok, !ok)))
  {
    CallIs(steps, g, ok);
    var id := |s.commands|;
    var s2 := Next(Next(s, Register), Send(true, true));
    AskAndDeliver(s, g);
    var s4 := Next(Next(s2, DeviceReply(g, ok, false)), Receive(g));
    ReplyAndReceive(s2, g, id, s2.conns[g], ok);
    RouteAndWake(s4, g, id, s4.conns[g], ok);
  }

  // ---------- calls that fail ----------

  /** A wait that expires on an uncompleted command raises a timeout, completes the command with it,
      and takes its connection down if it is still the current one. */
  lemma TimeoutRaises(steps: seq<Step>, id: CmdId, g: Gen, s: State, s': State)
    requires s == Run(steps) && s' == Run(steps + [WaitExpires, TimeoutTeardown])
    requires s.sender == Waiting(id, g) && id < |s.commands| && !s.commands[id].completed
    ensures s'.sender.Idle? && s'.client.pending.None? && |s'.commands| == |s.commands|
    ensures s'.commands[id] == Failed(s.commands[id], ByTimeout).(end := Some(RaisedTimeout))
    ensures s'.client.socket == if g == s.client.generation then None else s.client.socket
    ensures g == s.client.generation && s.client.socket.Some? ==> g in s'.conns && s'.conns[g].losses == 1
  {
    RunKeepsInv(steps);
    TwoMore(steps, WaitExpires, TimeoutTeardown);
    assert CommandOk(s, id);
    var s1 := Next(s, WaitExpires);
    assert s1.client.pending.None? && s1.commands[id] == Failed(s.commands[id], ByTimeout);
  }

  /** A failed send raises, and takes its connection down, with a report, if it is still up. */
  lemma SendFailureRaises(steps: seq<Step>, id: CmdId, g: Gen, s: State, s': State)
    requires s == Run(steps) && s' == Run(steps + [SendFailTeardown]) && s.sender == SendFailed(id, g)
    ensures s'.sender.Idle? && id < |s'.commands| == |s.commands| && s'.commands[id].end == Some(RaisedSendFailure)
    ensures if g == s.client.generation then s'.client.socket.None? && s'.client.pending.None?
            else s'.client == s.client
    ensures s.client.socket == Some(g) ==> g in s'.conns && s'.conns[g].losses == 1
    ensures s.client.pending == Some(id) && g == s.client.generation ==>
              s'.commands[id] == Failed(s.commands[id], ByDisconnect).(end := Some(RaisedSendFailure))
  {
    RunKeepsInv(steps);
    AckTheorems.OneMore(steps, SendFailTeardown);
    assert CommandOk(s, id);
  }

  /** A wait on a completed command returns what completed it, whether it is woken or expires. */
  lemma CompletedReturns(steps: seq<Step>, step: Step, id: CmdId, g: Gen, s: State, s': State)
    requires s == Run(steps) && s' == Run(steps + [step]) && (step == WakeUp || step == WaitExpires)
    requires s.sender == Waiting(id, g) && id < |s.commands| && s.commands[id].completed
    ensures s'.sender.Idle? && s'.client == s.client && s'.conns == s.conns
    ensures var c := s.commands[id];
            s'.commands == s.commands[id := c.(end := Some(Returned(c.ack, c.error)))]
  {
    AckTheorems.OneMore(steps, step);
  }
}
