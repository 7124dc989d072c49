/** What the end of a send_arm_command call says about the device's reply. */
module AckOutcomes {
  import Seqs
  import opened Options
  import opened Esp32Sections
  import opened AckProtocol
  import AckTheorems

  /** Every command is still there, and a call that has ended has ended the same way. */
  predicate EndsKept(before: seq<Command>, after: seq<Command>) {
    |before| <= |after|
    && forall id :: 0 <= id < |before| && before[id].end.Some? ==> after[id].end == before[id].end
  }

  lemma EndsStay(s: State, step: Step)
    requires Inv(s)
    ensures EndsKept(s.commands, Next(s, step).commands)
  {
    if !s.sender.Idle? {
      assert CommandOk(s, s.sender.id);
    }
  }

  /** How a call ended never changes afterwards, whatever steps follow. */
  lemma {:induction false} EndsAreFinal(steps: seq<Step>, more: seq<Step>)
    ensures EndsKept(Run(steps).commands, Run(steps + more).commands)
    decreases |more|
  {
    if more == [] {
      Seqs.EmptyConcat(steps);
    } else {
      var init := more[..|more| - 1];
      EndsAreFinal(steps, init);
      AckTheorems.RunAfter(steps, more);
      RunKeepsInv(steps + init);
      EndsStay(Run(steps + init), more[|more| - 1]);
    }
  }

  /** The call that timed out had its command completed by the timeout. */
  ghost predicate TimeoutsAreTimeouts(s: State) {
    forall id :: 0 <= id < |s.commands| && s.commands[id].end == Some(RaisedTimeout) ==>
      s.commands[id].cause == Some(ByTimeout)
  }

  /** Only a command that is still pending is ever completed. */
  predicate CausesKept(before: seq<Command>, after: seq<Command>) {
    |before| <= |after|
    && forall id :: 0 <= id < |before| && before[id].cause.Some? ==> after[id].cause == before[id].cause
  }

  lemma CausesAreFinal(s: State, step: Step)
    requires Inv(s)
    ensures CausesKept(s.commands, Next(s, step).commands)
  {
    if s.client.pending.Some? {
      assert CommandOk(s, s.client.pending.value);
    }
  }

  /** Only the timeout teardown ends a call with a timeout. */
  lemma OnlyTimeoutRaises(s: State, step: Step, id: CmdId)
    requires Inv(s) && id < |Next(s, step).commands|
    requires Next(s, step).commands[id].end == Some(RaisedTimeout)
    ensures id < |s.commands|
    ensures s.commands[id].end == Some(RaisedTimeout) || s.commands[id].cause == Some(ByTimeout)
  {
    match step
    case Register =>
    case TimeoutTeardown =>
      if s.sender.TimedOut? {
        assert CommandOk(s, s.sender.id);
      }
    case _ =>
  }

  lemma {:induction false} RunKeepsTimeouts(steps: seq<Step>)
    ensures TimeoutsAreTimeouts(Run(steps))
  {
    if steps != [] {
      var before, step := steps[..|steps| - 1], steps[|steps| - 1];
      RunKeepsTimeouts(before);
      RunKeepsInv(before);
      var s, s' := Run(before), Run(steps);
      CausesAreFinal(s, step);
      forall id | 0 <= id < |s'.commands| && s'.commands[id].end == Some(RaisedTimeout)
        ensures s'.commands[id].cause == Some(ByTimeout)
      {
        OnlyTimeoutRaises(s, step, id);
      }
    }
  }

  /** A call returns with `ack` set exactly when an OK reply to its own command completed the
      command and the send itself did not fail. */
  lemma AckedIffOkReply(steps: seq<Step>, id: CmdId)
    requires id < |Run(steps).commands| && Run(steps).commands[id].end.Some?
    ensures var c := Run(steps).commands[id];
            (c.end.value.Returned? && c.end.value.ack) <==>
            (c.cause == Some(ByAck(id, true)) && !c.end.value.RaisedSendFailure?)
  {
    RunKeepsInv(steps);
    RunKeepsTimeouts(steps);
    EndSaysAck(Run(steps), id);
  }

  lemma EndSaysAck(s: State, id: CmdId)
    requires id < |s.commands| && CommandOk(s, id) && TimeoutsAreTimeouts(s) && s.commands[id].end.Some?
    ensures var c := s.commands[id];
            (c.end.value.Returned? && c.end.value.ack) <==>
            (c.cause == Some(ByAck(id, true)) && !c.end.value.RaisedSendFailure?)
  {
  }

  // ---------- runs in which a failed send never delivers its line ----------

  ghost predicate FailedSendsDeliverNothing(steps: seq<Step>) {
    forall i :: 0 <= i < |steps| ==> steps[i] != Send(false, true)
  }

  /** The line of command id has not been sent, or its send has failed. */
  predicate NotSent(s: State, id: CmdId) {
    || ((s.sender.Holding? || s.sender.SendFailed?) && s.sender.id == id)
    || (id < |s.commands| && s.commands[id].end == Some(RaisedSendFailure))
  }

  /** No connection owes an ACK to the command. */
  ghost predicate Unowed(s: State, id: CmdId) {
    forall g :: g in s.conns ==> id !in Outstanding(s.conns[g])
  }

  predicate AckedBySomeone(c: Command) {
    c.cause.Some? && c.cause.value.ByAck?
  }

  ghost predicate UnsentIsUnacked(s: State) {
    && (forall g, id :: g in s.conns && id in Outstanding(s.conns[g]) ==> id < |s.commands|)
    && (forall id :: 0 <= id < |s.commands| && NotSent(s, id) ==> Unowed(s, id) && !AckedBySomeone(s.commands[id]))
  }

  lemma HandOwes(k: Conn)
    requires k.hand.Some? && k.hand.value.Ack?
    ensures Outstanding(k) == [k.hand.value.cmd] + Outstanding(k.(hand := None))
  {
    assert AckCommands([k.hand.value]) == [k.hand.value.cmd];
    Seqs.Assoc([k.hand.value.cmd], AckCommands(k.wire), k.inbox);
  }

  lemma WireOwes(k: Conn, more: seq<Line>, inbox: seq<CmdId>)
    ensures Outstanding(k.(wire := k.wire + more, inbox := inbox)) ==
            Outstanding(k.(inbox := [])) + AckCommands(more) + inbox
  {
    AckCommandsAppend(k.wire, more);
    var hand := if k.hand.Some? then AckCommands([k.hand.value]) else [];
    Seqs.Assoc(hand, AckCommands(k.wire), AckCommands(more));
    Seqs.EmptyConcat(hand + AckCommands(k.wire));
  }

  lemma ReceiveOwes(s: State, g: Gen, id: CmdId)
    requires g in s.conns && id in Outstanding(ReceiveStep(s, g).conns[g])
    ensures id in Outstanding(s.conns[g])
  {
    var k := s.conns[g];
    if k.alive && k.hand.None? && k.wire != [] {
      assert AckCommands(k.wire) == AckCommands([k.wire[0]]) + AckCommands(k.wire[1..]);
    }
  }

  lemma RouteOwes(s: State, g: Gen, id: CmdId)
    requires Inv(s) && g in s.conns && id in Outstanding(RouteAckStep(s, g).conns[g])
    ensures id in Outstanding(s.conns[g])
  {
    if s.conns[g].hand.Some? {
      HandOwes(s.conns[g]);
    }
  }

  lemma ReplyOwes(s: State, g: Gen, ok: bool, torn: bool, id: CmdId)
    requires g in s.conns && id in Outstanding(DeviceReplyStep(s, g, ok, torn).conns[g])
    ensures id in Outstanding(s.conns[g])
  {
    var k := s.conns[g];
    if k.inbox != [] {
      WireOwes(k, [if torn then OtherLine else Ack(k.inbox[0], ok)], k.inbox[1..]);
      WireOwes(k, [], k.inbox);
      assert k.wire + [] == k.wire;
    }
  }

  lemma OtherOwes(s: State, g: Gen, id: CmdId)
    requires g in s.conns && id in Outstanding(DeviceOtherStep(s, g).conns[g])
    ensures id in Outstanding(s.conns[g])
  {
    var k := s.conns[g];
    WireOwes(k, [OtherLine], k.inbox);
    WireOwes(k, [], k.inbox);
    assert k.wire + [] == k.wire;
  }

  /** The step reads, routes or writes lines of some connection. */
  predicate MovesLines(step: Step) {
    step.Receive? || step.RouteAck? || step.DeviceReply? || step.DeviceOther? || (step.Send? && step.delivered)
  }

  lemma OtherStepsKeepLines(s: State, step: Step, g: Gen)
    requires !MovesLines(step) && g in Next(s, step).conns
    ensures var k := Next(s, step).conns[g];
            if g in s.conns && !step.ConnectInstall?
            then k.inbox == s.conns[g].inbox && k.wire == s.conns[g].wire && k.hand == s.conns[g].hand
            else step.ConnectInstall? && (k == Conn([], [], None, true, 0) || (g in s.conns && k == s.conns[g]))
  {
  }

  lemma OtherStepsOwe(s: State, step: Step, g: Gen, id: CmdId, k: Conn)
    requires !MovesLines(step) && g in Next(s, step).conns && k == Next(s, step).conns[g] && id in Outstanding(k)
    ensures g in s.conns && id in Outstanding(s.conns[g])
  {
    OtherStepsKeepLines(s, step, g);
  }

  /** Only the connection named by the step moves. */
  lemma OtherConnsStay(s: State, step: Step, g: Gen)
    requires (step.Receive? || step.RouteAck? || step.DeviceReply? || step.DeviceOther?) && step.gen != g
    requires g in Next(s, step).conns
    ensures g in s.conns && Next(s, step).conns[g] == s.conns[g]
  {
  }

  lemma OwnConnStays(s: State, step: Step)
    requires (step.Receive? || step.RouteAck? || step.DeviceReply? || step.DeviceOther?)
             && step.gen in Next(s, step).conns
    ensures step.gen in s.conns
  {
  }

  /** A step that delivers no line makes no connection owe an ACK that none owed before. */
  lemma OwesNothingNew(s: State, step: Step, g: Gen, id: CmdId, s': State)
    requires Inv(s) && !(step.Send? && step.delivered) && s' == Next(s, step)
    requires g in s'.conns && id in Outstanding(s'.conns[g])
    ensures g in s.conns && id in Outstanding(s.conns[g])
  {
    if !MovesLines(step) {
      OtherStepsOwe(s, step, g, id, s'.conns[g]);
    } else if step.gen != g {
      OtherConnsStay(s, step, g);
    } else {
      OwnConnStays(s, step);
      match step
      case Receive(_) => ReceiveOwes(s, g, id);
      case RouteAck(_) => RouteOwes(s, g, id);
      case DeviceReply(_, ok, torn) => ReplyOwes(s, g, ok, torn, id);
      case DeviceOther(_) => OtherOwes(s, g, id);
    }
  }

  /** A delivered line makes its own connection owe one more ACK, to the sender's command. */
  lemma SendOwes(s: State, g: Gen, id: CmdId, ok: bool)
    requires g in SendStep(s, ok, true).conns && id in Outstanding(SendStep(s, ok, true).conns[g])
    ensures g in s.conns && (id in Outstanding(s.conns[g]) || (s.sender.Holding? && id == s.sender.id))
  {
  }

  lemma RouteAcksOwed(s: State, g: Gen, id: CmdId)
    requires Inv(s) && id < |s.commands| && Unowed(s, id) && !AckedBySomeone(s.commands[id])
    ensures id < |RouteAckStep(s, g).commands| && !AckedBySomeone(RouteAckStep(s, g).commands[id])
  {
    if g in s.conns && s.conns[g].hand.Some? && AckSection(s.client, g).1.Completes? {
      HandOwes(s.conns[g]);
      assert OwnerOk(s, g);
    }
  }

  lemma OthersDoNotAck(s: State, step: Step, id: CmdId)
    requires Inv(s) && id < |s.commands| && !AckedBySomeone(s.commands[id]) && !step.RouteAck?
    ensures id < |Next(s, step).commands| && !AckedBySomeone(Next(s, step).commands[id])
  {
  }

  /** An ACK completes only a command some connection owed it to. */
  lemma OnlyOwedIsAcked(s: State, step: Step, id: CmdId)
    requires Inv(s) && id < |s.commands| && Unowed(s, id) && !AckedBySomeone(s.commands[id])
    ensures id < |Next(s, step).commands| && !AckedBySomeone(Next(s, step).commands[id])
  {
    if step.RouteAck? {
      RouteAcksOwed(s, step.gen, id);
    } else {
      OthersDoNotAck(s, step, id);
    }
  }

  /** A command that is unsent after a step was unsent before it, or has just been registered. */
  lemma NotSentBefore(s: State, step: Step, id: CmdId)
    requires Inv(s) && id < |Next(s, step).commands| && NotSent(Next(s, step), id)
    ensures id < |s.commands| ==> NotSent(s, id) && !(step.Send? && step.ok && s.sender.Holding? && id == s.sender.id)
    ensures id >= |s.commands| ==> step.Register? && id == |s.commands| && Next(s, step).commands[id].cause.None?
  {
    if !s.sender.Idle? {
      assert CommandOk(s, s.sender.id);
    }
  }

  lemma KnownStep(s: State, step: Step, g: Gen, id: CmdId)
    requires Inv(s) && UnsentIsUnacked(s) && step != Send(false, true)
    requires g in Next(s, step).conns && id in Outstanding(Next(s, step).conns[g])
    ensures id < |s.commands| <= |Next(s, step).commands|
  {
    EndsStay(s, step);
    if step.Send? && step.delivered {
      SendOwes(s, g, id, step.ok);
    } else {
      OwesNothingNew(s, step, g, id, Next(s, step));
    }
  }

  lemma UnowedStep(s: State, step: Step, g: Gen, id: CmdId)
    requires Inv(s) && UnsentIsUnacked(s) && step != Send(false, true)
    requires id < |s.commands| && NotSent(s, id) && !(step.Send? && step.ok && s.sender.Holding? && id == s.sender.id)
    requires g in Next(s, step).conns
    ensures id !in Outstanding(Next(s, step).conns[g])
  {
    if id in Outstanding(Next(s, step).conns[g]) {
      if step.Send? && step.delivered {
        SendOwes(s, g, id, step.ok);
      } else {
        OwesNothingNew(s, step, g, id, Next(s, step));
      }
    }
  }

  lemma UnsentStep(s: State, step: Step, s': State)
    requires Inv(s) && UnsentIsUnacked(s) && step != Send(false, true) && s' == Next(s, step)
    ensures UnsentIsUnacked(s')
  {
    forall g, id | g in s'.conns && id in Outstanding(s'.conns[g]) ensures id < |s'.commands| {
      KnownStep(s, step, g, id);
    }
    forall id | 0 <= id < |s'.commands| && NotSent(s', id) ensures Unowed(s', id) && !AckedBySomeone(s'.commands[id]) {
      NotSentBefore(s, step, id);
      if id < |s.commands| {
        OnlyOwedIsAcked(s, step, id);
      }
      forall g | g in s'.conns ensures id !in Outstanding(s'.conns[g]) {
        if id < |s.commands| {
          UnowedStep(s, step, g, id);
        } else if id in Outstanding(s'.conns[g]) {
          KnownStep(s, step, g, id);
        }
      }
    }
  }

  lemma {:induction false} RunKeepsUnsent(steps: seq<Step>)
    requires FailedSendsDeliverNothing(steps)
    ensures UnsentIsUnacked(Run(steps))
  {
    if steps != [] {
      RunKeepsUnsent(steps[..|steps| - 1]);
      RunKeepsInv(steps[..|steps| - 1]);
      UnsentStep(Run(steps[..|steps| - 1]), steps[|steps| - 1], Run(steps));
    }
  }

  /** If no failed send delivers its line, a call returns with `ack` exactly when an OK reply to its
      command completed it. */
  lemma AckedExactlyWhenOkReply(steps: seq<Step>, id: CmdId)
    requires FailedSendsDeliverNothing(steps)
    requires id < |Run(steps).commands| && Run(steps).commands[id].end.Some?
    ensures var c := Run(steps).commands[id];
            (c.end.value.Returned? && c.end.value.ack) <==> c.cause == Some(ByAck(id, true))
  {
    AckedIffOkReply(steps, id);
    RunKeepsUnsent(steps);
    assert Run(steps).commands[id].end == Some(RaisedSendFailure) ==> NotSent(Run(steps), id);
  }

  // ---------- otherwise a failed send can hide an ACK ----------

  /** sendall fails after the line has reached the device, and the ACK is routed before the
      sender tears the connection down. */
  const HIDDEN_ACK: seq<Step> := [
    ConnectOpen(0), ConnectRead(0), ConnectClose(0), ConnectInstall(0), Register,
    Send(false, true), DeviceReply(1, true, false), Receive(1), RouteAck(1), SendFailTeardown]

  lemma HiddenAckOpening()
    ensures Run(HIDDEN_ACK[..3]) == START.(connectors := map[0 := Closed])
  {
    var r := HIDDEN_ACK;
    assert Run(r[..0]) == START;
    AckTheorems.RunPrefix(r, 0);
    AckTheorems.RunPrefix(r, 1);
    AckTheorems.RunPrefix(r, 2);
  }

  /** One command registered on generation 1, with connection k and no outcome yet. */
  predicate FirstCommand(s: State, sender: Sender, k: Conn) {
    && s.client == Client(Some(1), 1, Some(0)) && s.sender == sender && 1 in s.conns && s.conns[1] == k
    && s.commands == [Command(1, false, false, false, None, 0, None)]
  }

  lemma HiddenAckRegistered()
    ensures FirstCommand(Run(HIDDEN_ACK[..5]), Holding(0, 1), Conn([], [], None, true, 0))
  {
    HiddenAckOpening();
    AckTheorems.RunPrefix(HIDDEN_ACK, 3);
    AckTheorems.RunPrefix(HIDDEN_ACK, 4);
  }

  lemma HiddenAckSent()
    ensures FirstCommand(Run(HIDDEN_ACK[..7]), SendFailed(0, 1), Conn([], [Ack(0, true)], None, true, 0))
  {
    HiddenAckRegistered();
    AckTheorems.RunPrefix(HIDDEN_ACK, 5);
    assert FirstCommand(Run(HIDDEN_ACK[..6]), SendFailed(0, 1), Conn([0], [], None, true, 0));
    AckTheorems.RunPrefix(HIDDEN_ACK, 6);
  }

  lemma HiddenAckReceived()
    ensures FirstCommand(Run(HIDDEN_ACK[..8]), SendFailed(0, 1), Conn([], [], Some(Ack(0, true)), true, 0))
  {
    HiddenAckSent();
    AckTheorems.RunPrefix(HIDDEN_ACK, 7);
  }

  lemma HiddenAckRouted()
    ensures var s := Run(HIDDEN_ACK[..9]);
            s.client == Client(Some(1), 1, None) && s.sender == SendFailed(0, 1)
            && s.commands == [Command(1, true, true, false, Some(ByAck(0, true)), 1, None)]
  {
    HiddenAckReceived();
    AckTheorems.RunPrefix(HIDDEN_ACK, 8);
  }

  /** If sendall can raise that late, the command is completed by its OK reply and the call raises. */
  lemma FailedSendCanHideAck()
    ensures var s := Run(HIDDEN_ACK);
            |s.commands| == 1 && s.commands[0].cause == Some(ByAck(0, true))
            && s.commands[0].end == Some(RaisedSendFailure)
  {
    HiddenAckRouted();
    AckTheorems.RunPrefix(HIDDEN_ACK, 9);
    assert HIDDEN_ACK[..10] == HIDDEN_ACK;
  }
}
