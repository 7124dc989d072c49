/** What the Arm command/ACK protocol guarantees over whole runs. */
module AckTheorems {
  import opened Options
  import opened Esp32Sections
  import opened AckProtocol

  // ---------- every run, overlapping connects included ----------

  /** A command completed by an ACK was completed by the device's reply to that same command. */
  lemma AckOwnership(steps: seq<Step>, id: CmdId)
    requires id < |Run(steps).commands|
    requires Run(steps).commands[id].cause.Some? && Run(steps).commands[id].cause.value.ByAck?
    ensures Run(steps).commands[id].cause.value.reply == id
  {
    RunKeepsInv(steps);
    assert CommandOk(Run(steps), id);
  }

  /** A registered command is pending, or it was completed exactly once and for one cause. */
  lemma CompletedOnce(steps: seq<Step>, id: CmdId)
    requires id < |Run(steps).commands|
    ensures var s, c := Run(steps), Run(steps).commands[id];
            && c.completions == (if s.client.pending == Some(id) then 0 else 1)
            && (c.completed <==> c.completions == 1)
            && (c.cause.Some? <==> c.completions == 1)
  {
    RunKeepsInv(steps);
    assert CommandOk(Run(steps), id);
  }

  /** A returned result has `ack` exactly when it has no `error`, and exactly when an OK reply completed it. */
  lemma ResultIsConsistent(steps: seq<Step>, id: CmdId)
    requires id < |Run(steps).commands|
    requires Run(steps).commands[id].end.Some? && Run(steps).commands[id].end.value.Returned?
    ensures var c := Run(steps).commands[id];
            && (c.end.value.ack <==> !c.end.value.error)
            && (c.end.value.ack <==> c.cause == Some(ByAck(id, true)))
            && c.completions == 1
  {
    RunKeepsInv(steps);
    assert CommandOk(Run(steps), id);
  }

  /** Before another command can be registered, every command that ended without its ACK has
      its whole generation torn down: no late reply of it can reach a later command. */
  lemma NoAckMeansDeadGeneration(steps: seq<Step>, id: CmdId)
    requires Run(steps).sender.Idle?
    requires id < |Run(steps).commands|
    requires !(Run(steps).commands[id].cause.Some? && Run(steps).commands[id].cause.value.ByAck?)
    ensures !Live(Run(steps), Run(steps).commands[id].gen)
  {
    RunKeepsInv(steps);
    assert DeadUnlessAcked(Run(steps), id);
  }

  lemma DeadStep(s: State, step: Step, g: Gen)
    requires g <= s.client.generation && !Live(s, g)
    ensures g <= Next(s, step).client.generation && !Live(Next(s, step), g)
  {
  }

  lemma RunAfter(steps: seq<Step>, more: seq<Step>)
    requires more != []
    ensures Run(steps + more) == Next(Run(steps + more[..|more| - 1]), more[|more| - 1])
  {
    assert (steps + more)[..|steps + more| - 1] == steps + more[..|more| - 1];
  }

  /** A dead generation never comes back. */
  lemma {:induction false} DeadStaysDead(steps: seq<Step>, more: seq<Step>, g: Gen)
    requires g <= Run(steps).client.generation && !Live(Run(steps), g)
    ensures g <= Run(steps + more).client.generation && !Live(Run(steps + more), g)
    decreases |more|
  {
    if more == [] {
      assert steps + more == steps;
    } else {
      DeadStaysDead(steps, more[..|more| - 1], g);
      RunAfter(steps, more);
      DeadStep(Run(steps + more[..|more| - 1]), more[|more| - 1], g);
    }
  }

  /** Each connection is reported lost at most once, and never while it is up. */
  lemma AtMostOneLossEvent(steps: seq<Step>, g: Gen)
    requires g in Run(steps).conns
    ensures Run(steps).conns[g].losses <= 1
    ensures Live(Run(steps), g) ==> Run(steps).conns[g].losses == 0
  {
    RunKeepsInv(steps);
  }

  lemma OneMore(steps: seq<Step>, step: Step)
    ensures Run(steps + [step]) == Next(Run(steps), step)
  {
    assert (steps + [step])[..|steps|] == steps;
  }

  /** In every run an ACK that finds nothing pending, or comes from an old generation, is dropped and
      kept nowhere: routing it changes nothing but the receiver's hand. */
  lemma StrayAckIsDropped(steps: seq<Step>, g: Gen)
    requires g in Run(steps).conns && Run(steps).conns[g].hand.Some?
    requires !Live(Run(steps), g) || Run(steps).client.pending.None?
    ensures Run(steps + [RouteAck(g)])
            == Run(steps).(conns := Run(steps).conns[g := Run(steps).conns[g].(hand := None)])
  {
    RunKeepsInv(steps);
    OneMore(steps, RouteAck(g));
  }

  /** The caller's own steps always finish a call, whatever the receivers and the device do not do. */
  lemma CallCanFinish(steps: seq<Step>, delivered: bool)
    ensures Run(steps + [Send(true, delivered), WaitExpires, TimeoutTeardown, SendFailTeardown]).sender.Idle?
  {
    RunKeepsInv(steps);
    var s0 := Run(steps);
    var own := [Send(true, delivered), WaitExpires, TimeoutTeardown, SendFailTeardown];
    var r := steps + own;
    assert r[..|steps|] == steps;
    RunPrefix(r, |steps|);
    RunPrefix(r, |steps| + 1);
    RunPrefix(r, |steps| + 2);
    RunPrefix(r, |steps| + 3);
    assert r[..|steps| + 4] == r;
  }

  lemma RunPrefix(r: seq<Step>, k: nat)
    requires k < |r|
    ensures Run(r[..k + 1]) == Next(Run(r[..k]), r[k])
  {
    assert r[..k + 1][..k] == r[..k];
  }

  // ---------- runs whose connect calls do not overlap ----------

  ghost predicate ConnectsDoNotOverlap(steps: seq<Step>) {
    steps == [] ||
    (var before := steps[..|steps| - 1];
     ConnectsDoNotOverlap(before)
     && (steps[|steps| - 1].ConnectOpen? ==> Run(before).connectors == map[]))
  }

  ghost predicate SerialInv(s: State) {
    && (forall t, u :: t in s.connectors && u in s.connectors ==> t == u)
    && (forall t :: t in s.connectors && s.connectors[t].ReadGeneration? ==> s.connectors[t].gen == s.client.generation)
    && (forall t :: t in s.connectors && s.connectors[t].Closed? ==> s.client.socket.None?)
    && (s.client.pending.Some? ==>
          Live(s, s.client.generation) && Holds(s.sender, s.client.pending.value)
          && s.sender.gen == s.client.generation && !s.sender.TimedOut?)
    && s.alreadyPending == 0
  }

  lemma DisconnectKeepsSerial(s: State, g: Gen, notify: bool)
    requires Inv(s) && SerialInv(s)
    ensures SerialInv(DisconnectGeneration(s, g, notify))
  {
  }

  lemma SenderStepKeepsSerial(s: State, step: Step)
    requires Inv(s) && SerialInv(s)
    requires step.Register? || step.Send? || step.SendFailTeardown? || step.WakeUp? || step.WaitExpires?
             || step.TimeoutTeardown?
    ensures SerialInv(Next(s, step))
  {
    if !s.sender.Idle? {
      assert CommandOk(s, s.sender.id);
      DisconnectKeepsSerial(s, s.sender.gen, true);
    }
  }

  lemma ConnectorStepKeepsSerial(s: State, step: Step)
    requires Inv(s) && SerialInv(s)
    requires step.ConnectOpen? || step.ConnectRead? || step.ConnectClose? || step.ConnectInstall?
    requires step.ConnectOpen? ==> s.connectors == map[]
    ensures SerialInv(Next(s, step))
  {
    if step.ConnectClose? && step.thread in s.connectors && s.connectors[step.thread].ReadGeneration? {
      DisconnectKeepsSerial(s, s.connectors[step.thread].gen, false);
    }
  }

  lemma {:induction false} RunKeepsSerial(steps: seq<Step>)
    requires ConnectsDoNotOverlap(steps)
    ensures SerialInv(Run(steps))
  {
    if steps != [] {
      var before, step := steps[..|steps| - 1], steps[|steps| - 1];
      RunKeepsSerial(before);
      RunKeepsInv(before);
      var s := Run(before);
      match step {
        case Register => SenderStepKeepsSerial(s, step);
        case Send(_, _) => SenderStepKeepsSerial(s, step);
        case SendFailTeardown => SenderStepKeepsSerial(s, step);
        case WakeUp => SenderStepKeepsSerial(s, step);
        case WaitExpires => SenderStepKeepsSerial(s, step);
        case TimeoutTeardown => SenderStepKeepsSerial(s, step);
        case ConnectOpen(_) => ConnectorStepKeepsSerial(s, step);
        case ConnectRead(_) => ConnectorStepKeepsSerial(s, step);
        case ConnectClose(_) => ConnectorStepKeepsSerial(s, step);
        case ConnectInstall(_) => ConnectorStepKeepsSerial(s, step);
        case Disconnect(g) => DisconnectKeepsSerial(s, g, false);
        case _ =>
      }
    }
  }

  /** While `_command_lock` is free nothing is pending, so "already pending" is never raised and
      every call that has ended left its command completed exactly once. */
  lemma FreeLockMeansNothingPending(steps: seq<Step>)
    requires ConnectsDoNotOverlap(steps)
    ensures Run(steps).sender.Idle? ==> Run(steps).client.pending.None?
    ensures Run(steps).alreadyPending == 0
    ensures forall id :: 0 <= id < |Run(steps).commands| && Run(steps).commands[id].end.Some? ==>
              Run(steps).commands[id].completions == 1
  {
    RunKeepsSerial(steps);
    RunKeepsInv(steps);
    var s := Run(steps);
    forall id | 0 <= id < |s.commands| && s.commands[id].end.Some? ensures s.commands[id].completions == 1 {
      assert CommandOk(s, id);
    }
  }

  // ---------- and why they must not ----------

  /** In every run the teardown after a failed send empties the pending slot exactly when the sender's
      generation is still the current one, or someone else has emptied it already. */
  lemma FailedSendClearsPendingIff(steps: seq<Step>)
    requires Run(steps).sender.SendFailed?
    ensures Run(steps + [SendFailTeardown]).client.pending.None? <==>
            Run(steps).sender.gen == Run(steps).client.generation || Run(steps).client.pending.None?
  {
    OneMore(steps, SendFailTeardown);
  }

  /** Two connects that both close before either installs: the second install carries the
      pending command of generation 1 over to generation 2, and the failed send leaves it there. */
  const OVERLAPPING_CONNECTS: seq<Step> := [
    ConnectOpen(0), ConnectRead(0), ConnectClose(0),
    ConnectOpen(1), ConnectRead(1), ConnectClose(1),
    ConnectInstall(0), Register, ConnectInstall(1), Send(false, false), SendFailTeardown, Register]

  const BOTH_CLOSED := START.(connectors := map[0 := Closed, 1 := Closed])

  lemma OverlapFirstClosed()
    ensures Run(OVERLAPPING_CONNECTS[..3]) == START.(connectors := map[0 := Closed])
  {
    var r := OVERLAPPING_CONNECTS;
    assert Run(r[..0]) == START;
    RunPrefix(r, 0);
    RunPrefix(r, 1);
    RunPrefix(r, 2);
  }

  lemma OverlapSecondOpen()
    ensures Run(OVERLAPPING_CONNECTS[..4]) == START.(connectors := map[0 := Closed, 1 := Opened])
  {
    OverlapFirstClosed();
    RunPrefix(OVERLAPPING_CONNECTS, 3);
    assert map[0 := Closed][1 := Opened] == map[0 := Closed, 1 := Opened];
  }

  lemma OverlapSecondRead()
    ensures Run(OVERLAPPING_CONNECTS[..5]) == START.(connectors := map[0 := Closed, 1 := ReadGeneration(0)])
  {
    OverlapSecondOpen();
    RunPrefix(OVERLAPPING_CONNECTS, 4);
    assert map[0 := Closed, 1 := Opened][1 := ReadGeneration(0)] == map[0 := Closed, 1 := ReadGeneration(0)];
  }

  lemma OverlapBothClosed()
    ensures Run(OVERLAPPING_CONNECTS[..6]) == BOTH_CLOSED
  {
    OverlapSecondRead();
    RunPrefix(OVERLAPPING_CONNECTS, 5);
    assert map[0 := Closed, 1 := ReadGeneration(0)][1 := Closed] == map[0 := Closed, 1 := Closed];
  }

  lemma OverlapRegistered()
    ensures var s := Run(OVERLAPPING_CONNECTS[..8]);
            s.client == Client(Some(1), 1, Some(0)) && s.sender == Holding(0, 1) && s.alreadyPending == 0
            && s.commands == [Command(1, false, false, false, None, 0, None)]
            && 1 in s.connectors && s.connectors[1] == Closed
  {
    OverlapBothClosed();
    RunPrefix(OVERLAPPING_CONNECTS, 6);
    RunPrefix(OVERLAPPING_CONNECTS, 7);
  }

  lemma OverlapCarriedOver()
    ensures var s := Run(OVERLAPPING_CONNECTS[..9]);
            s.client == Client(Some(2), 2, Some(0)) && s.sender == Holding(0, 1) && s.alreadyPending == 0
            && s.commands == [Command(1, false, false, false, None, 0, None)]
  {
    OverlapRegistered();
    RunPrefix(OVERLAPPING_CONNECTS, 8);
  }

  lemma OverlapLeavesCommandPending()
    ensures var s := Run(OVERLAPPING_CONNECTS);
            s.sender.Idle? && s.client.pending == Some(0) && s.alreadyPending == 1
            && |s.commands| == 1 && s.commands[0].end == Some(RaisedSendFailure) && s.commands[0].completions == 0
  {
    var r := OVERLAPPING_CONNECTS;
    OverlapCarriedOver();
    RunPrefix(r, 9);
    RunPrefix(r, 10);
    assert Run(r[..11]).client == Client(Some(2), 2, Some(0));
    RunPrefix(r, 11);
    assert r[..12] == r;
  }
}
