/** From the wheels and sensors of the AGV to the events in the backend: a run of the control loop,
    its status lines relayed with Arm ACKs written into them, and the receiver's chunks. */
module EndToEnd {
  import Seqs
  import opened Esp32Parser
  import opened LineFraming
  import opened Telemetry
  import opened RelayedStream
  import opened ReceivedStream
  import opened AgvTelemetry
  import AgvModel

  /** The reports a run of the controller sends. */
  function Sent(boot: nat, turns: seq<Turn>): seq<Report> {
    AgvModel.Run(AgvModel.Boot(boot), EventsOf(turns)).sent
  }

  /** Every relayed line is the status line of a report of the run, cut in any way. */
  predicate RelaysRun(items: seq<Item>, sent: seq<Report>) {
    forall i :: 0 <= i < |items| && items[i].Relayed? ==>
      items[i].report in sent
      && items[i].skipped + (Pieces(items[i].cuts) + items[i].tail) == StatusLine(items[i].report)
  }

  /** What the backend has to make of a report of a run. */
  function Meaning(r: Report): Parsed {
    if SupportedEvent(r.state) then ExpectedSensors(r) else Rejected(UnsupportedEvent)
  }

  lemma SentIsWellFormed(boot: nat, turns: seq<Turn>, r: Report)
    requires Regular(EventsOf(turns)) && r in Sent(boot, turns)
    ensures WellFormed(r) && Expected(r) == Meaning(r)
  {
    EveryReportIsRead(boot, turns, r);
    ReportsAreReportable(boot, EventsOf(turns), Top(EventsOf(turns)));
  }

  lemma RunIsWellCut(boot: nat, turns: seq<Turn>, items: seq<Item>)
    requires Regular(EventsOf(turns)) && RelaysRun(items, Sent(boot, turns))
    ensures AllWellCut(items)
    ensures forall i :: 0 <= i < |items| && items[i].Relayed? ==> Expected(items[i].report) == Meaning(items[i].report)
  {
    forall i | 0 <= i < |items| && items[i].Relayed?
      ensures WellCut(items[i]) && Expected(items[i].report) == Meaning(items[i].report)
    {
      SentIsWellFormed(boot, turns, items[i].report);
    }
  }

  /** In every run of the control loop, however its status lines are cut up by the relay and the
      link, the receiver's verdict on every line is the one of RelayIsFailSafe. */
  lemma RunIsFailSafe(boot: nat, turns: seq<Turn>, items: seq<Item>, rest: string, chunks: seq<string>)
    requires Regular(EventsOf(turns)) && RelaysRun(items, Sent(boot, turns))
    requires '\n' !in rest && |rest| <= MAX_LINE_BYTES && Stream(chunks) == Bytes(items) + rest
    ensures Verdicts(FeedAll(chunks).lines) == AllVerdicts(items)
    ensures AcksIn(Verdicts(FeedAll(chunks).lines)) == AckWrites(items) <==> OnlyBlanksCut(items)
  {
    RunIsWellCut(boot, turns, items);
    ChunksAreRead(items, rest, chunks);
    DemultiplexingIsExact(items);
  }

  // ---------- nothing lost ----------

  /** The reports relayed, in order. */
  function RelayedReports(items: seq<Item>): seq<Report> {
    if items == [] then []
    else (if items[0].Relayed? then [items[0].report] else []) + RelayedReports(items[1..])
  }

  /** The sensor events of a list of reports, in order. */
  function SensorEvents(reports: seq<Report>): seq<Parsed> {
    if reports == [] then []
    else (if SupportedEvent(reports[0].state) then [ExpectedSensors(reports[0])] else []) + SensorEvents(reports[1..])
  }

  lemma SensorEventsCons(r: Report, reports: seq<Report>)
    ensures SensorEvents([r] + reports) ==
            (if SupportedEvent(r.state) then [ExpectedSensors(r)] else []) + SensorEvents(reports)
  {
    assert ([r] + reports)[1..] == reports;
  }

  lemma {:induction false} ReportsAreEvents(items: seq<Item>)
    requires WholeLines(items)
    requires forall i :: 0 <= i < |items| && items[i].Relayed? ==> Expected(items[i].report) == Meaning(items[i].report)
    ensures Reports(items) == SensorEvents(RelayedReports(items))
  {
    if items != [] {
      ReportsAreEvents(items[1..]);
      if items[0].Relayed? {
        SensorEventsCons(items[0].report, RelayedReports(items[1..]));
      } else {
        Seqs.EmptyConcat(RelayedReports(items[1..]));
        Seqs.EmptyConcat(Reports(items[1..]));
      }
    }
  }

  /** When all reports of a run are relayed whole and ACKs are written only between their lines, the
      backend reads back exactly the ACKs written, and exactly the values of the TRACING, OBSTACLE
      and STOP reports the run sent, each in order, whatever chunks they arrive in. */
  lemma RunIsRead(boot: nat, turns: seq<Turn>, items: seq<Item>, rest: string, chunks: seq<string>)
    requires Regular(EventsOf(turns)) && RelaysRun(items, Sent(boot, turns))
    requires RelayedReports(items) == Sent(boot, turns)
    requires WholeLines(items) && AtBoundaries(items)
    requires '\n' !in rest && |rest| <= MAX_LINE_BYTES && Stream(chunks) == Bytes(items) + rest
    ensures AcksIn(Verdicts(FeedAll(chunks).lines)) == AckWrites(items)
    ensures SensedIn(Verdicts(FeedAll(chunks).lines)) == SensorEvents(Sent(boot, turns))
  {
    RunIsWellCut(boot, turns, items);
    ChunksAreRead(items, rest, chunks);
    FramingKeptIff(items);
    ReportsAreEvents(items);
  }
}
