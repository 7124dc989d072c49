/** The whole byte stream the backend receives: status lines with ACK lines written into them. */
module RelayedStream {
  import Seqs
  import opened Text
  import opened Esp32Parser
  import opened Telemetry
  import opened TornFrames

  /** An ACK line written after `piece` of the current status line had been relayed. */
  datatype Insertion = Insertion(piece: string, ok: bool)

  /** An ACK line on its own, or a status line with the ACKs that landed in it.  What is `skipped`
      of a status line never reaches the backend: AGV bytes that come while no client is connected
      are dropped, so the relay may start inside a line. */
  datatype Item = Lone(ok: bool) | Relayed(report: Report, skipped: string, cuts: seq<Insertion>, tail: string)

  datatype Verdict = Acked(ok: bool) | Sensed(parsed: Parsed) | Dropped

  function Pieces(cuts: seq<Insertion>): string {
    if cuts == [] then "" else cuts[0].piece + Pieces(cuts[1..])
  }

  /** Together what was skipped, the pieces and the tail are the status line, so each ACK landed
      somewhere in it. */
  predicate WellCut(item: Item) {
    item.Relayed? ==>
      WellFormed(item.report) && item.skipped + (Pieces(item.cuts) + item.tail) == StatusLine(item.report)
  }

  predicate AllWellCut(items: seq<Item>) {
    forall i :: 0 <= i < |items| ==> WellCut(items[i])
  }

  // ---------- bytes ----------

  function CutBytes(cuts: seq<Insertion>): string {
    if cuts == [] then "" else cuts[0].piece + AckLine(cuts[0].ok) + "\n" + CutBytes(cuts[1..])
  }

  function ItemBytes(item: Item): string {
    match item
    case Lone(ok) => AckLine(ok) + "\n"
    case Relayed(_, _, cuts, tail) => CutBytes(cuts) + (tail + "\n")
  }

  function Bytes(items: seq<Item>): string {
    if items == [] then "" else ItemBytes(items[0]) + Bytes(items[1..])
  }

  // ---------- frames ----------

  function CutFrames(cuts: seq<Insertion>): seq<string> {
    if cuts == [] then [] else [cuts[0].piece + AckLine(cuts[0].ok)] + CutFrames(cuts[1..])
  }

  function ItemFrames(item: Item): seq<string> {
    match item
    case Lone(ok) => [AckLine(ok)]
    case Relayed(_, _, cuts, tail) => CutFrames(cuts) + [tail]
  }

  function Frames(items: seq<Item>): seq<string> {
    if items == [] then [] else ItemFrames(items[0]) + Frames(items[1..])
  }

  // ---------- verdicts ----------

  function VerdictOf(p: Parsed): Verdict {
    if p.Rejected? then Dropped else if p.ArmAck? then Acked(p.ok) else Sensed(p)
  }

  function Verdicts(frames: seq<string>): seq<Verdict> {
    if frames == [] then [] else [VerdictOf(ParseLine(frames[0]))] + Verdicts(frames[1..])
  }

  function CutVerdicts(cuts: seq<Insertion>): seq<Verdict> {
    if cuts == [] then []
    else [if Blank(cuts[0].piece) then Acked(cuts[0].ok) else Dropped] + CutVerdicts(cuts[1..])
  }

  /** An ACK counts exactly when nothing but blanks precedes it on its line; a status line counts
      exactly when it was relayed from its first byte on and no ACK landed after that byte. */
  function ItemVerdicts(item: Item): seq<Verdict> {
    match item
    case Lone(ok) => [Acked(ok)]
    case Relayed(report, skipped, cuts, _) =>
      CutVerdicts(cuts) + [if skipped + Pieces(cuts) == "" then VerdictOf(Expected(report)) else Dropped]
  }

  function AllVerdicts(items: seq<Item>): seq<Verdict> {
    if items == [] then [] else ItemVerdicts(items[0]) + AllVerdicts(items[1..])
  }

  // ---------- the frames are the newline-split of the bytes ----------

  lemma LineBreaks(line: string, more: string, frames: seq<string>)
    requires '\n' !in line && Split(more, '\n') == frames + [""]
    ensures Split(line + ("\n" + more), '\n') == [line] + frames + [""]
  {
    SplitPlain(line, '\n');
    assert line + ("\n" + more) == line + ['\n'] + more;
    SplitAtSep(line, more, '\n');
  }

  lemma AckHasNoBreak(piece: string, ok: bool)
    requires '\n' !in piece
    ensures '\n' !in piece + AckLine(ok)
  {
  }

  lemma StatusHasNoBreak(r: Report)
    requires WellFormed(r)
    ensures '\n' !in StatusLine(r)
  {
    PayloadLacks(r, '\n');
    JoinedChars(Payload(r), '\n');
  }

  lemma {:induction false} CutsSplit(cuts: seq<Insertion>, tail: string, more: string, frames: seq<string>)
    requires '\n' !in Pieces(cuts) && '\n' !in tail && Split(more, '\n') == frames + [""]
    ensures Split(CutBytes(cuts) + (tail + ("\n" + more)), '\n') == CutFrames(cuts) + ([tail] + frames) + [""]
  {
    var after := tail + ("\n" + more);
    if cuts == [] {
      assert CutBytes(cuts) + after == after;
      LineBreaks(tail, more, frames);
    } else {
      CutsSplit(cuts[1..], tail, more, frames);
      var line := cuts[0].piece + AckLine(cuts[0].ok);
      AckHasNoBreak(cuts[0].piece, cuts[0].ok);
      CutBytesRegroup(line, CutBytes(cuts[1..]), after);
      LineBreaks(line, CutBytes(cuts[1..]) + after, CutFrames(cuts[1..]) + ([tail] + frames));
      FramesRegroup(line, CutFrames(cuts[1..]), [tail] + frames);
    }
  }

  lemma CutBytesRegroup(line: string, rest: string, after: string)
    ensures line + "\n" + rest + after == line + ("\n" + (rest + after))
  {
  }

  lemma FramesRegroup(line: string, f: seq<string>, g: seq<string>)
    ensures [line] + (f + g) == [line] + f + g
  {
  }

  lemma LoneSplits(ok: bool, more: string, frames: seq<string>)
    requires Split(more, '\n') == frames + [""]
    ensures Split(ItemBytes(Lone(ok)) + more, '\n') == [AckLine(ok)] + frames + [""]
  {
    Seqs.EmptyConcat(AckLine(ok));
    AckHasNoBreak("", ok);
    Seqs.Assoc(AckLine(ok), "\n", more);
    LineBreaks(AckLine(ok), more, frames);
  }

  lemma NotInParts(a: string, b: string, c: char)
    requires c !in a + b
    ensures c !in a && c !in b
  {
    assert forall d :: d in a || d in b ==> d in a + b;
  }

  lemma RelayedSplits(item: Item, more: string, frames: seq<string>)
    requires item.Relayed? && WellCut(item) && Split(more, '\n') == frames + [""]
    ensures Split(ItemBytes(item) + more, '\n') == ItemFrames(item) + frames + [""]
  {
    var cuts, tail := item.cuts, item.tail;
    StatusHasNoBreak(item.report);
    NotInParts(item.skipped, Pieces(cuts) + tail, '\n');
    NotInParts(Pieces(cuts), tail, '\n');
    CutsSplit(cuts, tail, more, frames);
    Seqs.Assoc(CutBytes(cuts), tail + "\n", more);
    Seqs.Assoc(tail, "\n", more);
    Seqs.Assoc(CutFrames(cuts), [tail], frames);
  }

  lemma ItemSplits(item: Item, more: string, frames: seq<string>)
    requires WellCut(item) && Split(more, '\n') == frames + [""]
    ensures Split(ItemBytes(item) + more, '\n') == ItemFrames(item) + frames + [""]
  {
    if item.Lone? {
      LoneSplits(item.ok, more, frames);
    } else {
      RelayedSplits(item, more, frames);
    }
  }

  lemma {:induction false} FramesAreLines(items: seq<Item>)
    requires AllWellCut(items)
    ensures Split(Bytes(items), '\n') == Frames(items) + [""]
  {
    if items != [] {
      FramesAreLines(items[1..]);
      ItemSplits(items[0], Bytes(items[1..]), Frames(items[1..]));
    }
  }

  // ---------- and their verdicts are the expected ones ----------

  lemma {:induction false} VerdictsAppend(a: seq<string>, b: seq<string>)
    ensures Verdicts(a + b) == Verdicts(a) + Verdicts(b)
  {
    if a == [] {
      assert a + b == b;
    } else {
      Seqs.TailOfConcat(a, b);
      VerdictsAppend(a[1..], b);
      Seqs.Assoc([VerdictOf(ParseLine(a[0]))], Verdicts(a[1..]), Verdicts(b));
    }
  }

  lemma FrameVerdict(piece: string, ok: bool)
    ensures VerdictOf(ParseLine(piece + AckLine(ok))) == if Blank(piece) then Acked(ok) else Dropped
  {
    TornHead(piece, ok);
  }

  lemma {:induction false} CutVerdictsHold(cuts: seq<Insertion>)
    ensures Verdicts(CutFrames(cuts)) == CutVerdicts(cuts)
  {
    if cuts != [] {
      FrameVerdict(cuts[0].piece, cuts[0].ok);
      CutVerdictsHold(cuts[1..]);
      assert CutFrames(cuts)[1..] == CutFrames(cuts[1..]);
    }
  }

  lemma TailVerdict(report: Report, head: string, tail: string)
    requires WellFormed(report) && head + tail == StatusLine(report)
    ensures VerdictOf(ParseLine(tail)) == if head == "" then VerdictOf(Expected(report)) else Dropped
  {
    if head == "" {
      assert tail == StatusLine(report);
      StatusFitsBuffer(report);
      StatusRoundTrip(report);
    } else {
      assert tail == StatusLine(report)[|head|..];
      TornTail(report, |head|);
    }
  }

  lemma OneVerdict(frame: string)
    ensures Verdicts([frame]) == [VerdictOf(ParseLine(frame))]
  {
    assert [frame][1..] == [];
  }

  lemma ItemVerdictsHold(item: Item)
    requires WellCut(item)
    ensures Verdicts(ItemFrames(item)) == ItemVerdicts(item)
  {
    match item
    case Lone(ok) =>
      assert "" + AckLine(ok) == AckLine(ok);
      FrameVerdict("", ok);
      OneVerdict(AckLine(ok));
    case Relayed(report, skipped, cuts, tail) =>
      CutVerdictsHold(cuts);
      Seqs.Assoc(skipped, Pieces(cuts), tail);
      TailVerdict(report, skipped + Pieces(cuts), tail);
      OneVerdict(tail);
      VerdictsAppend(CutFrames(cuts), [tail]);
  }

  /** Fail-safe relay: wherever the relay starts and however many ACKs land wherever in the
      telemetry, the backend takes every ACK that only blanks precede on its line and every status
      line left whole, with their exact contents, and drops everything else. */
  lemma {:induction false} RelayIsFailSafe(items: seq<Item>)
    requires AllWellCut(items)
    ensures Split(Bytes(items), '\n') == Frames(items) + [""]
    ensures Verdicts(Frames(items)) == AllVerdicts(items)
  {
    FramesAreLines(items);
    if items != [] {
      RelayIsFailSafe(items[1..]);
      ItemVerdictsHold(items[0]);
      VerdictsAppend(ItemFrames(items[0]), Frames(items[1..]));
    }
  }

  // ---------- when both streams are recovered ----------

  predicate AllBlank(cuts: seq<Insertion>) {
    forall i :: 0 <= i < |cuts| ==> Blank(cuts[i].piece)
  }

  /** No ACK lands after anything but blanks. */
  predicate OnlyBlanksCut(items: seq<Item>) {
    forall i :: 0 <= i < |items| && items[i].Relayed? ==> AllBlank(items[i].cuts)
  }

  /** Every ACK is written before the first byte of a status line. */
  predicate AtBoundaries(items: seq<Item>) {
    forall i :: 0 <= i < |items| && items[i].Relayed? ==> Pieces(items[i].cuts) == ""
  }

  /** Every status line is relayed from its first byte on. */
  predicate WholeLines(items: seq<Item>) {
    forall i :: 0 <= i < |items| && items[i].Relayed? ==> items[i].skipped == ""
  }

  function AckWrites(items: seq<Item>): seq<bool> {
    if items == [] then []
    else ItemWrites(items[0]) + AckWrites(items[1..])
  }

  function ItemWrites(item: Item): seq<bool> {
    if item.Lone? then [item.ok] else CutWrites(item.cuts)
  }

  function CutWrites(cuts: seq<Insertion>): seq<bool> {
    if cuts == [] then [] else [cuts[0].ok] + CutWrites(cuts[1..])
  }

  /** The reports relayed from their first byte on that the backend can use, in order. */
  function Reports(items: seq<Item>): seq<Parsed> {
    if items == [] then []
    else ItemReports(items[0]) + Reports(items[1..])
  }

  function ItemReports(item: Item): seq<Parsed> {
    if item.Relayed? && item.skipped == "" && !Expected(item.report).Rejected? then [Expected(item.report)] else []
  }

  function AcksIn(verdicts: seq<Verdict>): seq<bool> {
    if verdicts == [] then []
    else (if verdicts[0].Acked? then [verdicts[0].ok] else []) + AcksIn(verdicts[1..])
  }

  function SensedIn(verdicts: seq<Verdict>): seq<Parsed> {
    if verdicts == [] then []
    else (if verdicts[0].Sensed? then [verdicts[0].parsed] else []) + SensedIn(verdicts[1..])
  }

  lemma {:induction false} DemuxAppend(a: seq<Verdict>, b: seq<Verdict>)
    ensures AcksIn(a + b) == AcksIn(a) + AcksIn(b)
    ensures SensedIn(a + b) == SensedIn(a) + SensedIn(b)
  {
    if a == [] {
      assert a + b == b;
    } else {
      Seqs.TailOfConcat(a, b);
      DemuxAppend(a[1..], b);
      Seqs.Assoc(if a[0].Acked? then [a[0].ok] else [], AcksIn(a[1..]), AcksIn(b));
      Seqs.Assoc(if a[0].Sensed? then [a[0].parsed] else [], SensedIn(a[1..]), SensedIn(b));
    }
  }

  lemma {:induction false} BlankCutVerdicts(cuts: seq<Insertion>)
    requires AllBlank(cuts)
    ensures AcksIn(CutVerdicts(cuts)) == CutWrites(cuts)
  {
    if cuts != [] {
      BlankCutVerdicts(cuts[1..]);
      var v := CutVerdicts(cuts);
      assert v[0] == Acked(cuts[0].ok) && v[1..] == CutVerdicts(cuts[1..]);
    }
  }

  lemma {:induction false} CutsSenseNothing(cuts: seq<Insertion>)
    ensures SensedIn(CutVerdicts(cuts)) == []
  {
    if cuts != [] {
      CutsSenseNothing(cuts[1..]);
      assert CutVerdicts(cuts)[1..] == CutVerdicts(cuts[1..]);
    }
  }

  /** As many ACKs as were written come out of a cut line only if every one followed blanks. */
  lemma {:induction false} CutAcksCount(cuts: seq<Insertion>)
    ensures |AcksIn(CutVerdicts(cuts))| <= |CutWrites(cuts)|
    ensures |AcksIn(CutVerdicts(cuts))| == |CutWrites(cuts)| ==> AllBlank(cuts)
  {
    if cuts != [] {
      CutAcksCount(cuts[1..]);
      assert CutVerdicts(cuts)[1..] == CutVerdicts(cuts[1..]);
      assert AllBlank(cuts[1..]) && Blank(cuts[0].piece) ==> AllBlank(cuts) by {
        assert cuts == [cuts[0]] + cuts[1..];
      }
    }
  }

  lemma OneDemuxed(v: Verdict)
    ensures AcksIn([v]) == if v.Acked? then [v.ok] else []
    ensures SensedIn([v]) == if v.Sensed? then [v.parsed] else []
  {
    assert [v][1..] == [];
  }

  lemma FirstOfConcat(a: string, b: string)
    ensures a != "" ==> (a + b)[0] == a[0]
    ensures a == "" ==> a + b == b
  {
  }

  /** A status line starts with an 'A', so blank pieces of its beginning are empty. */
  lemma {:induction false} BlankStart(cuts: seq<Insertion>, tail: string)
    requires AllBlank(cuts) && Pieces(cuts) + tail != "" && !IsSpace((Pieces(cuts) + tail)[0])
    ensures Pieces(cuts) == ""
  {
    if cuts != [] {
      Seqs.Assoc(cuts[0].piece, Pieces(cuts[1..]), tail);
      FirstOfConcat(cuts[0].piece, Pieces(cuts[1..]) + tail);
      Seqs.EmptyConcat(Pieces(cuts[1..]));
      BlankStart(cuts[1..], tail);
    }
  }

  lemma {:induction false} NoPieces(cuts: seq<Insertion>)
    requires Pieces(cuts) == ""
    ensures AllBlank(cuts)
  {
    if cuts != [] {
      NoPieces(cuts[1..]);
      assert cuts[0].piece == "";
      assert cuts == [cuts[0]] + cuts[1..];
    }
  }

  lemma WholeLineCuts(item: Item)
    requires item.Relayed? && WellCut(item) && item.skipped == "" && AllBlank(item.cuts)
    ensures Pieces(item.cuts) == ""
  {
    Seqs.EmptyConcat(Pieces(item.cuts) + item.tail);
    assert StatusLine(item.report)[0] == 'A';
    BlankStart(item.cuts, item.tail);
  }

  lemma ItemDemuxed(item: Item)
    requires WellCut(item) && (item.Relayed? ==> AllBlank(item.cuts))
    ensures AcksIn(ItemVerdicts(item)) == ItemWrites(item)
    ensures SensedIn(ItemVerdicts(item)) == ItemReports(item)
  {
    match item
    case Lone(ok) => OneDemuxed(Acked(ok));
    case Relayed(report, skipped, cuts, _) =>
      if skipped == "" {
        WholeLineCuts(item);
      }
      BlankCutVerdicts(cuts);
      CutsSenseNothing(cuts);
      ExpectedIsNoAck(report);
      LineDemuxed(cuts, if skipped + Pieces(cuts) == "" then VerdictOf(Expected(report)) else Dropped);
  }

  lemma LineDemuxed(cuts: seq<Insertion>, last: Verdict)
    requires !last.Acked?
    ensures AcksIn(CutVerdicts(cuts) + [last]) == AcksIn(CutVerdicts(cuts))
    ensures SensedIn(CutVerdicts(cuts) + [last]) == SensedIn(CutVerdicts(cuts))
            + if last.Sensed? then [last.parsed] else []
  {
    OneDemuxed(last);
    DemuxAppend(CutVerdicts(cuts), [last]);
  }

  lemma {:induction false} ItemsDemuxed(items: seq<Item>)
    requires AllWellCut(items) && OnlyBlanksCut(items)
    ensures AcksIn(AllVerdicts(items)) == AckWrites(items)
    ensures SensedIn(AllVerdicts(items)) == Reports(items)
  {
    if items != [] {
      ItemsDemuxed(items[1..]);
      ItemDemuxed(items[0]);
      DemuxAppend(ItemVerdicts(items[0]), AllVerdicts(items[1..]));
    }
  }

  lemma ItemAcksCount(item: Item)
    ensures |AcksIn(ItemVerdicts(item))| <= |ItemWrites(item)|
    ensures |AcksIn(ItemVerdicts(item))| == |ItemWrites(item)| && item.Relayed? ==> AllBlank(item.cuts)
  {
    match item
    case Lone(ok) => OneDemuxed(Acked(ok));
    case Relayed(report, skipped, cuts, _) =>
      CutAcksCount(cuts);
      ExpectedIsNoAck(report);
      LineDemuxed(cuts, if skipped + Pieces(cuts) == "" then VerdictOf(Expected(report)) else Dropped);
  }

  lemma {:induction false} AcksCount(items: seq<Item>)
    ensures |AcksIn(AllVerdicts(items))| <= |AckWrites(items)|
    ensures |AcksIn(AllVerdicts(items))| == |AckWrites(items)| ==> OnlyBlanksCut(items)
  {
    if items != [] {
      AcksCount(items[1..]);
      ItemAcksCount(items[0]);
      DemuxAppend(ItemVerdicts(items[0]), AllVerdicts(items[1..]));
      assert items == [items[0]] + items[1..];
    }
  }

  /** Splitting and classifying the stream gives back exactly the ACKs written, in order, if and only
      if nothing but blanks precedes any of them on its line; and then it gives back exactly the
      usable reports as well. */
  lemma DemultiplexingIsExact(items: seq<Item>)
    requires AllWellCut(items)
    ensures AcksIn(Verdicts(Frames(items))) == AckWrites(items) <==> OnlyBlanksCut(items)
    ensures OnlyBlanksCut(items) ==> SensedIn(Verdicts(Frames(items))) == Reports(items)
  {
    RelayIsFailSafe(items);
    AcksCount(items);
    if OnlyBlanksCut(items) {
      ItemsDemuxed(items);
    }
  }

  /** When the relay starts at a line boundary, that means: if and only if every ACK is written
      between two status lines. */
  lemma FramingKeptIff(items: seq<Item>)
    requires AllWellCut(items) && WholeLines(items)
    ensures AcksIn(Verdicts(Frames(items))) == AckWrites(items) <==> AtBoundaries(items)
    ensures AtBoundaries(items) ==> SensedIn(Verdicts(Frames(items))) == Reports(items)
  {
    DemultiplexingIsExact(items);
    BoundariesAreBlanks(items);
  }

  lemma BoundariesAreBlanks(items: seq<Item>)
    requires AllWellCut(items) && WholeLines(items)
    ensures OnlyBlanksCut(items) <==> AtBoundaries(items)
  {
    forall i | 0 <= i < |items| && items[i].Relayed? ensures AllBlank(items[i].cuts) <==> Pieces(items[i].cuts) == "" {
      if Pieces(items[i].cuts) == "" {
        NoPieces(items[i].cuts);
      } else if AllBlank(items[i].cuts) {
        WholeLineCuts(items[i]);
      }
    }
  }

  lemma ExpectedIsNoAck(r: Report)
    ensures !Expected(r).ArmAck?
    ensures VerdictOf(Expected(r)) == if Expected(r).Rejected? then Dropped else Sensed(Expected(r))
  {
  }
}
