/** The relayed stream as the receiver thread gets it: in chunks of any sizes. */
module ReceivedStream {
  import Seqs
  import opened Text
  import opened LineFraming
  import opened Telemetry
  import opened TornFrames
  import opened RelayedStream

  // ---------- no frame exceeds the line limit ----------

  lemma AckLineIsShort(ok: bool)
    ensures |AckLine(ok)| <= 14
  {
    assert |AckWord()| == 7;
  }

  lemma {:induction false} PiecesAreShort(cuts: seq<Insertion>)
    ensures forall i :: 0 <= i < |cuts| ==> |cuts[i].piece| <= |Pieces(cuts)|
  {
    if cuts != [] {
      PiecesAreShort(cuts[1..]);
      assert cuts == [cuts[0]] + cuts[1..];
    }
  }

  lemma {:induction false} CutFramesAreShort(cuts: seq<Insertion>, k: nat)
    requires (forall i :: 0 <= i < |cuts| ==> |cuts[i].piece| <= k) && k + 14 <= MAX_LINE_BYTES
    ensures AllShort(CutFrames(cuts))
  {
    if cuts != [] {
      AckLineIsShort(cuts[0].ok);
      CutFramesAreShort(cuts[1..], k);
    }
  }

  lemma ItemFramesAreShort(item: Item)
    requires WellCut(item)
    ensures AllShort(ItemFrames(item))
  {
    match item
    case Lone(ok) => AckLineIsShort(ok);
    case Relayed(report, skipped, cuts, tail) =>
      StatusFitsBuffer(report);
      assert |Pieces(cuts)| + |tail| <= |StatusLine(report)|;
      PiecesAreShort(cuts);
      CutFramesAreShort(cuts, MESSAGE_SIZE);
  }

  lemma {:induction false} FramesAreShort(items: seq<Item>)
    requires AllWellCut(items)
    ensures AllShort(Frames(items))
  {
    if items != [] {
      ItemFramesAreShort(items[0]);
      FramesAreShort(items[1..]);
    }
  }

  // ---------- the receiver routes exactly the frames ----------

  lemma SplitWithRest(bytes: string, rest: string, frames: seq<string>)
    requires Split(bytes, '\n') == frames + [""] && '\n' !in rest
    ensures Split(bytes + rest, '\n') == frames + [rest]
  {
    SplitPlain(rest, '\n');
    SplitAppend(bytes, rest, '\n');
    Seqs.EmptyConcat(rest);
    assert Fuse(frames + [""], [rest]) == frames + [rest];
  }

  lemma LastSplitsOff(lines: seq<string>, buffer: string, frames: seq<string>, rest: string)
    requires lines + [buffer] == frames + [rest]
    ensures lines == frames && buffer == rest
  {
    var all := lines + [buffer];
    assert all[..|all| - 1] == lines && (frames + [rest])[..|frames + [rest]| - 1] == frames;
    assert all[|all| - 1] == buffer;
  }

  /** End to end over the link: whatever chunks the stream arrives in, and with a line still incomplete
      at its end, the receiver routes exactly the frames of the stream, and their verdicts are those
      of RelayIsFailSafe. */
  lemma ChunksAreRead(items: seq<Item>, rest: string, chunks: seq<string>)
    requires AllWellCut(items) && '\n' !in rest && |rest| <= MAX_LINE_BYTES && Stream(chunks) == Bytes(items) + rest
    ensures FeedAll(chunks).lines == Frames(items) && FeedAll(chunks).buffer == rest && FeedAll(chunks).dropped == 0
    ensures Verdicts(FeedAll(chunks).lines) == AllVerdicts(items)
  {
    RelayIsFailSafe(items);
    SplitWithRest(Bytes(items), rest, Frames(items));
    FramesAreShort(items);
    ShortLinesAreNeverDropped(chunks);
    FramingIgnoresChunking(chunks);
    LastSplitsOff(FeedAll(chunks).lines, FeedAll(chunks).buffer, Frames(items), rest);
  }
}
