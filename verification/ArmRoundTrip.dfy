/** From four angles in the backend to the ACK the backend reads. */
module ArmRoundTrip {
  import opened Text
  import opened ArmCommandText
  import opened ArmFirmware
  import opened LineFraming
  import opened RelayedStream
  import ReceivedStream
  import Seqs

  /** The lines the firmware writes for its replies. */
  function ReplyItems(replies: seq<Reply>): seq<Item> {
    if replies == [] then [] else [Lone(replies[0].Applied?)] + ReplyItems(replies[1..])
  }

  function Applications(replies: seq<Reply>): seq<bool> {
    if replies == [] then [] else [replies[0].Applied?] + Applications(replies[1..])
  }

  lemma {:induction false} RepliesAreRead(replies: seq<Reply>)
    ensures AcksIn(AllVerdicts(ReplyItems(replies))) == Applications(replies) && AllWellCut(ReplyItems(replies))
  {
    if replies != [] {
      RepliesAreRead(replies[1..]);
      var item := Lone(replies[0].Applied?);
      assert ReplyItems(replies)[0] == item && ReplyItems(replies)[1..] == ReplyItems(replies[1..]);
      OneDemuxed(Acked(replies[0].Applied?));
      DemuxAppend(ItemVerdicts(item), AllVerdicts(ReplyItems(replies[1..])));
    }
  }

  /** The chunks carry the firmware's replies to these bytes. */
  predicate Carry(chunks: seq<string>, bytes: string) {
    Stream(chunks) == Bytes(ReplyItems(ReceiveBytes(CLEAN, bytes).1))
  }

  lemma RepliesArrive(chunks: seq<string>, bytes: string, replies: seq<Reply>)
    requires Carry(chunks, bytes) && replies == ReceiveBytes(CLEAN, bytes).1
    ensures AcksIn(Verdicts(FeedAll(chunks).lines)) == Applications(replies)
  {
    RepliesAreRead(replies);
    Seqs.EmptyConcat(Stream(chunks));
    ReceivedStream.ChunksAreRead(ReplyItems(replies), "", chunks);
  }

  /** Of any byte stream the backend reads back one ACK per line sent, in order, OK exactly for
      the lines that fit the firmware's buffer and hold four angles, whatever chunks the replies
      arrive in. */
  lemma EveryLineIsAcked(bytes: string, chunks: seq<string>)
    requires Carry(chunks, bytes)
    ensures var lines := Split(bytes, '\n');
            var answers := Answers(lines[..|lines| - 1]);
            AcksIn(Verdicts(FeedAll(chunks).lines)) == Applications(answers) && |answers| == |lines| - 1
  {
    OneReplyPerLine(bytes);
    RepliesArrive(chunks, bytes, ReceiveBytes(CLEAN, bytes).1);
  }

  /** A validated command is applied unchanged and acknowledged once, with OK. */
  lemma ValidCommandRoundTrip(a: int, b: int, c: int, d: int, chunks: seq<string>)
    requires 0 <= a <= 180 && 0 <= b <= 180 && 0 <= c <= 180 && 0 <= d <= 180
    requires Carry(chunks, Wire(a, b, c, d) + "\n")
    ensures ReceiveBytes(CLEAN, Wire(a, b, c, d) + "\n") == (CLEAN, [Applied([a, b, c, d])])
    ensures AcksIn(Verdicts(FeedAll(chunks).lines)) == [true]
  {
    CommandIsApplied(a, b, c, d);
    var replies := [Applied([a, b, c, d])];
    RepliesArrive(chunks, Wire(a, b, c, d) + "\n", replies);
    assert replies[1..] == [];
  }
}
