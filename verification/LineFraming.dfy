/** The framing loop of _receiver_loop: chunks in, newline-free lines out. */
module LineFraming {
  import Seqs
  import opened Text

  const MAX_LINE_BYTES := 8192

  // ---------- the loop itself ----------

  class LineReceiver {
    var buffer: string

    constructor ()
      ensures buffer == ""
    {
      buffer := "";
    }

    /** One received chunk: route every complete line, then drop an oversized remainder. */
    method Feed(chunk: string) returns (routed: seq<string>, tooLarge: bool)
      modifies this
      ensures (routed, buffer, tooLarge) == FeedChunk(old(buffer), chunk)
    {
      buffer := buffer + chunk;
      routed, tooLarge := [], false;
      while '\n' in buffer
        invariant Split(old(buffer) + chunk, '\n') == routed + Split(buffer, '\n')
        decreases |buffer|
      {
        var rawLine := Before(buffer);
        var remaining := buffer[|rawLine| + 1..];
        RouteOne(routed, buffer, rawLine, remaining);
        routed := routed + [rawLine];
        buffer := remaining;
      }
      SplitPlain(buffer, '\n');
      if |buffer| > MAX_LINE_BYTES {
        buffer := "";
        tooLarge := true;
      }
    }
  }

  lemma RouteOne(routed: seq<string>, buffer: string, rawLine: string, remaining: string)
    requires '\n' in buffer && rawLine == Before(buffer) && remaining == buffer[|rawLine| + 1..]
    ensures routed + Split(buffer, '\n') == routed + [rawLine] + Split(remaining, '\n')
  {
    assert buffer == rawLine + ['\n'] + remaining;
    SplitAtSep(rawLine, remaining, '\n');
    SplitPlain(rawLine, '\n');
    Seqs.Assoc(routed, [rawLine], Split(remaining, '\n'));
  }

  /** bytearray.partition(b"\n")[0]. */
  function Before(s: string): (t: string)
    requires '\n' in s
    ensures |t| < |s| && t == s[..|t|] && s[|t|] == '\n' && '\n' !in t
  {
    if s[0] == '\n' then "" else [s[0]] + Before(s[1..])
  }

  /** The lines of one chunk, the buffer left behind, and whether a remainder was dropped. */
  function FeedChunk(buffer: string, chunk: string): (seq<string>, string, bool) {
    var parts := Split(buffer + chunk, '\n');
    var rest := parts[|parts| - 1];
    if |rest| > MAX_LINE_BYTES then (parts[..|parts| - 1], "", true) else (parts[..|parts| - 1], rest, false)
  }

  // ---------- whole streams ----------

  /** Everything routed so far, the buffer, and the number of bytes dropped. */
  datatype Fed = Fed(lines: seq<string>, buffer: string, dropped: nat)

  function FeedAll(chunks: seq<string>): Fed {
    if chunks == [] then Fed([], "", 0)
    else
      var before := FeedAll(chunks[..|chunks| - 1]);
      var chunk := chunks[|chunks| - 1];
      var (lines, buffer, tooLarge) := FeedChunk(before.buffer, chunk);
      var parts := Split(before.buffer + chunk, '\n');
      Fed(before.lines + lines, buffer, before.dropped + if tooLarge then |parts[|parts| - 1]| else 0)
  }

  function Stream(chunks: seq<string>): string {
    if chunks == [] then "" else Stream(chunks[..|chunks| - 1]) + chunks[|chunks| - 1]
  }

  /** Between two chunks the buffer holds no newline and at most one maximal line. */
  lemma {:induction false} BufferStaysBounded(chunks: seq<string>)
    ensures '\n' !in FeedAll(chunks).buffer && |FeedAll(chunks).buffer| <= MAX_LINE_BYTES
    ensures forall i :: 0 <= i < |FeedAll(chunks).lines| ==> '\n' !in FeedAll(chunks).lines[i]
  {
    if chunks != [] {
      BufferStaysBounded(chunks[..|chunks| - 1]);
      SplitFieldsHaveNoSep(FeedAll(chunks[..|chunks| - 1]).buffer + chunks[|chunks| - 1], '\n');
    }
  }

  lemma FuseTail(lines: seq<string>, last: string, y: seq<string>)
    requires y != []
    ensures Fuse(lines + [last], y) == lines + Fuse([last], y)
  {
    assert (lines + [last])[..|lines|] == lines;
    assert [last][..0] == [];
  }

  lemma ChunkExtendsSplit(lines: seq<string>, buffer: string, stream: string, chunk: string)
    requires lines + [buffer] == Split(stream, '\n') && '\n' !in buffer
    ensures lines + Split(buffer + chunk, '\n') == Split(stream + chunk, '\n')
  {
    SplitPlain(buffer, '\n');
    SplitAppend(buffer, chunk, '\n');
    SplitAppend(stream, chunk, '\n');
    FuseTail(lines, buffer, Split(chunk, '\n'));
  }

  /** As long as nothing is dropped, the routed lines and the buffer are the newline-split of the
      stream received so far, wherever it was cut into chunks. */
  lemma {:induction false} UndroppedIsSplit(chunks: seq<string>)
    requires FeedAll(chunks).dropped == 0
    ensures FeedAll(chunks).lines + [FeedAll(chunks).buffer] == Split(Stream(chunks), '\n')
  {
    if chunks != [] {
      var init, chunk := chunks[..|chunks| - 1], chunks[|chunks| - 1];
      var before := FeedAll(init);
      UndroppedIsSplit(init);
      BufferStaysBounded(init);
      ChunkExtendsSplit(before.lines, before.buffer, Stream(init), chunk);
      var parts := Split(before.buffer + chunk, '\n');
      Reassociate(before.lines, parts);
    }
  }

  lemma Reassociate(lines: seq<string>, parts: seq<string>)
    requires parts != []
    ensures lines + parts[..|parts| - 1] + [parts[|parts| - 1]] == lines + parts
  {
  }

  predicate AllShort(fields: seq<string>) {
    forall i :: 0 <= i < |fields| ==> |fields[i]| <= MAX_LINE_BYTES
  }

  lemma ShortPrefix(a: string, b: string)
    requires AllShort(Split(a + b, '\n'))
    ensures AllShort(Split(a, '\n'))
  {
    SplitAppend(a, b, '\n');
    var x := Split(a, '\n');
    var z := Split(a + b, '\n');
    forall i | 0 <= i < |x| ensures |x[i]| <= MAX_LINE_BYTES {
      assert |z[i]| <= MAX_LINE_BYTES;
      assert i < |x| - 1 ==> x[i] == z[i];
    }
  }

  lemma LastIsShort(lines: seq<string>, parts: seq<string>)
    requires parts != [] && AllShort(lines + parts)
    ensures |parts[|parts| - 1]| <= MAX_LINE_BYTES
  {
    var whole := lines + parts;
    assert whole[|whole| - 1] == parts[|parts| - 1];
  }

  lemma {:induction false} ShortLinesAreNeverDropped(chunks: seq<string>)
    requires AllShort(Split(Stream(chunks), '\n'))
    ensures FeedAll(chunks).dropped == 0
  {
    if chunks != [] {
      var init, chunk := chunks[..|chunks| - 1], chunks[|chunks| - 1];
      ShortPrefix(Stream(init), chunk);
      ShortLinesAreNeverDropped(init);
      UndroppedIsSplit(init);
      BufferStaysBounded(init);
      var before := FeedAll(init);
      ChunkExtendsSplit(before.lines, before.buffer, Stream(init), chunk);
      LastIsShort(before.lines, Split(before.buffer + chunk, '\n'));
    }
  }

  /** Framing does not depend on the chunking: when no line is longer than the limit, the routed
      lines are exactly the newline-split of the whole stream. */
  lemma FramingIgnoresChunking(chunks: seq<string>)
    requires AllShort(Split(Stream(chunks), '\n'))
    ensures FeedAll(chunks).lines + [FeedAll(chunks).buffer] == Split(Stream(chunks), '\n')
  {
    ShortLinesAreNeverDropped(chunks);
    UndroppedIsSplit(chunks);
  }

  // ---------- conservation ----------

  /** Bytes in a list of fields, counting one separator between neighbours. */
  function FieldBytes(fields: seq<string>): nat {
    if |fields| == 0 then 0
    else if |fields| == 1 then |fields[0]|
    else |fields[0]| + 1 + FieldBytes(fields[1..])
  }

  lemma {:induction false} SplitConserves(s: string)
    ensures FieldBytes(Split(s, '\n')) == |s|
  {
    if s != "" {
      SplitConserves(s[1..]);
      var t := Split(s[1..], '\n');
      if s[0] == '\n' {
        assert ([""] + t)[1..] == t;
      } else if |t| > 1 {
        assert Split(s, '\n')[1..] == t[1..];
      }
    }
  }

  lemma {:induction false} FieldBytesJoin(a: seq<string>, b: seq<string>)
    requires b != []
    ensures FieldBytes(a + b) == (if a == [] then 0 else FieldBytes(a) + 1) + FieldBytes(b)
  {
    if a == [] {
      assert a + b == b;
    } else {
      assert (a + b)[1..] == a[1..] + b;
      FieldBytesJoin(a[1..], b);
    }
  }

  lemma ChunkConserves(lines: seq<string>, buffer: string, chunk: string, rest: string)
    ensures var parts := Split(buffer + chunk, '\n');
            FieldBytes(lines + parts[..|parts| - 1] + [rest]) + |parts[|parts| - 1]|
            == FieldBytes(lines + [buffer]) + |chunk| + |rest|
  {
    var parts := Split(buffer + chunk, '\n');
    SplitConserves(buffer + chunk);
    FieldBytesJoin(lines, [buffer]);
    FieldBytesJoin(lines, parts);
    SwapLast(lines + parts[..|parts| - 1], parts[|parts| - 1], rest);
    Reassociate(lines, parts);
  }

  lemma SwapLast(fields: seq<string>, last: string, other: string)
    ensures FieldBytes(fields + [last]) + |other| == FieldBytes(fields + [other]) + |last|
  {
    FieldBytesJoin(fields, [last]);
    FieldBytesJoin(fields, [other]);
  }

  /** Every byte received was routed in a line, ended a line, is in the buffer, or was dropped. */
  lemma {:induction false} BytesAreConserved(chunks: seq<string>)
    ensures FieldBytes(FeedAll(chunks).lines + [FeedAll(chunks).buffer]) + FeedAll(chunks).dropped == |Stream(chunks)|
  {
    if chunks != [] {
      var init, chunk := chunks[..|chunks| - 1], chunks[|chunks| - 1];
      BytesAreConserved(init);
      ChunkConserves(FeedAll(init).lines, FeedAll(init).buffer, chunk, FeedAll(chunks).buffer);
    }
  }

  /** The stream is recovered exactly if and only if no remainder was dropped. */
  lemma ExactIffNothingDropped(chunks: seq<string>)
    ensures FeedAll(chunks).lines + [FeedAll(chunks).buffer] == Split(Stream(chunks), '\n')
            <==> FeedAll(chunks).dropped == 0
  {
    if FeedAll(chunks).dropped == 0 {
      UndroppedIsSplit(chunks);
    } else {
      BytesAreConserved(chunks);
      SplitConserves(Stream(chunks));
    }
  }
}
