/** The backend's view of the relay: Arm ACKs written into the bytewise relayed AGV stream.

    The Arm controller writes each ACK line in one piece, but relays the AGV's bytes one at a
    time, so an ACK may land anywhere inside a status line.  The relay keeps framing only at
    line boundaries; elsewhere it is fail-safe, which is what is proved here. */
module TornFrames {
  import Seqs
  import opened Text
  import opened PyNumber
  import opened Esp32Parser
  import opened Telemetry

  function Status(ok: bool): string {
    if ok then "OK" else "ERROR"
  }

  function AckWord(): string {
    "ARM_ACK"
  }

  /** println("ARM_ACK,...") up to the LF. */
  function AckLine(ok: bool): string {
    AckWord() + [','] + (Status(ok) + "\r")
  }

  // ---------- an ACK after the beginning of a torn line ----------

  lemma StatusPlain(ok: bool)
    ensures ',' !in Status(ok) + "\r" && ',' !in AckWord() && 'K' in AckWord()
    ensures Strip(Status(ok) + "\r") == Status(ok)
  {
    assert AckWord()[6] == 'K';
    var s := Status(ok);
    StripTight(s);
    StripCr(s);
  }

  lemma SplitBeforeWord(piece: string, word: string, last: string)
    requires ',' !in word && ',' !in last
    ensures Split(piece + (word + [','] + last), ',') == Fuse(Split(piece, ','), [word]) + [last]
  {
    SplitPlain(word, ',');
    SplitPlain(last, ',');
    SplitAppend(piece, word, ',');
    SplitAtSep(piece + word, last, ',');
    assert piece + (word + [','] + last) == piece + word + [','] + last;
  }

  lemma StripFused(f: seq<string>, word: string, last: string)
    requires f != []
    ensures var g := StripAll(Fuse(f, [word]) + [last]);
            |g| == |f| + 1 && g[|f|] == Strip(last) && g[|f| - 1] == Strip(f[|f| - 1] + word)
            && (|f| > 1 ==> g[0] == Strip(f[0]))
  {
    var x := Fuse(f, [word]) + [last];
    assert x[|f|] == last;
    assert x[|f| - 1] == f[|f| - 1] + word;
    assert |f| > 1 ==> x[0] == f[0];
  }

  /** The stripped fields g of a line that ends in an ACK, where f are those of what precedes it. */
  predicate HeadFields(f: seq<string>, g: seq<string>, ok: bool) {
    && |f| >= 1 && |g| == |f| + 1
    && g[|f|] == Status(ok)
    && g[|f| - 1] == Strip(f[|f| - 1] + AckWord())
    && (|f| > 1 ==> g[0] == Strip(f[0]))
  }

  lemma TornHeadFields(piece: string, ok: bool)
    ensures HeadFields(Split(piece, ','), StripAll(Split(piece + AckLine(ok), ',')), ok)
  {
    StatusPlain(ok);
    SplitBeforeWord(piece, AckWord(), Status(ok) + "\r");
    StripFused(Split(piece, ','), AckWord(), Status(ok) + "\r");
  }

  lemma BlankBefore(piece: string, word: string)
    requires Blank(piece) && word != "" && !IsSpace(word[0]) && !IsSpace(word[|word| - 1])
    ensures Strip(piece + word) == word
  {
    StripTight(word);
    StripPadded(piece, word, "");
    assert piece + word + "" == piece + word;
  }

  lemma WordAlone(piece: string, word: string)
    requires word != "" && !IsSpace(word[|word| - 1]) && Strip(piece + word) == word
    ensures Blank(piece)
  {
    var left, right := StripParts(piece + word);
    OnlyLeft(piece, word, left, right);
  }

  lemma LastOfConcat(a: string, b: string)
    requires b != ""
    ensures (a + b)[|a + b| - 1] == b[|b| - 1]
  {
  }

  lemma OnlyLeft(piece: string, word: string, left: string, right: string)
    requires word != "" && !IsSpace(word[|word| - 1])
    requires piece + word == left + word + right && Blank(left) && Blank(right)
    ensures Blank(piece)
  {
    var x := piece + word;
    LastOfConcat(piece, word);
    if right != "" {
      LastOfConcat(left + word, right);
    }
    assert piece == x[..|piece|];
    assert left == (left + word + right)[..|left|];
  }

  lemma WordAtEnd(piece: string)
    ensures Strip(piece + AckWord()) == AckWord() <==> Blank(piece)
    ensures 'K' in Strip(piece + AckWord())
  {
    var word := AckWord();
    assert word[6] == 'K' && word[0] == 'A';
    assert (piece + word)[|piece| + 6] == 'K';
    StripMembers(piece + word, 'K');
    if Blank(piece) {
      BlankBefore(piece, word);
    } else if Strip(piece + word) == word {
      WordAlone(piece, word);
    }
  }

  lemma NoNumberWithK(a: string, b: string, c: string)
    requires 'K' in b
    ensures Invalid in Floats([a, b, c])
  {
    FloatRejects(b, 'K');
    ConversionsCons(a, [b, c]);
    ConversionsCons(b, [c]);
    assert [a, b, c] == [a] + [b, c] && [b, c] == [b] + [c];
    assert Floats([a, b, c])[1] == Invalid;
  }

  lemma KIsNoEvent(event: string)
    requires 'K' in event
    ensures event != "" && event != "DEST" && !SupportedEvent(event) && event != "AGV"
  {
    var i :| 0 <= i < |event| && event[i] == 'K';
  }

  lemma SensorFieldWithK(fields: seq<string>)
    requires |fields| == 8 && 'K' in fields[6]
    ensures ParseSensors(fields) == Rejected(Conversion)
  {
    NoNumberWithK(fields[2], fields[6], fields[7]);
  }

  /** Of the field lists with a 'K' in the last but one field, only the ACKs are accepted. */
  lemma FieldsEndingInAck(g: seq<string>, ok: bool)
    requires |g| >= 2 && g[|g| - 1] == Status(ok) && 'K' in g[|g| - 2]
    ensures |g| == 2 && g[0] == AckWord() ==> ParseFields(g) == ArmAck(ok)
    ensures !(|g| == 2 && g[0] == AckWord()) ==> ParseFields(g).Rejected?
  {
    KIsNoEvent(g[|g| - 2]);
    if |g| == 8 {
      SensorFieldWithK(g);
    }
  }

  /** Whatever precedes an ACK on its line, the line is an ACK exactly when that is blank, and is
      rejected otherwise: a torn status line never yields a false ACK, nor false telemetry. */
  lemma TornHead(piece: string, ok: bool)
    ensures Blank(piece) ==> ParseLine(piece + AckLine(ok)) == ArmAck(ok)
    ensures !Blank(piece) ==> ParseLine(piece + AckLine(ok)).Rejected?
  {
    TornHeadFields(piece, ok);
    var g := StripAll(Split(piece + AckLine(ok), ','));
    TornHeadParse(piece, ok, piece + AckLine(ok), g);
    TornHeadVerdict(piece, ok, Split(piece, ','), g);
  }

  lemma TornHeadParse(piece: string, ok: bool, line: string, g: seq<string>)
    requires line == piece + AckLine(ok) && g == StripAll(Split(line, ','))
    ensures ParseLine(line) == ParseFields(g)
  {
    AckInLine(piece, ok);
    ParseByFields(line, 'A', g);
  }

  lemma TornHeadVerdict(piece: string, ok: bool, f: seq<string>, g: seq<string>)
    requires f == Split(piece, ',') && HeadFields(f, g, ok)
    ensures Blank(piece) ==> ParseFields(g) == ArmAck(ok)
    ensures !Blank(piece) ==> ParseFields(g).Rejected?
  {
    WordAtEnd(f[|f| - 1]);
    FieldsEndingInAck(g, ok);
    OneFieldIff(piece);
  }

  lemma AckInLine(piece: string, ok: bool)
    ensures 'A' in piece + AckLine(ok)
  {
    assert AckWord()[0] == 'A';
    assert (piece + AckLine(ok))[|piece|] == 'A';
  }

  lemma OneFieldIff(piece: string)
    ensures |Split(piece, ',')| == 1 ==> Split(piece, ',')[0] == piece
    ensures |Split(piece, ',')| > 1 ==> !Blank(piece)
  {
    if ',' in piece {
      CommaSplits(piece);
    } else {
      SplitPlain(piece, ',');
    }
  }

  lemma {:induction false} CommaSplits(s: string)
    requires ',' in s
    ensures |Split(s, ',')| >= 2
  {
    if s[0] != ',' {
      CommaSplits(s[1..]);
    }
  }

  // ---------- the rest of a torn status line ----------

  lemma {:induction false} JoinedChars(fields: seq<string>, c: char)
    requires c != ',' && forall i :: 0 <= i < |fields| ==> c !in fields[i]
    ensures c !in Joined(fields)
  {
    if fields != [] {
      JoinedChars(fields[1..], c);
    }
  }

  lemma WordChars(state: string)
    requires DriveState(state)
    ensures 'V' !in state && 'K' !in state
  {
  }

  /** The only 'V' of a status line is the one of its "AGV", and it has no 'K'. */
  lemma StatusChars(r: Report, i: nat)
    requires DriveState(r.state) && i < |StatusLine(r)|
    ensures StatusLine(r)[i] == 'V' ==> i == 2
    ensures StatusLine(r)[i] != 'K'
  {
    WordChars(r.state);
    PayloadLacks(r, 'V');
    PayloadLacks(r, 'K');
    JoinedChars(Payload(r), 'V');
    JoinedChars(Payload(r), 'K');
    var j := Joined(Payload(r));
    assert StatusLine(r) == "AGV" + (j + "\r");
    if i >= 3 {
      assert StatusLine(r)[i] == (j + "\r")[i - 3];
    }
  }

  lemma AcceptedFields(x: string)
    requires !ParseLine(x).Rejected? && Strip(x) != "OK"
    ensures !ParseFields(StripAll(Split(Strip(x), ','))).Rejected?
  {
  }

  /** A character of the first stripped field, traced back to the line. */
  lemma FieldChar(x: string, left: string, text: string, right: string, f: string, l: string, word: string,
                  r: string, k: nat)
    requires x == left + text + right && f <= text && f == l + word + r && k < |word|
    ensures |left| + |l| + k < |x| && x[|left| + (|l| + k)] == word[k]
  {
    Seqs.Middle(l, word, r, k);
    Seqs.Middle(left, text, right, |l| + k);
  }

  /** A line accepted as telemetry has a 'V' at index 2 or later; one accepted as an ACK has a 'K'. */
  lemma AcceptedNeeds(x: string) returns (i: nat)
    requires !ParseLine(x).Rejected?
    ensures i < |x| && ((x[i] == 'V' && i >= 2) || x[i] == 'K')
  {
    var left, right := StripParts(x);
    var text := Strip(x);
    if text == "OK" {
      Seqs.Middle(left, text, right, 1);
      i := |left| + 1;
    } else {
      AcceptedFields(x);
      var f := Split(text, ',')[0];
      FirstFieldIsPrefix(text, ',');
      var l, r := StripParts(f);
      var word := Strip(f);
      AcceptedWord(StripAll(Split(text, ',')), word);
      FieldChar(x, left, text, right, f, l, word, r, |word| - 1);
      i := |left| + (|l| + (|word| - 1));
    }
  }

  lemma AcceptedWord(fields: seq<string>, w: string)
    requires |fields| >= 1 && !ParseFields(fields).Rejected? && w == fields[0]
    ensures (|w| == 3 && w[2] == 'V') || (|w| == 7 && w[6] == 'K')
  {
    assert w == "AGV" || w == "ARM_ACK";
  }

  lemma TornChar(r: Report, a: nat, i: nat, x: string)
    requires DriveState(r.state) && 1 <= a <= |StatusLine(r)| && x == StatusLine(r)[a..] && i < |x|
    ensures !((x[i] == 'V' && i >= 2) || x[i] == 'K')
  {
    StatusChars(r, a + i);
  }

  /** What is left of a status line after its first byte is rejected, wherever it was cut. */
  lemma TornTail(r: Report, a: nat)
    requires DriveState(r.state) && 1 <= a <= |StatusLine(r)|
    ensures ParseLine(StatusLine(r)[a..]).Rejected?
  {
    var x := StatusLine(r)[a..];
    if !ParseLine(x).Rejected? {
      var i := AcceptedNeeds(x);
      TornChar(r, a, i, x);
    }
  }
}
