/** The Arm firmware's command receiver: bytes in, one ACK per line out. */
module ArmFirmware {
  import opened Options
  import opened Text
  import opened ArmCommandText
  import PyNumber

  const CAPACITY: nat := 64

  /** ARM_ACK,ERROR, or ARM_ACK,OK after these angles were written to the servos. */
  datatype Reply = Error | Applied(angles: seq<int>)

  /** The text of a C string held in a buffer: everything before the first NUL. */
  function CText(line: string): (t: string)
    ensures t <= line && '\0' !in t && (|t| < |line| ==> line[|t|] == '\0')
  {
    if line == "" || line[0] == '\0' then "" else [line[0]] + CText(line[1..])
  }

  // ---------- the receiver as a function of its input ----------

  datatype Rx = Rx(line: string, overflow: bool)

  const CLEAN := Rx("", false)

  function ReplyFor(rx: Rx): Reply {
    if rx.overflow then Error
    else match AnglesOf(CText(rx.line))
         case None => Error
         case Some(angles) => Applied(angles)
  }

  function ReceiveByte(rx: Rx, c: char): (Rx, seq<Reply>) {
    if c == '\r' then (rx, [])
    else if c == '\n' then (CLEAN, [ReplyFor(rx)])
    else if rx.overflow then (rx, [])
    else if |rx.line| + 1 >= CAPACITY then (rx.(overflow := true), [])
    else (rx.(line := rx.line + [c]), [])
  }

  function ReceiveBytes(rx: Rx, bytes: string): (Rx, seq<Reply>) {
    if bytes == "" then (rx, [])
    else
      var (mid, before) := ReceiveBytes(rx, bytes[..|bytes| - 1]);
      var (end, after) := ReceiveByte(mid, bytes[|bytes| - 1]);
      (end, before + after)
  }

  lemma ReceiveOneMore(rx: Rx, bytes: string, i: nat)
    requires i < |bytes|
    ensures var (mid, before) := ReceiveBytes(rx, bytes[..i]);
            var (end, after) := ReceiveByte(mid, bytes[i]);
            ReceiveBytes(rx, bytes[..i + 1]) == (end, if after == [] then before else before + after)
  {
    assert bytes[..i + 1][..i] == bytes[..i];
    assert ReceiveBytes(rx, bytes[..i]).1 + [] == ReceiveBytes(rx, bytes[..i]).1;
  }

  // ---------- the receiver in place ----------

  ghost predicate IsCString(a: seq<char>, text: string) {
    |text| < |a| && a[..|text|] == text && a[|text|] == '\0' && '\0' !in text
  }

  lemma CharAt(a: seq<char>, text: string, i: nat)
    requires IsCString(a, text) && i <= |text|
    ensures i < |a| && (i < |text| ==> a[i] == text[i]) && (i == |text| ==> a[i] == '\0')
    ensures i < |text| ==> text[i..] == [text[i]] + text[i + 1..]
  {
  }

  method SkipBlanks(command: array<char>, ghost text: string, start: nat) returns (end: nat)
    requires IsCString(command[..], text) && start <= |text|
    ensures start <= end <= |text| && text[end..] == DropBlanks(text[start..])
  {
    end := start;
    CharAt(command[..], text, end);
    while command[end] == ' ' || command[end] == '\t'
      invariant start <= end <= |text| && end < command.Length
      invariant command[end] == (if end == |text| then '\0' else text[end])
      invariant DropBlanks(text[end..]) == DropBlanks(text[start..])
      decreases |text| - end
    {
      assert text[end..][1..] == text[end + 1..];
      end := end + 1;
      CharAt(command[..], text, end);
    }
  }

  /** strtol(cursor, &end, 10): end == cursor when nothing is converted. */
  method StrtolAt(command: array<char>, ghost text: string, cursor: nat) returns (value: int, end: nat)
    requires IsCString(command[..], text) && cursor <= |text|
    ensures cursor <= end <= |text|
    ensures Strtol(text[cursor..]).None? <==> end == cursor
    ensures Strtol(text[cursor..]).Some? ==> Strtol(text[cursor..]).value == (value, text[end..])
  {
    var start := SkipCSpaces(command, text, cursor);
    var sign, i := ReadSign(command, text, start);
    var magnitude;
    magnitude, end := ReadDigits(command, text, i);
    value := Clamp(sign * magnitude);
    assert Strtol(text[cursor..]) == Convert(sign, text[i..]);
    assert text[i..][end - i..] == text[end..];
    if end == i {
      value, end := 0, cursor;
    }
  }

  method ReadSign(command: array<char>, ghost text: string, start: nat) returns (sign: int, end: nat)
    requires IsCString(command[..], text) && start <= |text|
    ensures start <= end <= |text| && PyNumber.Signed(text[start..]) == (sign, text[end..])
  {
    CharAt(command[..], text, start);
    sign, end := 1, start;
    if command[start] == '-' || command[start] == '+' {
      sign := if command[start] == '-' then -1 else 1;
      end := start + 1;
      assert text[start..][1..] == text[end..];
    }
  }

  method SkipCSpaces(command: array<char>, ghost text: string, start: nat) returns (end: nat)
    requires IsCString(command[..], text) && start <= |text|
    ensures start <= end <= |text| && text[end..] == DropSpaces(text[start..])
  {
    end := start;
    CharAt(command[..], text, end);
    while IsCSpace(command[end])
      invariant start <= end <= |text| && end < command.Length
      invariant command[end] == (if end == |text| then '\0' else text[end])
      invariant DropSpaces(text[end..]) == DropSpaces(text[start..])
      decreases |text| - end
    {
      assert text[end..][1..] == text[end + 1..];
      end := end + 1;
      CharAt(command[..], text, end);
    }
  }

  method ReadDigits(command: array<char>, ghost text: string, start: nat) returns (value: nat, end: nat)
    requires IsCString(command[..], text) && start <= |text|
    ensures start <= end <= |text|
    ensures Digits(text[start..]) == text[start..end] && value == PyNumber.RunValue(text[start..end])
  {
    end, value := start, 0;
    CharAt(command[..], text, end);
    assert text[start..start] == "";
    while IsDigit(command[end])
      invariant start <= end <= |text| && end < command.Length
      invariant command[end] == (if end == |text| then '\0' else text[end])
      invariant forall k :: start <= k < end ==> IsDigit(text[k])
      invariant value == PyNumber.RunValue(text[start..end])
      decreases |text| - end
    {
      value := 10 * value + DigitOf(command[end]);
      assert text[start..end + 1][..end - start] == text[start..end];
      end := end + 1;
      CharAt(command[..], text, end);
    }
    DigitsBefore(text[start..end], text[end..]);
    assert text[start..] == text[start..end] + text[end..];
  }

  function Prepend(head: seq<int>, tail: Option<seq<int>>): Option<seq<int>> {
    match tail
    case None => None
    case Some(t) => Some(head + t)
  }

  lemma PrependNothing(r: Option<seq<int>>)
    ensures Prepend([], r) == r
  {
    if r.Some? {
      assert [] + r.value == r.value;
    }
  }

  lemma PrependOne(head: seq<int>, value: int, r: Option<seq<int>>)
    ensures Prepend(head, Prepend([value], r)) == Prepend(head + [value], r)
  {
    if r.Some? {
      assert head + ([value] + r.value) == head + [value] + r.value;
    }
  }

  /** The body of the field loop up to the delimiter test. */
  method ParseField(command: array<char>, ghost text: string, cursor: nat) returns (ok: bool, value: int, end: nat)
    requires IsCString(command[..], text) && cursor <= |text|
    ensures ok <==> ScanField(text[cursor..]).Some?
    ensures ok ==> cursor <= end <= |text| && ScanField(text[cursor..]).value == (value, text[end..])
  {
    var start := SkipBlanks(command, text, cursor);
    value, end := StrtolAt(command, text, start);
    ok := !(end == start || value < 0 || value > 180);
    if ok {
      end := SkipBlanks(command, text, end);
    }
  }

  /** The angles read so far and the cursor determine the outcome for the whole text. */
  ghost predicate Progress(whole: Option<seq<int>>, text: string, head: seq<int>, cursor: nat) {
    && cursor <= |text| && |head| <= 4
    && whole ==
       if |head| == 4 then Some(head) else Prepend(head, ScanAngles(text[cursor..], 4 - |head|))
  }

  lemma ProgressStart(text: string, k: nat)
    requires k == 4
    ensures Progress(ScanAngles(text, k), text, [], 0)
  {
    assert text[0..] == text;
    PrependNothing(ScanAngles(text, k));
  }

  lemma ProgressInit(text: string)
    ensures Progress(AnglesOf(text), text, [], 0)
  {
    ParserMatchesGrammar(text);
    ProgressStart(text, 4);
  }

  lemma ProgressFail(whole: Option<seq<int>>, text: string, head: seq<int>, cursor: nat)
    requires Progress(whole, text, head, cursor) && |head| < 4 && ScanField(text[cursor..]).None?
    ensures whole.None?
  {
  }

  lemma ScanComma(s: string, k: nat, v: int, rest: string)
    requires k >= 2 && ScanField(s) == Some((v, rest))
    ensures ScanAngles(s, k) ==
            if rest != "" && rest[0] == ',' then Prepend([v], ScanAngles(rest[1..], k - 1)) else None
  {
  }

  lemma SuffixStep(text: string, end: nat)
    requires end <= |text|
    ensures text[end..] == "" <==> end == |text|
    ensures end < |text| ==> text[end..][0] == text[end] && text[end..][1..] == text[end + 1..]
  {
  }

  /** One accepted field of several, on the texts alone. */
  lemma FieldStep(whole: Option<seq<int>>, head: seq<int>, s: string, k: nat, value: int, rest: string)
    requires k >= 2 && whole == Prepend(head, ScanAngles(s, k)) && ScanField(s) == Some((value, rest))
    ensures if rest != "" && rest[0] == ',' then whole == Prepend(head + [value], ScanAngles(rest[1..], k - 1))
            else whole.None?
  {
    ScanComma(s, k, value, rest);
    if rest != "" && rest[0] == ',' {
      PrependOne(head, value, ScanAngles(rest[1..], k - 1));
    }
  }

  lemma ProgressTail(whole: Option<seq<int>>, text: string, head: seq<int>, cursor: nat, k: nat)
    requires Progress(whole, text, head, cursor) && 1 <= k && |head| + k == 4
    ensures whole == Prepend(head, ScanAngles(text[cursor..], k))
  {
  }

  lemma ProgressOn(whole: Option<seq<int>>, text: string, head: seq<int>, s: string, k: nat, value: int, end: nat)
    requires k >= 2 && |head| + k == 4 && whole == Prepend(head, ScanAngles(s, k))
    requires end <= |text| && ScanField(s) == Some((value, text[end..]))
    ensures if end < |text| && text[end] == ',' then Progress(whole, text, head + [value], end + 1) else whole.None?
  {
    FieldStep(whole, head, s, k, value, text[end..]);
    SuffixStep(text, end);
    if end < |text| && text[end] == ',' {
      ProgressFrom(whole, text, head + [value], end + 1, k - 1);
    }
  }

  lemma ProgressStep(whole: Option<seq<int>>, text: string, head: seq<int>, cursor: nat, value: int, end: nat)
    requires Progress(whole, text, head, cursor) && |head| < 3
    requires cursor <= end <= |text| && ScanField(text[cursor..]) == Some((value, text[end..]))
    ensures if end < |text| && text[end] == ',' then Progress(whole, text, head + [value], end + 1) else whole.None?
  {
    ProgressTail(whole, text, head, cursor, 4 - |head|);
    ProgressOn(whole, text, head, text[cursor..], 4 - |head|, value, end);
  }

  lemma ProgressFrom(whole: Option<seq<int>>, text: string, head: seq<int>, cursor: nat, k: nat)
    requires cursor <= |text| && 1 <= k && |head| + k == 4
    requires whole == Prepend(head, ScanAngles(text[cursor..], k))
    ensures Progress(whole, text, head, cursor)
  {
  }

  lemma ProgressEnd(whole: Option<seq<int>>, text: string, head: seq<int>, cursor: nat, value: int, end: nat)
    requires Progress(whole, text, head, cursor) && |head| == 3
    requires cursor <= end <= |text| && ScanField(text[cursor..]) == Some((value, text[end..]))
    ensures if end == |text| then Progress(whole, text, head + [value], end) else whole.None?
  {
  }

  /** The delimiter test decides whether the angles read so far still count. */
  lemma AfterField(whole: Option<seq<int>>, text: string, head: seq<int>, cursor: nat, value: int, end: nat,
                   delimiter: char)
    requires Progress(whole, text, head, cursor) && |head| < 4 && '\0' !in text
    requires cursor <= end <= |text| && ScanField(text[cursor..]) == Some((value, text[end..]))
    requires delimiter == if end < |text| then text[end] else '\0'
    ensures if delimiter == (if |head| < 3 then ',' else '\0')
            then Progress(whole, text, head + [value], if |head| < 3 then end + 1 else end) else whole.None?
  {
    if |head| < 3 {
      ProgressStep(whole, text, head, cursor, value, end);
    } else {
      ProgressEnd(whole, text, head, cursor, value, end);
    }
  }

  method ParseAngleCommand(command: array<char>, ghost text: string, angles: array<int>) returns (ok: bool)
    requires IsCString(command[..], text) && angles.Length == 4
    modifies angles
    ensures ok <==> AnglesOf(text).Some?
    ensures ok ==> angles[..] == AnglesOf(text).value
  {
    var cursor := 0;
    ghost var whole, head: seq<int> := AnglesOf(text), [];
    ProgressInit(text);
    for index := 0 to 4
      invariant |head| == index && angles[..index] == head && Progress(whole, text, head, cursor)
    {
      var accepted, value, end := ParseField(command, text, cursor);
      if !accepted {
        ProgressFail(whole, text, head, cursor);
        return false;
      }
      CharAt(command[..], text, end);
      AfterField(whole, text, head, cursor, value, end, command[end]);
      var expectedDelimiter := if index < 3 then ',' else '\0';
      if command[end] != expectedDelimiter {
        return false;
      }
      angles[index] := value;
      head := head + [value];
      cursor := if index < 3 then end + 1 else end;
    }
    assert angles[..4] == angles[..];
    ok := true;
  }

  class CommandReceiver {
    var commandBuffer: array<char>
    var commandLength: nat
    var commandOverflow: bool

    ghost predicate Valid()
      reads this
    {
      commandBuffer.Length == CAPACITY && commandLength < CAPACITY
    }

    ghost function State(): Rx
      reads this, commandBuffer
      requires Valid()
    {
      Rx(commandBuffer[..commandLength], commandOverflow)
    }

    constructor ()
      ensures Valid() && State() == CLEAN && fresh(commandBuffer)
    {
      commandBuffer := new char[CAPACITY](i => '\0');
      commandLength, commandOverflow := 0, false;
    }

    /** A client connected or left. */
    method Reset()
      requires Valid()
      modifies this`commandLength, this`commandOverflow
      ensures Valid() && State() == CLEAN
    {
      commandLength, commandOverflow := 0, false;
    }

    method ProcessCommand() returns (reply: Reply)
      requires Valid()
      modifies this`commandLength, this`commandOverflow, commandBuffer
      ensures Valid() && State() == CLEAN && reply == ReplyFor(old(State()))
    {
      ghost var line := commandBuffer[..commandLength];
      commandBuffer[commandLength] := '\0';
      ghost var text := CText(line);
      assert commandBuffer[..commandLength] == line;
      assert IsCString(commandBuffer[..], text);
      var angles := new int[4](i => 0);
      reply := Error;
      if !commandOverflow {
        var ok := ParseAngleCommand(commandBuffer, text, angles);
        if ok {
          reply := Applied(angles[..]);
        }
      }
      commandLength, commandOverflow := 0, false;
    }

    method ConsumeClientBytes(bytes: string) returns (replies: seq<Reply>)
      requires Valid()
      modifies this`commandLength, this`commandOverflow, commandBuffer
      ensures Valid() && (State(), replies) == ReceiveBytes(old(State()), bytes)
    {
      replies := [];
      for i := 0 to |bytes|
        invariant Valid() && commandBuffer == old(commandBuffer)
        invariant (State(), replies) == ReceiveBytes(old(State()), bytes[..i])
      {
        ReceiveOneMore(old(State()), bytes, i);
        var value := bytes[i];
        if value == '\r' {
          continue;
        }
        if value == '\n' {
          var reply := ProcessCommand();
          replies := replies + [reply];
          continue;
        }
        if commandOverflow {
          continue;
        }
        if commandLength + 1 >= CAPACITY {
          commandOverflow := true;
          continue;
        }
        commandBuffer[commandLength] := value;
        commandLength := commandLength + 1;
        assert commandBuffer[..commandLength] == commandBuffer[..commandLength - 1] + [value];
      }
      assert bytes[..|bytes|] == bytes;
    }
  }

  // ---------- what a byte stream is answered with ----------

  function WithoutCr(s: string): string {
    if s == "" then "" else (if s[0] == '\r' then "" else [s[0]]) + WithoutCr(s[1..])
  }

  /** The answer to one line: OK exactly when it fits and its text before any NUL is four angles. */
  function Answer(line: string): Reply {
    var text := WithoutCr(line);
    if |text| >= CAPACITY then Error
    else match AnglesOf(CText(text))
         case None => Error
         case Some(angles) => Applied(angles)
  }

  function Answers(lines: seq<string>): (r: seq<Reply>)
    ensures |r| == |lines| && forall i :: 0 <= i < |r| ==> r[i] == Answer(lines[i])
  {
    seq(|lines|, i requires 0 <= i < |lines| => Answer(lines[i]))
  }

  /** What the receiver holds of an unfinished line. */
  function Partial(line: string): Rx {
    var text := WithoutCr(line);
    if |text| < CAPACITY then Rx(text, false) else Rx(text[..CAPACITY - 1], true)
  }

  lemma {:induction false} WithoutCrAppend(a: string, b: string)
    ensures WithoutCr(a + b) == WithoutCr(a) + WithoutCr(b)
  {
    if a == "" {
      assert a + b == b;
    } else {
      assert (a + b)[1..] == a[1..] + b;
      WithoutCrAppend(a[1..], b);
    }
  }

  lemma PartialStep(line: string, c: char)
    requires c != '\n'
    ensures ReceiveByte(Partial(line), c) == (Partial(line + [c]), [])
  {
    WithoutCrAppend(line, [c]);
    var text := WithoutCr(line);
    assert WithoutCr([c]) == if c == '\r' then "" else [c];
    if |text| >= CAPACITY {
      assert (text + WithoutCr([c]))[..CAPACITY - 1] == text[..CAPACITY - 1];
    } else if c == '\r' {
      assert text + "" == text;
    } else if |text| == CAPACITY - 1 {
      assert (text + [c])[..CAPACITY - 1] == text;
    }
  }

  /** The receiver's state and replies, read off the newline-split of what it received. */
  function Summary(lines: seq<string>): (Rx, seq<Reply>)
    requires lines != []
  {
    (Partial(lines[|lines| - 1]), Answers(lines[..|lines| - 1]))
  }

  lemma SummaryStep(lines: seq<string>, last: string, c: char)
    ensures var (rx, replies) := Summary(lines + [last]);
            var (rx', more) := ReceiveByte(rx, c);
            (rx', replies + more) ==
            Summary(if c == '\n' then lines + [last] + [""] else lines + [last + [c]])
  {
    assert (lines + [last])[..|lines|] == lines;
    if c == '\n' {
      assert (lines + [last] + [""])[..|lines| + 1] == lines + [last];
      assert Answers(lines + [last]) == Answers(lines) + [Answer(last)];
    } else {
      PartialStep(last, c);
      assert (lines + [last + [c]])[..|lines|] == lines;
      assert Answers(lines) + [] == Answers(lines);
    }
  }

  /** Exactly one reply per newline, each the answer to its own line; the buffer never overruns. */
  lemma {:induction false} OneReplyPerLine(bytes: string)
    ensures ReceiveBytes(CLEAN, bytes) == Summary(Split(bytes, '\n'))
    ensures |ReceiveBytes(CLEAN, bytes).0.line| < CAPACITY
  {
    if bytes == "" {
      assert Split(bytes, '\n')[..0] == [];
    } else {
      var init, c := bytes[..|bytes| - 1], bytes[|bytes| - 1];
      OneReplyPerLine(init);
      assert bytes == init + [c];
      SplitLastChar(init, c);
      SummaryOfSplit(Split(init, '\n'), Split(bytes, '\n'), c);
    }
  }

  lemma SummaryOfSplit(x: seq<string>, y: seq<string>, c: char)
    requires x != [] && y == if c == '\n' then x + [""] else x[..|x| - 1] + [x[|x| - 1] + [c]]
    ensures var (rx, replies) := Summary(x);
            var (rx', more) := ReceiveByte(rx, c);
            (rx', replies + more) == Summary(y)
  {
    assert x == x[..|x| - 1] + [x[|x| - 1]];
    SummaryStep(x[..|x| - 1], x[|x| - 1], c);
  }

  lemma SplitLastChar(s: string, c: char)
    ensures var x := Split(s, '\n');
            Split(s + [c], '\n') == if c == '\n' then x + [""] else x[..|x| - 1] + [x[|x| - 1] + [c]]
  {
    var x := Split(s, '\n');
    if c == '\n' {
      assert s + [c] + "" == s + [c];
      SplitAtSep(s, "", '\n');
    } else {
      SplitPlain([c], '\n');
      SplitAppend(s, [c], '\n');
    }
  }

  lemma WireLacks(a: int, b: int, c: int, d: int, x: char)
    requires !IsDigit(x) && x != '-' && x != ','
    ensures x !in Wire(a, b, c, d)
  {
    NumeralLacks(IntText(a), x, a);
    NumeralLacks(IntText(b), x, b);
    NumeralLacks(IntText(c), x, c);
    NumeralLacks(IntText(d), x, d);
  }

  /** A command line that starts at a line boundary is answered OK, once, and its four angles
      are the ones applied; the receiver is at a line boundary again. */
  lemma CommandIsApplied(a: int, b: int, c: int, d: int)
    requires 0 <= a <= 180 && 0 <= b <= 180 && 0 <= c <= 180 && 0 <= d <= 180
    ensures ReceiveBytes(CLEAN, Wire(a, b, c, d) + "\n") == (CLEAN, [Applied([a, b, c, d])])
  {
    var w := Wire(a, b, c, d);
    WireRoundTrip(a, b, c, d);
    WireLacks(a, b, c, d, '\r');
    WireLacks(a, b, c, d, '\n');
    WireLacks(a, b, c, d, '\0');
    OneReplyPerLine(w + "\n");
    SplitLastChar(w, '\n');
    SplitPlain(w, '\n');
    NoCr(w);
    NoNul(w);
    assert ([w] + [""])[..1] == [w];
    assert Answers([w]) == [Answer(w)];
  }

  lemma {:induction false} NoCr(s: string)
    requires '\r' !in s
    ensures WithoutCr(s) == s
  {
    if s != "" {
      NoCr(s[1..]);
      assert s == [s[0]] + s[1..];
    }
  }

  lemma {:induction false} NoNul(s: string)
    requires '\0' !in s
    ensures CText(s) == s
  {
    if s != "" {
      NoNul(s[1..]);
      assert s == [s[0]] + s[1..];
    }
  }
}
