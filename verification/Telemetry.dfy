/** The AGV's status line and what the backend reads from it. */
module Telemetry {
  import opened Options
  import opened Text
  import opened PyNumber
  import opened Esp32Parser

  /** The values reportStatus prints; ints are 16 bits wide on the AGV controller. */
  datatype Report = Report(
    state: string, range: int, left: bool, center: bool, right: bool, leftRpm: int, rightRpm: int)

  const MESSAGE_SIZE := 50

  predicate Int16(v: int) {
    -0x8000 <= v <= 0x7FFF
  }

  predicate DriveState(state: string) {
    state in ["", "STOP", "TRACING", "OBSTACLE", "FORCEDRUN", "EMERGENCYSTOPPED"]
  }

  predicate WellFormed(r: Report) {
    DriveState(r.state) && Int16(r.range) && Int16(r.leftRpm) && Int16(r.rightRpm)
  }

  /** The value of `mask ? 1 : 0`. */
  function Flag(b: bool): int {
    if b then 1 else 0
  }

  function Bit(b: bool): string {
    IntText(Flag(b))
  }

  /** The fields after "AGV". */
  function Payload(r: Report): seq<string> {
    [r.state, IntText(r.range), Bit(r.left), Bit(r.center), Bit(r.right), IntText(r.leftRpm), IntText(r.rightRpm)]
  }

  function Joined(fields: seq<string>): string {
    if fields == [] then "" else "," + fields[0] + Joined(fields[1..])
  }

  function StatusText(r: Report): string {
    "AGV" + Joined(Payload(r))
  }

  /** What snprintf leaves in the 50-byte buffer. */
  function Message(r: Report): string {
    var text := StatusText(r);
    if |text| < MESSAGE_SIZE then text else text[..MESSAGE_SIZE - 1]
  }

  lemma IntTextFits(v: int)
    requires Int16(v)
    ensures 1 <= |IntText(v)| <= 6
  {
    assert Pow10(3) == 1000;
    assert Pow10(5) == 100000;
    NatTextLength(if v < 0 then -v else v, 5, 100000);
  }

  lemma {:induction false} JoinedLength(fields: seq<string>, k: nat)
    requires forall i :: 0 <= i < |fields| ==> |fields[i]| <= k
    ensures |Joined(fields)| <= |fields| * (k + 1)
  {
    if fields != [] {
      JoinedLength(fields[1..], k);
    }
  }

  lemma JoinedFour(f: string, fields: seq<string>)
    ensures Joined([f] + fields) == "," + f + Joined(fields)
  {
    assert ([f] + fields)[1..] == fields;
  }

  /** No status line is truncated. */
  lemma StatusFitsBuffer(r: Report)
    requires WellFormed(r)
    ensures |StatusText(r)| < MESSAGE_SIZE && Message(r) == StatusText(r)
  {
    IntTextFits(r.range);
    IntTextFits(r.leftRpm);
    IntTextFits(r.rightRpm);
    var p := Payload(r);
    assert p == [p[0]] + p[1..] && p[1..] == [p[1]] + p[2..];
    JoinedFour(p[0], p[1..]);
    JoinedFour(p[1], p[2..]);
    assert p[2..] == [p[2], p[3], p[4]] + [p[5], p[6]];
    BitsAndRpm(p[2..]);
  }

  lemma BitsAndRpm(f: seq<string>)
    requires |f| == 5 && |f[0]| == |f[1]| == |f[2]| == 1 && |f[3]| <= 6 && |f[4]| <= 6
    ensures |Joined(f)| <= 20
  {
    assert f[1..][1..] == f[2..] && f[2..][1..] == f[3..] && f[3..][1..] == f[4..] && f[4..][1..] == [];
    assert |Joined(f[4..])| <= 7;
    assert |Joined(f[3..])| <= 14;
    assert |Joined(f[2..])| <= 16;
    assert |Joined(f[1..])| <= 18;
  }

  // ---------- parsing a status line back ----------

  lemma {:induction false} JoinedSplits(head: string, fields: seq<string>)
    requires ',' !in head && forall i :: 0 <= i < |fields| ==> ',' !in fields[i]
    ensures Split(head + Joined(fields), ',') == [head] + fields
    decreases fields
  {
    SplitPlain(head, ',');
    if fields == [] {
      assert head + "" == head;
    } else {
      JoinedSplits(fields[0], fields[1..]);
      var rest := fields[0] + Joined(fields[1..]);
      assert head + Joined(fields) == head + [','] + rest;
      SplitAtSep(head, rest, ',');
      assert [fields[0]] + fields[1..] == fields;
    }
  }

  lemma NotBareOk(text: string, c: char)
    requires c in text && c != 'O' && c != 'K'
    ensures text != "" && text != "OK"
  {
    assert c !in "OK";
  }

  lemma ParseTextByFields(text: string, fields: seq<string>)
    requires text != "" && text != "OK" && fields == StripAll(Split(text, ','))
    ensures ParseText(text) == ParseFields(fields)
  {
  }

  /** When the line is not blank and is not the bare "OK", only its stripped fields count. */
  lemma ParseByFields(line: string, c: char, fields: seq<string>)
    requires c in line && !IsSpace(c) && c != 'O' && c != 'K'
    requires fields == StripAll(Split(line, ','))
    ensures ParseLine(line) == ParseFields(fields)
  {
    StripMembers(line, c);
    StripThenSplit(line);
    NotBareOk(Strip(line), c);
    ParseTextByFields(Strip(line), fields);
  }

  function ExpectedSensors(r: Report): Parsed {
    AgvSensors(r.state, r.range as real, Flag(r.left), Flag(r.center), Flag(r.right),
               r.leftRpm as real, r.rightRpm as real)
  }

  function Expected(r: Report): Parsed {
    if r.state == "" then Rejected(MissingEvent)
    else if !SupportedEvent(r.state) then Rejected(UnsupportedEvent)
    else if r.leftRpm < 0 || r.rightRpm < 0 then Rejected(NegativeRpm)
    else ExpectedSensors(r)
  }

  /** A character of no numeral and not of the state is in no field. */
  lemma PayloadLacks(r: Report, c: char)
    requires c !in r.state && !IsDigit(c) && c != '-'
    ensures forall i :: 0 <= i < 7 ==> c !in Payload(r)[i]
  {
    forall i | 0 <= i < 7 ensures c !in Payload(r)[i] {
      if i > 0 {
        NumeralLacks(Payload(r)[i], c,
                     if i == 1 then r.range else if i == 2 then Flag(r.left) else if i == 3 then Flag(r.center)
                     else if i == 4 then Flag(r.right) else if i == 5 then r.leftRpm else r.rightRpm);
      }
    }
  }

  /** The line reportStatus sends, as the backend receives it: println adds CR and LF. */
  function StatusLine(r: Report): string {
    StatusText(r) + "\r"
  }

  /** The eight stripped fields of a status line. */
  function Fields(r: Report): seq<string> {
    ["AGV", r.state, IntText(r.range), Bit(r.left), Bit(r.center), Bit(r.right), IntText(r.leftRpm),
      IntText(r.rightRpm)]
  }

  lemma StatusSplits(r: Report)
    requires DriveState(r.state)
    ensures Split(StatusText(r), ',') == Fields(r)
    ensures Split(StatusLine(r), ',') == Fields(r)[..7] + [IntText(r.rightRpm) + "\r"]
  {
    PayloadLacks(r, ',');
    JoinedSplits("AGV", Payload(r));
    FieldsAre(r);
    SplitCr(StatusText(r), Fields(r)[..7], IntText(r.rightRpm));
  }

  lemma FieldsAre(r: Report)
    ensures ["AGV"] + Payload(r) == Fields(r) == Fields(r)[..7] + [IntText(r.rightRpm)]
  {
  }

  lemma SplitCr(text: string, init: seq<string>, last: string)
    requires Split(text, ',') == init + [last]
    ensures Split(text + "\r", ',') == init + [last + "\r"]
  {
    SplitPlain("\r", ',');
    SplitAppend(text, "\r", ',');
  }

  lemma WordIsTight(word: string)
    requires DriveState(word) || word == "AGV"
    ensures Strip(word) == word
  {
    StripTight(word);
  }

  lemma NumeralIsTight(field: string, n: int)
    requires field == IntText(n)
    ensures Strip(field) == field
  {
    IntTextTight(n);
  }

  lemma FieldIsTight(r: Report, field: string, i: nat)
    requires DriveState(r.state) && i < 8 && field == Fields(r)[i]
    ensures Strip(field) == field
  {
    if i < 2 {
      WordIsTight(field);
    } else {
      NumeralIsTight(field, if i == 2 then r.range else if i == 3 then Flag(r.left) else if i == 4 then Flag(r.center)
                            else if i == 5 then Flag(r.right) else if i == 6 then r.leftRpm else r.rightRpm);
    }
  }

  lemma CrIsBlank()
    ensures Blank("") && Blank("\r")
  {
  }

  lemma StripCr(s: string)
    requires Strip(s) == s
    ensures Strip(s + "\r") == s
  {
    CrIsBlank();
    StripPadded("", s, "\r");
    assert "" + s == s;
  }

  lemma StatusFields(r: Report)
    requires DriveState(r.state)
    ensures StripAll(Split(StatusLine(r), ',')) == Fields(r)
  {
    StatusSplits(r);
    var split := Split(StatusLine(r), ',');
    forall i | 0 <= i < 8 ensures Strip(split[i]) == Fields(r)[i] {
      FieldIsTight(r, Fields(r)[i], i);
      if i == 7 {
        StripCr(IntText(r.rightRpm));
      }
    }
    assert StripAll(split) == Fields(r);
  }

  /** Telemetry round trip: an intact status line parses back to exactly the reported values
      when its state is TRACING, OBSTACLE or STOP and no RPM is negative, and is rejected otherwise. */
  lemma StatusRoundTrip(r: Report)
    requires WellFormed(r)
    ensures ParseLine(Message(r) + "\r") == Expected(r)
  {
    StatusFitsBuffer(r);
    StatusFields(r);
    assert StatusLine(r)[1] == 'G';
    ParseByFields(StatusLine(r), 'G', Fields(r));
    FieldsRoundTrip(r, Fields(r));
  }

  lemma EventIsNeither(event: string)
    requires SupportedEvent(event)
    ensures event != "" && event != "DEST"
  {
  }

  lemma ParseFieldsOfEvent(fields: seq<string>)
    requires |fields| == 8 && fields[0] == "AGV" && SupportedEvent(fields[1])
    requires fields[1] != "" && fields[1] != "DEST"
    ensures ParseFields(fields) == ParseSensors(fields)
  {
  }

  lemma FieldsRoundTrip(r: Report, fields: seq<string>)
    requires WellFormed(r) && fields == Fields(r)
    ensures ParseFields(fields) == Expected(r)
  {
    if SupportedEvent(r.state) {
      EventIsNeither(r.state);
      ParseFieldsOfEvent(fields);
      SensorsOf(r, fields);
    } else {
      UnsupportedFields(fields);
    }
  }

  lemma UnsupportedFields(fields: seq<string>)
    requires |fields| == 8 && fields[0] == "AGV" && DriveState(fields[1]) && !SupportedEvent(fields[1])
    ensures ParseFields(fields) == Rejected(if fields[1] == "" then MissingEvent else UnsupportedEvent)
  {
  }

  function Numerals(values: seq<int>): (r: seq<string>)
    ensures |r| == |values|
  {
    if values == [] then [] else [IntText(values[0])] + Numerals(values[1..])
  }

  function Reals(values: seq<int>): (r: seq<PyFloat>)
    ensures |r| == |values| && forall i :: 0 <= i < |r| ==> r[i] == Finite(values[i] as real)
  {
    seq(|values|, i requires 0 <= i < |values| => Finite(values[i] as real))
  }

  lemma ConversionsCons(text: string, more: seq<string>)
    ensures Floats([text] + more) == [PyFloatOf(text)] + Floats(more)
    ensures Ints([text] + more) == [PyInt(text)] + Ints(more)
  {
    assert ([text] + more)[1..] == more;
  }

  lemma {:induction false} FloatsOfNumerals(values: seq<int>)
    requires forall i :: 0 <= i < |values| ==> Int16(values[i])
    ensures Floats(Numerals(values)) == Reals(values)
  {
    if values != [] {
      FloatRoundTrip(values[0]);
      FloatsOfNumerals(values[1..]);
      ConversionsCons(IntText(values[0]), Numerals(values[1..]));
      IntegersCons(values);
    }
  }

  lemma NumeralTriple(a: int, b: int, c: int)
    ensures Numerals([a, b, c]) == [IntText(a), IntText(b), IntText(c)]
  {
    assert [a, b, c][1..] == [b, c] && [b, c][1..] == [c] && [c][1..] == [];
    assert Numerals([c]) == [IntText(c)];
    assert Numerals([b, c]) == [IntText(b), IntText(c)];
  }

  function Integers(values: seq<int>): (r: seq<Option<int>>)
    ensures |r| == |values| && forall i :: 0 <= i < |r| ==> r[i] == Some(values[i])
  {
    seq(|values|, i requires 0 <= i < |values| => Some(values[i]))
  }

  lemma {:induction false} IntsOfNumerals(values: seq<int>)
    ensures Ints(Numerals(values)) == Integers(values)
  {
    if values != [] {
      IntRoundTrip(values[0]);
      IntsOfNumerals(values[1..]);
      ConversionsCons(IntText(values[0]), Numerals(values[1..]));
      IntegersCons(values);
    }
  }

  lemma IntegersCons(values: seq<int>)
    requires values != []
    ensures Integers(values) == [Some(values[0])] + Integers(values[1..])
    ensures Reals(values) == [Finite(values[0] as real)] + Reals(values[1..])
  {
  }

  lemma SensorsOf(r: Report, fields: seq<string>)
    requires WellFormed(r) && fields == Fields(r)
    ensures ParseSensors(fields) ==
            if r.leftRpm < 0 || r.rightRpm < 0 then Rejected(NegativeRpm) else ExpectedSensors(r)
  {
    NumeralTriple(r.range, r.leftRpm, r.rightRpm);
    FloatsOfNumerals([r.range, r.leftRpm, r.rightRpm]);
    var l, c, n := Flag(r.left), Flag(r.center), Flag(r.right);
    NumeralTriple(l, c, n);
    IntsOfNumerals([l, c, n]);
    ConvertedSensors(fields, Floats([fields[2], fields[6], fields[7]]), Ints([fields[3], fields[4], fields[5]]));
    SensorsOfValues(r, Reals([r.range, r.leftRpm, r.rightRpm]),
      Integers([Flag(r.left), Flag(r.center), Flag(r.right)]));
  }

  lemma ConvertedSensors(fields: seq<string>, reals: seq<PyFloat>, flags: seq<Option<int>>)
    requires |fields| == 8
    requires Floats([fields[2], fields[6], fields[7]]) == reals && Ints([fields[3], fields[4], fields[5]]) == flags
    ensures ParseSensors(fields) == Sensors(fields[1], reals, flags)
  {
  }

  lemma SensorsOfValues(r: Report, reals: seq<PyFloat>, flags: seq<Option<int>>)
    requires reals == Reals([r.range, r.leftRpm, r.rightRpm])
    requires flags == Integers([Flag(r.left), Flag(r.center), Flag(r.right)])
    ensures Sensors(r.state, reals, flags) ==
            if r.leftRpm < 0 || r.rightRpm < 0 then Rejected(NegativeRpm) else ExpectedSensors(r)
  {
  }
}
