/** backend/parser.py: classification of one received line, and angle validation. */
module Esp32Parser {
  import opened Options
  import Seqs
  import opened Text
  import opened PyNumber

  datatype Reason =
    | Empty | UnsupportedResponse | AckFieldCount | AckStatus | MissingEvent | DestFieldCount
    | UnsupportedEvent | SensorFieldCount | Conversion | NotFinite | NegativeRpm

  datatype Parsed =
    | ArmAck(ok: bool)
    | AgvDest
    | AgvSensors(event: string, distance: real, left: int, center: int, right: int, leftRpm: real, rightRpm: real)
    | Rejected(reason: Reason)

  function StripAll(fields: seq<string>): (r: seq<string>)
    ensures |r| == |fields| && forall i :: 0 <= i < |r| ==> r[i] == Strip(fields[i])
  {
    seq(|fields|, i requires 0 <= i < |fields| => Strip(fields[i]))
  }

  function ParseLine(line: string): Parsed {
    ParseText(Strip(line))
  }

  function ParseText(text: string): Parsed {
    if text == "" then Rejected(Empty)
    else if text == "OK" then ArmAck(true)
    else ParseFields(StripAll(Split(text, ',')))
  }

  function ParseFields(fields: seq<string>): Parsed
    requires |fields| >= 1
  {
    if fields[0] == "ARM_ACK" then
      if |fields| != 2 then Rejected(AckFieldCount)
      else if fields[1] == "OK" then ArmAck(true)
      else if fields[1] == "ERROR" then ArmAck(false)
      else Rejected(AckStatus)
    else if fields[0] != "AGV" then Rejected(UnsupportedResponse)
    else if |fields| < 2 || fields[1] == "" then Rejected(MissingEvent)
    else if fields[1] == "DEST" then
      if |fields| != 2 then Rejected(DestFieldCount) else AgvDest
    else if !SupportedEvent(fields[1]) then Rejected(UnsupportedEvent)
    else if |fields| != 8 then Rejected(SensorFieldCount)
    else ParseSensors(fields)
  }

  predicate SupportedEvent(event: string) {
    event == "TRACING" || event == "OBSTACLE" || event == "STOP"
  }

  function Floats(texts: seq<string>): (r: seq<PyFloat>)
    ensures |r| == |texts|
  {
    if texts == [] then [] else [PyFloatOf(texts[0])] + Floats(texts[1..])
  }

  function Ints(texts: seq<string>): (r: seq<Option<int>>)
    ensures |r| == |texts|
  {
    if texts == [] then [] else [PyInt(texts[0])] + Ints(texts[1..])
  }

  function ParseSensors(fields: seq<string>): Parsed
    requires |fields| == 8
  {
    Sensors(fields[1], Floats([fields[2], fields[6], fields[7]]), Ints([fields[3], fields[4], fields[5]]))
  }

  /** The checks on the converted fields: distance and the two RPMs, and the three IR flags. */
  function Sensors(event: string, reals: seq<PyFloat>, flags: seq<Option<int>>): Parsed
    requires |reals| == 3 && |flags| == 3
  {
    if Invalid in reals || None in flags then Rejected(Conversion)
    else if NonFinite in reals then Rejected(NotFinite)
    else if reals[1].value < 0.0 || reals[2].value < 0.0 then Rejected(NegativeRpm)
    else AgvSensors(event, reals[0].value, flags[0].value, flags[1].value, flags[2].value, reals[1].value,
         reals[2].value)
  }

  // ---------- which lines are accepted, and as what ----------

  /** The stripped fields of a line. */
  function FieldsOf(line: string): seq<string> {
    StripAll(Split(Strip(line), ','))
  }

  predicate TwoFields(fields: seq<string>, first: string, second: string) {
    |fields| == 2 && fields[0] == first && fields[1] == second
  }

  lemma PlainFields(line: string)
    requires Strip(line) == "" || Strip(line) == "OK"
    ensures |FieldsOf(line)| == 1 && FieldsOf(line)[0] != "AGV" && FieldsOf(line)[0] != "ARM_ACK"
  {
    SplitPlain(Strip(line), ',');
    var f := FieldsOf(line);
    assert f[0] == Strip(Strip(line));
    StripMembers(Strip(line), 'A');
    assert 'A' !in Strip(line);
  }

  lemma ParsedByFields(line: string)
    ensures ParseLine(line) ==
            if Strip(line) == "" then Rejected(Empty) else if Strip(line) == "OK" then ArmAck(true)
            else ParseFields(FieldsOf(line))
  {
  }

  /** What the checks on converted fields can say. */
  lemma SensorsSay(event: string, reals: seq<PyFloat>, flags: seq<Option<int>>)
    requires |reals| == 3 && |flags| == 3
    ensures var p := Sensors(event, reals, flags); p.AgvSensors? || p.Rejected?
  {
  }

  lemma SensorFieldsSay(fields: seq<string>, a: seq<string>, b: seq<string>)
    requires |fields| == 8 && a == [fields[2], fields[6], fields[7]] && b == [fields[3], fields[4], fields[5]]
    ensures ParseSensors(fields).AgvSensors? || ParseSensors(fields).Rejected?
  {
    SensorsSay(fields[1], Floats(a), Ints(b));
  }

  lemma FieldsSay(fields: seq<string>, ok: bool)
    requires |fields| >= 1
    ensures ParseFields(fields) == ArmAck(ok) <==> TwoFields(fields, "ARM_ACK", if ok then "OK" else "ERROR")
    ensures ParseFields(fields) == AgvDest <==> TwoFields(fields, "AGV", "DEST")
  {
    if |fields| == 8 {
      SensorFieldsSay(fields, [fields[2], fields[6], fields[7]], [fields[3], fields[4], fields[5]]);
    }
  }

  /** A line is taken for an ACK with this status exactly if it is the bare OK of old firmware, or has
      the two fields ARM_ACK and OK or ERROR, with any white space around them. */
  lemma AckIff(line: string, ok: bool)
    ensures ParseLine(line) == ArmAck(ok) <==>
            (Strip(line) == "OK" && ok) || TwoFields(FieldsOf(line), "ARM_ACK", if ok then "OK" else "ERROR")
  {
    ParsedByFields(line);
    if Strip(line) == "" || Strip(line) == "OK" {
      PlainFields(line);
    } else {
      FieldsSay(FieldsOf(line), ok);
    }
  }

  /** For the report of a destination exactly if it has the two fields AGV and DEST. */
  lemma DestIff(line: string)
    ensures ParseLine(line) == AgvDest <==> TwoFields(FieldsOf(line), "AGV", "DEST")
  {
    ParsedByFields(line);
    if Strip(line) == "" || Strip(line) == "OK" {
      PlainFields(line);
    } else {
      FieldsSay(FieldsOf(line), true);
    }
  }

  /** Converted to these numbers and flags, the fields of an event are this report. */
  predicate ReportIs(p: Parsed, event: string, reals: seq<PyFloat>, flags: seq<Option<int>>) {
    && p.AgvSensors? && event == p.event && (event == "TRACING" || event == "OBSTACLE" || event == "STOP")
    && |reals| == 3 && |flags| == 3
    && reals[0] == Finite(p.distance) && reals[1] == Finite(p.leftRpm) && reals[2] == Finite(p.rightRpm)
    && flags[0] == Some(p.left) && flags[1] == Some(p.center) && flags[2] == Some(p.right)
    && p.leftRpm >= 0.0 && p.rightRpm >= 0.0
  }

  /** Eight fields that read as this report. */
  predicate ReadsAs(fields: seq<string>, p: Parsed) {
    && |fields| == 8 && fields[0] == "AGV"
    && ReportIs(p, fields[1], Floats([fields[2], fields[6], fields[7]]), Ints([fields[3], fields[4], fields[5]]))
  }

  lemma InThree<T>(s: seq<T>, x: T)
    requires |s| == 3
    ensures x in s <==> s[0] == x || s[1] == x || s[2] == x
  {
  }

  lemma ReportIff(event: string, reals: seq<PyFloat>, flags: seq<Option<int>>, p: Parsed)
    requires |reals| == 3 && |flags| == 3 && p.AgvSensors? && SupportedEvent(event)
    ensures Sensors(event, reals, flags) == p <==> ReportIs(p, event, reals, flags)
  {
    InThree(reals, Invalid);
    InThree(reals, NonFinite);
    InThree(flags, None);
  }

  lemma SensorCase(fields: seq<string>, p: Parsed)
    requires |fields| >= 1 && p.AgvSensors?
    ensures ParseFields(fields) == p <==> ReadsAs(fields, p)
  {
    if |fields| == 8 && fields[0] == "AGV" && SupportedEvent(fields[1]) {
      ReportIff(fields[1], Floats([fields[2], fields[6], fields[7]]), Ints([fields[3], fields[4], fields[5]]), p);
    }
  }

  /** And for a sensor report with these values exactly if its eight fields read so: a supported event,
      three finite numbers, three integers, and no negative RPM. */
  lemma SensorsIff(line: string, p: Parsed)
    requires p.AgvSensors?
    ensures ParseLine(line) == p <==> ReadsAs(FieldsOf(line), p)
  {
    ParsedByFields(line);
    if Strip(line) == "" || Strip(line) == "OK" {
      PlainFields(line);
    } else {
      SensorCase(FieldsOf(line), p);
    }
  }

  // ---------- angles ----------

  /** A Python value as far as validate_angles looks at it. */
  datatype PyValue = IntValue(i: int) | BoolValue(b: bool) | OtherValue
  datatype PyArgument = Sequence(items: seq<PyValue>) | NotASequence

  predicate ValidAngle(v: PyValue) {
    v.IntValue? && 0 <= v.i <= 180
  }

  /** Accepted exactly when there are four integers, none a bool, in 0..180; they come back in order. */
  method ValidateAngles(value: PyArgument) returns (angles: Option<seq<int>>)
    ensures angles.Some? <==>
              value.Sequence? && |value.items| == 4 && forall i :: 0 <= i < 4 ==> ValidAngle(value.items[i])
    ensures angles.Some? ==>
              |angles.value| == 4 && forall i :: 0 <= i < 4 ==> value.items[i] == IntValue(angles.value[i])
  {
    if value.NotASequence? || |value.items| != 4 {
      return None;
    }
    var collected: seq<int> := [];
    for k := 0 to |value.items|
      invariant |collected| == k
      invariant forall i :: 0 <= i < k ==> ValidAngle(value.items[i]) && value.items[i] == IntValue(collected[i])
    {
      var angle := value.items[k];
      if !angle.IntValue? {
        return None;
      }
      if !(0 <= angle.i <= 180) {
        return None;
      }
      collected := collected + [angle.i];
    }
    return Some(collected);
  }

  // ---------- facts about fields ----------

  /** Stripping the line first makes no difference to its stripped fields. */
  lemma StripThenSplit(line: string)
    requires !Blank(line)
    ensures StripAll(Split(Strip(line), ',')) == StripAll(Split(line, ','))
  {
    var left, right := StripParts(line);
    var core := Strip(line);
    var f := Split(core, ',');
    BlankHasNoComma(left);
    BlankHasNoComma(right);
    SplitPlain(left, ',');
    SplitPlain(right, ',');
    SplitAppend(left, core, ',');
    SplitAppend(left + core, right, ',');
    var g := Fuse([left], f);
    var h := Fuse(g, [right]);
    assert Split(line, ',') == h;
    PadFields(left, f, right);
  }

  lemma FusedField(left: string, f: seq<string>, right: string, i: nat)
    requires i < |f|
    ensures Fuse(Fuse([left], f), [right])[i]
            == (if i == 0 then left else "") + f[i] + (if i == |f| - 1 then right else "")
  {
    var g := Fuse([left], f);
    Seqs.EmptyConcat(f[i]);
    Seqs.EmptyConcat(left + f[i]);
    assert g[i] == if i == 0 then left + f[i] else f[i];
  }

  lemma PadField(left: string, f: seq<string>, right: string, i: nat)
    requires i < |f| && Blank(left) && Blank(right)
    ensures Strip(Fuse(Fuse([left], f), [right])[i]) == Strip(f[i])
  {
    FusedField(left, f, right, i);
    StripPadded(if i == 0 then left else "", f[i], if i == |f| - 1 then right else "");
  }

  lemma PadFields(left: string, f: seq<string>, right: string)
    requires f != [] && Blank(left) && Blank(right)
    ensures StripAll(Fuse(Fuse([left], f), [right])) == StripAll(f)
  {
    forall i | 0 <= i < |f| ensures Strip(Fuse(Fuse([left], f), [right])[i]) == Strip(f[i]) {
      PadField(left, f, right, i);
    }
  }

  lemma BlankHasNoComma(s: string)
    requires Blank(s)
    ensures ',' !in s
  {
  }
}
