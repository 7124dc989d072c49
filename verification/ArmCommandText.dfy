/** parseAngleCommand of the Arm firmware, on the text of a C string.

    strtol follows section 7.22.1.4 of ISO/IEC 9899:2011 in the C locale, base 10, with a
    32-bit long. */
module ArmCommandText {
  import opened Options
  import opened Text
  import PyNumber

  const LONG_MAX := 0x7FFF_FFFF
  const LONG_MIN := -0x8000_0000

  predicate IsBlankChar(c: char) {
    c == ' ' || c == '\t'
  }

  predicate IsCSpace(c: char) {
    c == ' ' || 9 <= c as int <= 13
  }

  function DropBlanks(s: string): (t: string)
    ensures |t| <= |s|
  {
    if s != "" && IsBlankChar(s[0]) then DropBlanks(s[1..]) else s
  }

  function DropSpaces(s: string): (t: string)
    ensures |t| <= |s|
  {
    if s != "" && IsCSpace(s[0]) then DropSpaces(s[1..]) else s
  }

  /** The longest run of digits a text begins with. */
  function Digits(s: string): (t: string)
    ensures t <= s && forall i :: 0 <= i < |t| ==> IsDigit(t[i])
  {
    if s != "" && IsDigit(s[0]) then [s[0]] + Digits(s[1..]) else ""
  }

  function Clamp(v: int): int {
    if v > LONG_MAX then LONG_MAX else if v < LONG_MIN then LONG_MIN else v
  }

  /** The converted value and the text at `end`; None when nothing is converted. */
  function Strtol(s: string): Option<(int, string)> {
    var (sign, body) := PyNumber.Signed(DropSpaces(s));
    Convert(sign, body)
  }

  function Convert(sign: int, body: string): Option<(int, string)> {
    var digits := Digits(body);
    if digits == "" then None
    else Some((Clamp(sign * PyNumber.RunValue(digits)), body[|digits|..]))
  }

  /** One angle: blanks, strtol in 0..180, blanks; and the text at the delimiter. */
  function ScanField(s: string): Option<(int, string)> {
    match Strtol(DropBlanks(s))
    case None => None
    case Some((v, rest)) => if v < 0 || v > 180 then None else Some((v, DropBlanks(rest)))
  }

  /** The cursor loop: k fields, each followed by a comma except the last. */
  function ScanAngles(s: string, k: nat): Option<seq<int>>
    requires k >= 1
    decreases k
  {
    match ScanField(s)
    case None => None
    case Some((v, rest)) =>
      if k == 1 then (if rest == "" then Some([v]) else None)
      else if rest == "" || rest[0] != ',' then None
      else match ScanAngles(rest[1..], k - 1)
           case None => None
           case Some(more) => Some([v] + more)
  }

  // ---------- the reference: four comma-separated fields ----------

  function FieldAngle(f: string): Option<int> {
    match ScanField(f)
    case Some((v, rest)) => if rest == "" then Some(v) else None
    case None => None
  }

  function FieldAngles(fields: seq<string>): Option<seq<int>> {
    if fields == [] then Some([])
    else match (FieldAngle(fields[0]), FieldAngles(fields[1..]))
         case (Some(v), Some(more)) => Some([v] + more)
         case _ => None
  }

  function AnglesOf(text: string): Option<seq<int>> {
    var fields := Split(text, ',');
    if |fields| == 4 then FieldAngles(fields) else None
  }

  /** What may follow a field in the text: nothing, or a comma. */
  predicate Delimited(tail: string) {
    tail == "" || tail[0] == ','
  }

  lemma {:induction false} DropBlanksLocal(f: string, tail: string)
    requires Delimited(tail)
    ensures DropBlanks(f + tail) == DropBlanks(f) + tail
  {
    if f == "" {
      assert f + tail == tail && DropBlanks(tail) == tail;
    } else {
      assert (f + tail)[1..] == f[1..] + tail;
      DropBlanksLocal(f[1..], tail);
    }
  }

  lemma {:induction false} DropSpacesLocal(f: string, tail: string)
    requires Delimited(tail)
    ensures DropSpaces(f + tail) == DropSpaces(f) + tail
  {
    if f == "" {
      assert f + tail == tail && DropSpaces(tail) == tail;
    } else {
      assert (f + tail)[1..] == f[1..] + tail;
      DropSpacesLocal(f[1..], tail);
    }
  }

  lemma {:induction false} DigitsLocal(f: string, tail: string)
    requires Delimited(tail)
    ensures Digits(f + tail) == Digits(f)
  {
    if f == "" {
      assert f + tail == tail;
    } else {
      assert (f + tail)[1..] == f[1..] + tail;
      DigitsLocal(f[1..], tail);
    }
  }

  lemma SignedLocal(f: string, tail: string)
    requires Delimited(tail)
    ensures PyNumber.Signed(f + tail) == (PyNumber.Signed(f).0, PyNumber.Signed(f).1 + tail)
  {
    if f == "" {
      assert f + tail == tail;
    } else {
      assert (f + tail)[1..] == f[1..] + tail;
    }
  }

  /** A scanner's result with the rest of the line put back. */
  function Extend(r: Option<(int, string)>, tail: string): Option<(int, string)> {
    match r
    case None => None
    case Some((v, rest)) => Some((v, rest + tail))
  }

  lemma ConvertLocal(sign: int, body: string, tail: string)
    requires Delimited(tail)
    ensures Convert(sign, body + tail) == Extend(Convert(sign, body), tail)
  {
    DigitsLocal(body, tail);
    assert (body + tail)[|Digits(body)|..] == body[|Digits(body)|..] + tail;
  }

  lemma StrtolLocal(f: string, tail: string)
    requires Delimited(tail)
    ensures Strtol(f + tail) == Extend(Strtol(f), tail)
  {
    DropSpacesLocal(f, tail);
    SignedLocal(DropSpaces(f), tail);
    var (sign, body) := PyNumber.Signed(DropSpaces(f));
    ConvertLocal(sign, body, tail);
  }

  /** Scanning a field looks no further than its delimiter. */
  lemma ScanFieldLocal(f: string, tail: string)
    requires Delimited(tail)
    ensures ScanField(f + tail) == Extend(ScanField(f), tail)
  {
    DropBlanksLocal(f, tail);
    StrtolLocal(DropBlanks(f), tail);
    match Strtol(DropBlanks(f))
    case None =>
    case Some((v, rest)) => DropBlanksLocal(rest, tail);
  }

  lemma {:induction false} DropsKeepNoComma(s: string)
    requires ',' !in s
    ensures ',' !in DropBlanks(s) && ',' !in DropSpaces(s)
  {
    if s != "" {
      DropsKeepNoComma(s[1..]);
    }
  }

  lemma StrtolRest(s: string)
    requires ',' !in s && Strtol(s).Some?
    ensures ',' !in Strtol(s).value.1
  {
    DropsKeepNoComma(s);
  }

  lemma ScanFieldRest(f: string)
    requires ',' !in f && ScanField(f).Some?
    ensures ',' !in ScanField(f).value.1
  {
    DropsKeepNoComma(f);
    StrtolRest(DropBlanks(f));
    DropsKeepNoComma(Strtol(DropBlanks(f)).value.1);
  }

  lemma {:induction false} FirstFieldStopsAtComma(s: string)
    ensures var n := |Split(s, ',')[0]|; n <= |s| && (n < |s| ==> s[n] == ',')
  {
    if s != "" && s[0] != ',' {
      FirstFieldStopsAtComma(s[1..]);
    }
  }

  lemma FieldAnglesCons(f: string, more: seq<string>)
    ensures FieldAngles([f] + more) ==
            if FieldAngle(f).Some? && FieldAngles(more).Some?
            then Some([FieldAngle(f).value] + FieldAngles(more).value) else None
  {
    assert ([f] + more)[1..] == more;
  }

  /** After the first field comes nothing, or a comma and the other fields. */
  lemma SplitFirst(s: string) returns (f: string, tail: string)
    ensures s == f + tail && ',' !in f && f == Split(s, ',')[0] && Delimited(tail)
    ensures tail == "" ==> Split(s, ',') == [f]
    ensures tail != "" ==> Split(s, ',') == [f] + Split(tail[1..], ',')
  {
    f := Split(s, ',')[0];
    FirstFieldIsPrefix(s, ',');
    FirstFieldStopsAtComma(s);
    SplitFieldsHaveNoSep(s, ',');
    tail := s[|f|..];
    SplitPlain(f, ',');
    if tail == "" {
      assert s == f;
    } else {
      assert s == f + [','] + tail[1..];
      SplitAtSep(f, tail[1..], ',');
    }
  }

  /** The cursor loop accepts exactly the k-field texts, with the fields' values in order. */
  lemma {:induction false} ScanIsSplit(s: string, k: nat)
    requires k >= 1
    ensures ScanAngles(s, k) == (if |Split(s, ',')| == k then FieldAngles(Split(s, ',')) else None)
    decreases k
  {
    var fields := Split(s, ',');
    var f, tail := SplitFirst(s);
    FieldAnglesCons(f, fields[1..]);
    assert fields == [f] + fields[1..];
    ScanFieldLocal(f, tail);
    if ScanField(f).Some? {
      var (v, rest) := ScanField(f).value;
      ScanFieldRest(f);
      if rest == "" {
        assert rest + tail == tail;
        if tail == "" {
          assert fields[1..] == [] && [v] + [] == [v];
        } else if k > 1 {
          ScanIsSplit(tail[1..], k - 1);
          assert fields[1..] == Split(tail[1..], ',');
        }
      } else {
        assert (rest + tail)[0] == rest[0] && rest[0] in rest;
        assert FieldAngle(f).None?;
      }
    } else {
      assert FieldAngle(f).None?;
    }
  }

  lemma ParserMatchesGrammar(text: string)
    ensures ScanAngles(text, 4) == AnglesOf(text)
  {
    ScanIsSplit(text, 4);
  }

  // ---------- what one field may look like ----------

  predicate AllSpaces(s: string) {
    forall i :: 0 <= i < |s| ==> IsCSpace(s[i])
  }

  predicate AllBlanks(s: string) {
    forall i :: 0 <= i < |s| ==> IsBlankChar(s[i])
  }

  predicate AllDigits(s: string) {
    forall i :: 0 <= i < |s| ==> IsDigit(s[i])
  }

  /** Whitespace, an optional sign, decimal digits of value v, blanks. */
  predicate AngleShape(pre: string, sign: string, digits: string, post: string, v: int) {
    && AllSpaces(pre) && AllBlanks(post)
    && sign in ["", "+", "-"]
    && digits != "" && AllDigits(digits)
    && v == (if sign == "-" then -1 else 1) * PyNumber.RunValue(digits)
    && 0 <= v <= 180
  }

  lemma {:induction false} DropSpacesAfter(pre: string, s: string)
    requires AllSpaces(pre)
    requires s == "" || !IsCSpace(s[0])
    ensures DropSpaces(DropBlanks(pre + s)) == s
  {
    if pre == "" {
      assert pre + s == s;
    } else {
      assert (pre + s)[1..] == pre[1..] + s;
      DropSpacesAfter(pre[1..], s);
      if !IsBlankChar(pre[0]) {
        DropBlanksThenSpaces(pre[1..] + s);
      }
    }
  }

  /** Blanks are spaces, so skipping them first makes no difference. */
  lemma {:induction false} DropBlanksThenSpaces(s: string)
    ensures DropSpaces(DropBlanks(s)) == DropSpaces(s)
  {
    if s != "" && IsBlankChar(s[0]) {
      DropBlanksThenSpaces(s[1..]);
    }
  }

  lemma {:induction false} DigitsBefore(digits: string, post: string)
    requires AllDigits(digits) && (post == "" || !IsDigit(post[0]))
    ensures Digits(digits + post) == digits
  {
    if digits == "" {
      assert digits + post == post;
    } else {
      assert (digits + post)[1..] == digits[1..] + post;
      DigitsBefore(digits[1..], post);
      assert digits == [digits[0]] + digits[1..];
    }
  }

  lemma {:induction false} DropAllBlanks(s: string)
    ensures DropBlanks(s) == "" <==> AllBlanks(s)
  {
    if s != "" {
      DropAllBlanks(s[1..]);
      assert s == [s[0]] + s[1..];
    }
  }

  lemma {:induction false} SpacesBefore(s: string) returns (pre: string)
    ensures s == pre + DropSpaces(s) && AllSpaces(pre)
  {
    if s != "" && IsCSpace(s[0]) {
      var rest := SpacesBefore(s[1..]);
      pre := [s[0]] + rest;
      assert s == [s[0]] + s[1..];
    } else {
      pre := "";
    }
  }

  lemma SignSplit(s: string) returns (sign: string)
    ensures sign in ["", "+", "-"] && s == sign + PyNumber.Signed(s).1
    ensures PyNumber.Signed(s).0 == if sign == "-" then -1 else 1
  {
    sign := if s != "" && (s[0] == '-' || s[0] == '+') then [s[0]] else "";
  }

  lemma SignedOf(sign: string, body: string)
    requires sign in ["", "+", "-"] && body != "" && IsDigit(body[0])
    ensures PyNumber.Signed(sign + body) == (if sign == "-" then -1 else 1, body)
    ensures !IsCSpace((sign + body)[0])
  {
    if sign == "" {
      assert sign + body == body;
    } else {
      assert (sign + body)[1..] == body;
    }
  }

  lemma ConvertOf(sign: int, digits: string, post: string)
    requires digits != "" && AllDigits(digits) && AllBlanks(post)
    requires 0 <= sign * PyNumber.RunValue(digits) <= 180
    ensures Convert(sign, digits + post) == Some((sign * PyNumber.RunValue(digits), post))
  {
    DigitsBefore(digits, post);
    assert (digits + post)[|digits|..] == post;
  }

  lemma FieldOfShape(pre: string, sign: string, digits: string, post: string, v: int)
    requires AngleShape(pre, sign, digits, post, v)
    ensures FieldAngle(pre + (sign + (digits + post))) == Some(v)
  {
    var body := digits + post;
    assert body[0] == digits[0];
    SignedOf(sign, body);
    DropSpacesAfter(pre, sign + body);
    ConvertOf(if sign == "-" then -1 else 1, digits, post);
    DropAllBlanks(post);
  }

  lemma ShapeOfField(f: string, v: int) returns (pre: string, sign: string, digits: string, post: string)
    requires FieldAngle(f) == Some(v)
    ensures f == pre + (sign + (digits + post)) && AngleShape(pre, sign, digits, post, v)
  {
    DropBlanksThenSpaces(f);
    pre := SpacesBefore(f);
    sign := SignSplit(DropSpaces(f));
    var body := PyNumber.Signed(DropSpaces(f)).1;
    digits := Digits(body);
    post := body[|digits|..];
    DropAllBlanks(post);
    assert body == digits + post;
  }

  /** A field is accepted with value v exactly when it has that shape. */
  lemma FieldAcceptedIff(f: string, v: int)
    ensures FieldAngle(f) == Some(v) <==>
            exists pre, sign, digits, post ::
              f == pre + (sign + (digits + post)) && AngleShape(pre, sign, digits, post, v)
  {
    if FieldAngle(f) == Some(v) {
      var pre, sign, digits, post := ShapeOfField(f, v);
    }
    forall pre, sign, digits, post
      | f == pre + (sign + (digits + post)) && AngleShape(pre, sign, digits, post, v)
      ensures FieldAngle(f) == Some(v)
    {
      FieldOfShape(pre, sign, digits, post, v);
    }
  }

  // ---------- the backend's wire text ----------

  /** ",".join(map(str, angles)) for four angles. */
  function Wire(a: int, b: int, c: int, d: int): string
  {
    IntText(a) + "," + IntText(b) + "," + IntText(c) + "," + IntText(d)
  }

  lemma {:induction false} DigitsOfNumeral(s: string)
    requires forall i :: 0 <= i < |s| ==> IsDigit(s[i])
    ensures Digits(s) == s
  {
    if s != "" {
      DigitsOfNumeral(s[1..]);
      assert s == [s[0]] + s[1..];
    }
  }

  lemma NumeralField(n: nat)
    requires n <= 180
    ensures FieldAngle(NatText(n)) == Some(n)
    ensures ',' !in NatText(n) && 1 <= |NatText(n)| <= 3
  {
    var s := NatText(n);
    assert IsDigit(s[0]);
    DigitsOfNumeral(s);
    PyNumber.NatTextValue(n);
    assert Pow10(2) == 100;
    assert Pow10(3) == 1000;
    NatTextLength(n, 3, 1000);
  }

  lemma TwoFields(e: string, f: string, v: int, w: int)
    requires FieldAngle(e) == Some(v) && FieldAngle(f) == Some(w)
    ensures FieldAngles([e, f]) == Some([v, w])
  {
    FieldAnglesCons(f, []);
    assert [f] + [] == [f] && [w] + [] == [w];
    FieldAnglesCons(e, [f]);
    assert [e] + [f] == [e, f] && [v] + [w] == [v, w];
  }

  lemma FourFields(e: string, f: string, g: string, h: string, v: int, w: int, x: int, y: int)
    requires FieldAngle(e) == Some(v) && FieldAngle(f) == Some(w) && FieldAngle(g) == Some(x)
    requires FieldAngle(h) == Some(y)
    ensures FieldAngles([e, f, g, h]) == Some([v, w, x, y])
  {
    TwoFields(g, h, x, y);
    FieldAnglesCons(f, [g, h]);
    assert [f] + [g, h] == [f, g, h] && [w] + [x, y] == [w, x, y];
    FieldAnglesCons(e, [f, g, h]);
    assert [e] + [f, g, h] == [e, f, g, h] && [v] + [w, x, y] == [v, w, x, y];
  }

  /** Four angles in 0..180 survive the wire, in at most 15 bytes. */
  lemma WireRoundTrip(a: int, b: int, c: int, d: int)
    requires 0 <= a <= 180 && 0 <= b <= 180 && 0 <= c <= 180 && 0 <= d <= 180
    ensures |Wire(a, b, c, d)| <= 15
    ensures AnglesOf(Wire(a, b, c, d)) == Some([a, b, c, d])
  {
    NumeralField(a);
    NumeralField(b);
    NumeralField(c);
    NumeralField(d);
    WireFields(a, b, c, d);
    FourFields(NatText(a), NatText(b), NatText(c), NatText(d), a, b, c, d);
  }

  lemma WireFields(a: nat, b: nat, c: nat, d: nat)
    requires ',' !in NatText(a) && ',' !in NatText(b) && ',' !in NatText(c) && ',' !in NatText(d)
    ensures Split(Wire(a, b, c, d), ',') == [NatText(a), NatText(b), NatText(c), NatText(d)]
  {
    SplitPlain(NatText(a), ',');
    SplitPlain(NatText(b), ',');
    SplitPlain(NatText(c), ',');
    SplitPlain(NatText(d), ',');
    SplitAtSep(NatText(a), NatText(b), ',');
    SplitAtSep(NatText(a) + "," + NatText(b), NatText(c), ',');
    SplitAtSep(NatText(a) + "," + NatText(b) + "," + NatText(c), NatText(d), ',');
  }
}
