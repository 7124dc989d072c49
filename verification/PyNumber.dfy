/** Python's int() and float() on ASCII text.  Floats are exact reals: rounding to a double is
    not modelled, the overflow to infinity is. */
module PyNumber {
  import Seqs
  import opened Options
  import opened Text

  /** The sign (1 or -1) and the text after it. */
  function Signed(s: string): (int, string) {
    if s != "" && s[0] == '-' then (-1, s[1..])
    else if s != "" && s[0] == '+' then (1, s[1..])
    else (1, s)
  }

  // ---------- int() ----------

  /** Digits with single underscores between them. */
  predicate DigitRun(s: string) {
    s != "" && IsDigit(s[0]) &&
    (|s| == 1 || DigitRun(s[1..]) || (|s| > 2 && s[1] == '_' && DigitRun(s[2..])))
  }

  /** The value of a run of digits; underscores do not count. */
  function RunValue(s: string): nat {
    if s == "" then 0
    else
      var last := s[|s| - 1];
      if IsDigit(last) then 10 * RunValue(s[..|s| - 1]) + DigitOf(last) else RunValue(s[..|s| - 1])
  }

  function PyInt(s: string): Option<int> {
    var (sign, body) := Signed(Strip(s));
    if DigitRun(body) then Some(sign * RunValue(body)) else None
  }

  // ---------- float() ----------

  /** ValueError, infinity or NaN, or a finite value. */
  datatype PyFloat = Invalid | NonFinite | Finite(value: real)

  /** Where the reader of a decimal literal stands; a Gap is just after an underscore. */
  datatype Mode = Start | Whole | WholeGap | PointFirst | Point | Frac | FracGap | ExpStart | ExpSign | Exp | ExpGap

  /** The digits read so far: mantissa, digits after the point, sign and value of the exponent. */
  datatype Literal = Literal(mantissa: nat, scale: nat, expSign: int, exp: nat)

  function NextMode(m: Mode, c: char): Option<Mode> {
    if IsDigit(c) then
      match m
      case Start | Whole | WholeGap => Some(Whole)
      case PointFirst | Point | Frac | FracGap => Some(Frac)
      case _ => Some(Exp)
    else if c == '_' then
      match m
      case Whole => Some(WholeGap)
      case Frac => Some(FracGap)
      case Exp => Some(ExpGap)
      case _ => None
    else if c == '.' then
      match m
      case Start => Some(PointFirst)
      case Whole => Some(Point)
      case _ => None
    else if c == 'e' || c == 'E' then
      (if m.Whole? || m.Point? || m.Frac? then Some(ExpStart) else None)
    else if (c == '+' || c == '-') && m.ExpStart? then Some(ExpSign)
    else None
  }

  function Take(a: Literal, m: Mode, c: char): Literal {
    if IsDigit(c) then
      match m
      case Whole => a.(mantissa := 10 * a.mantissa + DigitOf(c))
      case Frac => a.(mantissa := 10 * a.mantissa + DigitOf(c), scale := a.scale + 1)
      case _ => a.(exp := 10 * a.exp + DigitOf(c))
    else if c == '-' then a.(expSign := -1)
    else a
  }

  function ReadDecimal(s: string, m: Mode, a: Literal): Option<Literal> {
    if s == "" then (if m.Whole? || m.Point? || m.Frac? || m.Exp? then Some(a) else None)
    else match NextMode(m, s[0])
         case None => None
         case Some(m') => ReadDecimal(s[1..], m', Take(a, m', s[0]))
  }

  function ScaleTen(value: nat, exponent: int): real {
    if exponent >= 0 then (value * Pow10(exponent)) as real else value as real / Pow10(-exponent) as real
  }

  /** The least magnitude that overflows a double: 2^1024 - 2^970. */
  const DOUBLE_LIMIT := 0xFFFFFFFFFFFFFC00000000000000000000000000000000000000000000000000000000000000000000000000000000000000000000000000000000000000000000000000000000000000000000000000000000000000000000000000000000000000000000000000000000000000000000000000000000000000000000000000

  function Overflow(value: real): PyFloat {
    if value >= DOUBLE_LIMIT as real || value <= -DOUBLE_LIMIT as real then NonFinite else Finite(value)
  }

  function LiteralValue(sign: int, a: Option<Literal>): PyFloat {
    match a
    case None => Invalid
    case Some(l) => Overflow(sign as real * ScaleTen(l.mantissa, l.expSign * l.exp - l.scale))
  }

  function Lower(c: char): char {
    if 'A' <= c <= 'Z' then (c as int + 32) as char else c
  }

  /** Case-insensitive comparison with a lower-case word. */
  predicate Spells(s: string, word: string) {
    |s| == |word| && forall i :: 0 <= i < |s| ==> Lower(s[i]) == word[i]
  }

  predicate IsWord(s: string) {
    Spells(s, "inf") || Spells(s, "infinity") || Spells(s, "nan")
  }

  function PyFloatOf(s: string): PyFloat {
    var (sign, body) := Signed(Strip(s));
    if IsWord(body) then NonFinite
    else LiteralValue(sign, ReadDecimal(body, Start, Literal(0, 0, 1, 0)))
  }

  // ---------- integers written by %d ----------

  lemma {:induction false} DigitsAreRun(s: string)
    requires s != "" && forall i :: 0 <= i < |s| ==> IsDigit(s[i])
    ensures DigitRun(s)
  {
    if |s| > 1 {
      DigitsAreRun(s[1..]);
    }
  }

  lemma {:induction false} NatTextValue(n: nat)
    ensures RunValue(NatText(n)) == n
  {
    if n < 10 {
      assert NatText(n)[..0] == "";
    } else {
      NatTextValue(n / 10);
      assert NatText(n)[..|NatText(n)| - 1] == NatText(n / 10);
    }
  }

  lemma IntTextTight(n: int)
    ensures Strip(IntText(n)) == IntText(n)
    ensures Signed(IntText(n)) == if n < 0 then (-1, NatText(-n)) else (1, NatText(n))
  {
    var s := IntText(n);
    assert IsDigit(s[|s| - 1]);
    if n < 0 {
      assert s[1..] == NatText(-n);
    }
  }

  lemma IntRoundTrip(n: int)
    ensures PyInt(IntText(n)) == Some(n)
  {
    IntTextTight(n);
    var d := if n < 0 then -n else n;
    DigitsAreRun(NatText(d));
    NatTextValue(d);
  }

  /** Reading digits and then the rest: the digits only move the mantissa. */
  lemma {:induction false} ReadDigits(s: string, m: Mode, a: Literal, tail: string)
    requires m.Start? || m.Whole?
    requires s != "" && forall i :: 0 <= i < |s| ==> IsDigit(s[i])
    ensures ReadDecimal(s + tail, m, a)
            == ReadDecimal(tail, Whole, a.(mantissa := a.mantissa * Pow10(|s|) + RunValue(s)))
    decreases |s|
  {
    var init, last := s[..|s| - 1], s[|s| - 1];
    MantissaStep(a.mantissa, s);
    if init == "" {
      ReadOneDigit(last, m, a, tail);
      assert s == [last] && RunValue(init) == 0;
    } else {
      var b := a.(mantissa := a.mantissa * Pow10(|init|) + RunValue(init));
      assert s == init + [last];
      Seqs.Assoc(init, [last], tail);
      ReadDigits(init, m, a, [last] + tail);
      ReadOneDigit(last, Whole, b, tail);
    }
  }

  lemma MantissaStep(n: nat, s: string)
    requires s != "" && IsDigit(s[|s| - 1])
    ensures var init := s[..|s| - 1];
            n * Pow10(|s|) + RunValue(s) == 10 * (n * Pow10(|init|) + RunValue(init)) + DigitOf(s[|s| - 1])
  {
    var p := Pow10(|s| - 1);
    assert n * (10 * p) == 10 * (n * p);
  }

  lemma ReadOneDigit(c: char, m: Mode, a: Literal, tail: string)
    requires IsDigit(c) && (m.Start? || m.Whole?)
    ensures ReadDecimal([c] + tail, m, a) == ReadDecimal(tail, Whole, a.(mantissa := 10 * a.mantissa + DigitOf(c)))
  {
    assert ([c] + tail)[1..] == tail;
  }

  lemma ReadNumeral(n: nat)
    ensures ReadDecimal(NatText(n), Start, Literal(0, 0, 1, 0)) == Some(Literal(n, 0, 1, 0))
  {
    var s := NatText(n);
    ReadDigits(s, Start, Literal(0, 0, 1, 0), "");
    NatTextValue(n);
    assert s + "" == s;
  }

  lemma SignedScale(sign: int, n: nat)
    requires (sign == 1 || sign == -1) && n < 1000000
    ensures LiteralValue(sign, Some(Literal(n, 0, 1, 0))) == Finite((sign * n) as real)
  {
    assert Pow10(0) == 1;
    assert n * Pow10(0) == n;
  }

  /** float() of a %d numeral is that integer. */
  lemma FloatRoundTrip(n: int)
    requires -1000000 < n < 1000000
    ensures PyFloatOf(IntText(n)) == Finite(n as real)
  {
    IntTextTight(n);
    var d, sign := if n < 0 then -n else n, if n < 0 then -1 else 1;
    assert IsDigit(NatText(d)[0]);
    ReadNumeral(d);
    SignedScale(sign, d);
  }

  // ---------- texts that are no number ----------

  /** A character that never occurs in a float literal. */
  predicate Foreign(c: char) {
    !IsDigit(c) && c !in "_+-.eE" && Lower(c) !in "infatyn"
  }

  lemma {:induction false} DecimalRejects(s: string, m: Mode, a: Literal, i: nat)
    requires i < |s| && Foreign(s[i])
    ensures ReadDecimal(s, m, a) == None
    decreases |s|
  {
    if i > 0 {
      match NextMode(m, s[0])
      case None =>
      case Some(m') => DecimalRejects(s[1..], m', Take(a, m', s[0]), i - 1);
    }
  }

  lemma WordRejects(s: string, i: nat)
    requires i < |s| && Foreign(s[i])
    ensures !IsWord(s)
  {
    assert forall k :: 0 <= k < 3 ==> "inf"[k] in "infatyn" && "nan"[k] in "infatyn";
    assert forall k :: 0 <= k < 8 ==> "infinity"[k] in "infatyn";
  }

  lemma SignedKeeps(s: string, i: nat) returns (j: nat)
    requires i < |s| && s[i] !in "+-"
    ensures j < |Signed(s).1| && Signed(s).1[j] == s[i]
  {
    j := if s[0] == '+' || s[0] == '-' then i - 1 else i;
  }

  /** A text with a foreign character in it is a ValueError for float(). */
  lemma FloatRejects(s: string, c: char)
    requires c in s && Foreign(c) && !IsSpace(c)
    ensures PyFloatOf(s) == Invalid
  {
    StripMembers(s, c);
    var t := Strip(s);
    var i :| 0 <= i < |t| && t[i] == c;
    var j := SignedKeeps(t, i);
    var (sign, body) := Signed(t);
    WordRejects(body, j);
    DecimalRejects(body, Start, Literal(0, 0, 1, 0), j);
  }
}
