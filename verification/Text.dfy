/** ASCII text: splitting, stripping and decimal numerals.  A byte is written as a `char`. */
module Text {
  import Seqs

  // ---------- splitting ----------

  /** str.split(sep): always at least one field. */
  function Split(s: string, sep: char): (fields: seq<string>)
    ensures |fields| >= 1
  {
    if s == "" then [""]
    else
      var rest := Split(s[1..], sep);
      if s[0] == sep then [""] + rest else [[s[0]] + rest[0]] + rest[1..]
  }

  /** Two field lists with the last field of one and the first of the other made into one. */
  function Fuse(x: seq<string>, y: seq<string>): (z: seq<string>)
    requires x != [] && y != []
    ensures |z| == |x| + |y| - 1
  {
    x[..|x| - 1] + [x[|x| - 1] + y[0]] + y[1..]
  }

  lemma FuseCons(f: string, t: seq<string>, y: seq<string>)
    requires t != [] && y != []
    ensures Fuse([f] + t, y) == [f] + Fuse(t, y)
  {
    assert ([f] + t)[..|t|] == [f] + t[..|t| - 1];
  }

  lemma FuseHead(p: string, t: seq<string>, y: seq<string>)
    requires t != [] && y != []
    ensures Fuse([p + t[0]] + t[1..], y) == [p + Fuse(t, y)[0]] + Fuse(t, y)[1..]
  {
    if |t| == 1 {
      assert p + (t[0] + y[0]) == (p + t[0]) + y[0];
    } else {
      assert t[1..] != [] && Fuse(t, y) == [t[0]] + Fuse(t[1..], y) by {
        assert t == [t[0]] + t[1..];
        FuseCons(t[0], t[1..], y);
      }
      FuseCons(p + t[0], t[1..], y);
    }
  }

  /** Concatenating texts fuses the field that ends the first with the field that begins the second. */
  lemma {:induction false} SplitAppend(a: string, b: string, sep: char)
    ensures Split(a + b, sep) == Fuse(Split(a, sep), Split(b, sep))
  {
    var y := Split(b, sep);
    if a == "" {
      assert a + b == b;
      assert "" + y[0] == y[0];
    } else {
      assert (a + b)[1..] == a[1..] + b;
      SplitAppend(a[1..], b, sep);
      var t := Split(a[1..], sep);
      if a[0] == sep {
        FuseCons("", t, y);
      } else {
        FuseHead([a[0]], t, y);
      }
    }
  }

  lemma {:induction false} SplitPlain(s: string, sep: char)
    requires sep !in s
    ensures Split(s, sep) == [s]
  {
    if s != "" {
      SplitPlain(s[1..], sep);
      assert [s[0]] + s[1..] == s;
    }
  }

  lemma SplitAtSep(a: string, b: string, sep: char)
    ensures Split(a + [sep] + b, sep) == Split(a, sep) + Split(b, sep)
  {
    var x, y := Split(a, sep), Split(b, sep);
    assert ([sep] + b)[1..] == b;
    SplitAppend(a, [sep] + b, sep);
    assert a + [sep] + b == a + ([sep] + b);
    assert x[|x| - 1] + "" == x[|x| - 1];
  }

  lemma {:induction false} SplitFieldsHaveNoSep(s: string, sep: char)
    ensures forall i :: 0 <= i < |Split(s, sep)| ==> sep !in Split(s, sep)[i]
  {
    if s != "" {
      SplitFieldsHaveNoSep(s[1..], sep);
    }
  }

  /** The first field is a prefix of the text. */
  lemma {:induction false} FirstFieldIsPrefix(s: string, sep: char)
    ensures Split(s, sep)[0] <= s
  {
    if s != "" {
      FirstFieldIsPrefix(s[1..], sep);
      assert s == [s[0]] + s[1..];
    }
  }

  // ---------- stripping ----------

  /** The ASCII characters str.strip() removes. */
  predicate IsSpace(c: char) {
    c == ' ' || 9 <= c as int <= 13 || 28 <= c as int <= 31
  }

  predicate Blank(s: string) {
    forall i :: 0 <= i < |s| ==> IsSpace(s[i])
  }

  function LStrip(s: string): (t: string)
    ensures |t| <= |s| && t == s[|s| - |t|..] && Blank(s[..|s| - |t|])
    ensures t != "" ==> !IsSpace(t[0])
  {
    if s != "" && IsSpace(s[0]) then LStrip(s[1..]) else s
  }

  function RStrip(s: string): (t: string)
    ensures t <= s && Blank(s[|t|..])
    ensures t != "" ==> !IsSpace(t[|t| - 1])
  {
    if s != "" && IsSpace(s[|s| - 1]) then RStrip(s[..|s| - 1]) else s
  }

  function Strip(s: string): (t: string)
    ensures t != "" ==> !IsSpace(t[0]) && !IsSpace(t[|t| - 1])
  {
    RStrip(LStrip(s))
  }

  lemma Regroup(s: string, a: string, u: string, t: string, b: string)
    requires s == a + u && u == t + b
    ensures s == a + t + b
  {
  }

  lemma LStripParts(s: string) returns (left: string)
    ensures s == left + LStrip(s) && Blank(left)
  {
    left := s[..|s| - |LStrip(s)|];
  }

  lemma RStripParts(s: string) returns (right: string)
    ensures s == RStrip(s) + right && Blank(right)
  {
    right := s[|RStrip(s)|..];
  }

  lemma StripParts(s: string) returns (left: string, right: string)
    ensures s == left + Strip(s) + right && Blank(left) && Blank(right)
  {
    left := LStripParts(s);
    right := RStripParts(LStrip(s));
    Regroup(s, left, LStrip(s), Strip(s), right);
  }

  lemma StripMembers(s: string, c: char)
    ensures c in Strip(s) ==> c in s
    ensures c in s && !IsSpace(c) ==> c in Strip(s)
  {
    var left, right := StripParts(s);
  }

  lemma StripBlank(s: string)
    ensures Strip(s) == "" <==> Blank(s)
  {
    var left, right := StripParts(s);
    if Strip(s) != "" {
      assert s[|left|] == Strip(s)[0];
    }
  }

  /** Text without leading or trailing whitespace is its own strip. */
  lemma StripTight(s: string)
    requires s != "" ==> !IsSpace(s[0]) && !IsSpace(s[|s| - 1])
    ensures Strip(s) == s
  {
  }

  lemma {:induction false} LStripBlankPrefix(b: string, s: string)
    requires Blank(b)
    ensures LStrip(b + s) == LStrip(s)
  {
    if b == "" {
      assert b + s == s;
    } else {
      assert (b + s)[1..] == b[1..] + s;
      LStripBlankPrefix(b[1..], s);
    }
  }

  lemma {:induction false} RStripBlankSuffix(s: string, b: string)
    requires Blank(b)
    ensures RStrip(s + b) == RStrip(s)
  {
    if b == "" {
      assert s + b == s;
    } else {
      assert (s + b)[..|s + b| - 1] == s + b[..|b| - 1];
      RStripBlankSuffix(s, b[..|b| - 1]);
    }
  }

  lemma StripPrefix(b: string, s: string)
    requires Blank(b)
    ensures Strip(b + s) == Strip(s)
  {
    LStripBlankPrefix(b, s);
  }

  /** A text without leading whitespace. */
  lemma StripSuffixOfTight(u: string, right: string)
    requires Blank(right) && (u != "" ==> !IsSpace(u[0]))
    ensures Strip(u + right) == Strip(u)
  {
    if u == "" {
      Seqs.EmptyConcat(right);
      StripBlank(right);
    } else {
      RStripBlankSuffix(u, right);
    }
  }

  lemma StripSuffix(s: string, right: string)
    requires Blank(right)
    ensures Strip(s + right) == Strip(s)
  {
    var left := LStripParts(s);
    var u := LStrip(s);
    Seqs.Assoc(left, u, right);
    StripPrefix(left, u + right);
    StripPrefix(left, u);
    StripSuffixOfTight(u, right);
  }

  /** Whitespace around a text strips away. */
  lemma StripPadded(left: string, s: string, right: string)
    requires Blank(left) && Blank(right)
    ensures Strip(left + s + right) == Strip(s)
  {
    StripSuffix(left + s, right);
    StripPrefix(left, s);
  }

  // ---------- decimal numerals ----------

  predicate IsDigit(c: char) {
    '0' <= c <= '9'
  }

  function DigitChar(d: nat): (c: char)
    requires d < 10
    ensures IsDigit(c) && DigitOf(c) == d
  {
    (d + 48) as char
  }

  function DigitOf(c: char): (d: nat)
    requires IsDigit(c)
    ensures d < 10
  {
    (c as int) - 48
  }

  /** str(n) and %d of a non-negative integer. */
  function NatText(n: nat): (s: string)
    ensures s != "" && forall i :: 0 <= i < |s| ==> IsDigit(s[i])
  {
    if n < 10 then [DigitChar(n)] else NatText(n / 10) + [DigitChar(n % 10)]
  }

  function IntText(n: int): (s: string)
    ensures s != "" && (forall i :: 1 <= i < |s| ==> IsDigit(s[i])) && (s[0] == '-' ==> |s| > 1)
            && (s[0] != '-' ==> IsDigit(s[0]))
  {
    if n < 0 then "-" + NatText(-n) else NatText(n)
  }

  lemma {:induction false} NatTextLength(n: nat, k: nat, limit: nat)
    requires k >= 1 && limit == Pow10(k) && n < limit
    ensures |NatText(n)| <= k
  {
    if n >= 10 {
      assert n / 10 < Pow10(k - 1);
      NatTextLength(n / 10, k - 1, Pow10(k - 1));
    }
  }

  function Pow10(k: nat): (p: nat)
    ensures p >= 1
  {
    if k == 0 then 1 else 10 * Pow10(k - 1)
  }

  lemma IntTextPlain(v: int)
    ensures forall c :: c in IntText(v) ==> IsDigit(c) || c == '-'
  {
    var s := IntText(v);
    forall c | c in s ensures IsDigit(c) || c == '-' {
      var i :| 0 <= i < |s| && s[i] == c;
    }
  }

  lemma NumeralLacks(field: string, c: char, v: int)
    requires field == IntText(v) && !IsDigit(c) && c != '-'
    ensures c !in field
  {
    IntTextPlain(v);
  }
}
