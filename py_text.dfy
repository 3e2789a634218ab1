/**
 * The Python string operations the step language of the red-black tree
 * tests is built from: `str.find`, slicing with a bound that may be
 * negative, `str.strip(' ')`, and `int()` on a decimal text.  The decimal
 * rendering `str()` of an integer is given as the partner of `int()`.
 */
module PyText {
  import opened Wrappers

  /** `s.find(c)`: the first index holding `c`, or -1 when there is none. */
  function Find(s: string, c: char): (r: int)
    ensures -1 <= r < |s|
    ensures r == -1 <==> c !in s
    ensures 0 <= r ==> s[r] == c && c !in s[..r]
  {
    if s == [] then -1
    else if s[0] == c then 0
    else
      var i := Find(s[1..], c);
      assert 0 <= i ==> s[..i + 1] == [s[0]] + s[1..][..i];
      assert s == [s[0]] + s[1..];
      if i == -1 then -1 else i + 1
  }

  /** Python's normalisation of a slice bound `i` into a string of length `n`. */
  function Bound(i: int, n: nat): (r: nat)
    ensures r <= n
    ensures 0 <= i <= n ==> r == i
    ensures -(n as int) <= i < 0 ==> r == n + i
  {
    if i < 0 then (if n + i < 0 then 0 else n + i)
    else if i > n then n
    else i
  }

  /** `s[:i]` */
  function Prefix(s: string, i: int): string
  {
    s[..Bound(i, |s|)]
  }

  /** `s[i:]` */
  function Suffix(s: string, i: int): string
  {
    s[Bound(i, |s|)..]
  }

  /** Cutting at one bound splits the string into `s[:i]` and `s[i:]`. */
  lemma PrefixSuffix(s: string, i: int)
    ensures Prefix(s, i) + Suffix(s, i) == s
  {
  }

  // ---------------------------------------------------------------------
  // Stripping

  /** Which characters a strip removes: `strip(' ')` takes spaces only, `int()` any ASCII white space. */
  datatype Blanks = Spaces | WhiteSpace

  predicate IsBlank(b: Blanks, c: char)
  {
    c == ' ' || (b == WhiteSpace && ('\t' <= c <= '\r' || '\U{1C}' <= c <= '\U{1F}'))
  }

  /** The string without its leading blanks. */
  function StripLeft(b: Blanks, s: string): (r: string)
    ensures |r| <= |s| && r == s[|s| - |r|..]
    ensures r == [] || !IsBlank(b, r[0])
    ensures forall i :: 0 <= i < |s| - |r| ==> IsBlank(b, s[i])
  {
    if s != [] && IsBlank(b, s[0]) then StripLeft(b, s[1..]) else s
  }

  /** The string without its trailing blanks. */
  function StripRight(b: Blanks, s: string): (r: string)
    ensures |r| <= |s| && r == s[..|r|]
    ensures r == [] || !IsBlank(b, r[|r| - 1])
    ensures forall i :: |r| <= i < |s| ==> IsBlank(b, s[i])
  {
    if s != [] && IsBlank(b, s[|s| - 1]) then StripRight(b, s[..|s| - 1]) else s
  }

  /** `s.strip(...)`: both ends. */
  function StripBy(b: Blanks, s: string): string
  {
    StripRight(b, StripLeft(b, s))
  }

  /** `s.strip(' ')` */
  function Strip(s: string): string
  {
    StripBy(Spaces, s)
  }

  /** Neither end of the string is a blank. */
  predicate Trimmed(b: Blanks, s: string)
  {
    s == [] || (!IsBlank(b, s[0]) && !IsBlank(b, s[|s| - 1]))
  }

  /** A trimmed string is its own strip. */
  lemma StripTrimmed(b: Blanks, s: string)
    requires Trimmed(b, s)
    ensures StripBy(b, s) == s
  {
  }

  /** One leading space before a trimmed string is stripped. */
  lemma StripLead(s: string)
    requires Trimmed(Spaces, s)
    ensures Strip([' '] + s) == s
  {
    assert ([' '] + s)[1..] == s;
  }

  /** One trailing space after a trimmed string is stripped. */
  lemma StripTrail(s: string)
    requires Trimmed(Spaces, s)
    ensures Strip(s + [' ']) == s
  {
    var t := s + [' '];
    if s != [] {
      assert t[0] == s[0] && !IsBlank(Spaces, t[0]);
      assert StripLeft(Spaces, t) == t;
      assert t[..|t| - 1] == s;
      assert StripRight(Spaces, t) == StripRight(Spaces, s) == s;
    } else {
      assert t[1..] == [];
      assert StripLeft(Spaces, t) == StripLeft(Spaces, []) == [];
    }
  }

  // ---------------------------------------------------------------------
  // Integers

  predicate IsDigit(c: char) { '0' <= c <= '9' }

  /** Decimal digits, in groups joined by single underscores, as `int()` accepts them. */
  predicate DigitText(s: string)
  {
    |s| > 0 && IsDigit(s[0]) && IsDigit(s[|s| - 1]) &&
    (forall i :: 0 <= i < |s| ==> IsDigit(s[i]) || s[i] == '_') &&
    (forall i :: 0 <= i < |s| - 1 ==> s[i] == '_' ==> s[i + 1] != '_')
  }

  /** The number the digits of `s` spell, underscores skipped. */
  function DigitsValue(s: string): nat
  {
    if s == [] then 0
    else if s[|s| - 1] == '_' then DigitsValue(s[..|s| - 1])
    else
      var d := (s[|s| - 1] as int) - ('0' as int);
      DigitsValue(s[..|s| - 1]) * 10 + (if 0 <= d then d else 0)
  }

  /**
   * `int(s)`: blanks around the text are ignored, an optional `+` or `-`,
   * then digits; anything else is refused (`None`, Python's `ValueError`).
   */
  function ParseInt(s: string): (r: Option<int>)
    ensures r.Some? <==> var t := StripBy(WhiteSpace, s);
      t != [] && (DigitText(t) || ((t[0] == '+' || t[0] == '-') && DigitText(t[1..])))
  {
    var t := StripBy(WhiteSpace, s);
    if t != [] && (t[0] == '+' || t[0] == '-') then
      var v: int := DigitsValue(t[1..]);
      if DigitText(t[1..]) then Some(if t[0] == '-' then -v else v) else None
    else if DigitText(t) then Some(DigitsValue(t))
    else None
  }

  function Digit(n: nat): (c: char)
    requires n < 10
    ensures IsDigit(c) && (c as int) - ('0' as int) == n
  {
    ('0' as int + n) as char
  }

  /** `str(n)` for a natural number. */
  function NatText(n: nat): (r: string)
    ensures |r| > 0 && forall i :: 0 <= i < |r| ==> IsDigit(r[i])
  {
    if n < 10 then [Digit(n)] else NatText(n / 10) + [Digit(n % 10)]
  }

  /** `str(k)` */
  function IntText(k: int): (r: string)
    ensures |r| > 0 && (forall i :: 0 <= i < |r| ==> r[i] == '-' || IsDigit(r[i])) && IsDigit(r[|r| - 1])
  {
    if k < 0 then "-" + NatText(-k) else NatText(k)
  }

  lemma {:induction false} NatTextValue(n: nat)
    ensures DigitsValue(NatText(n)) == n
  {
    if n >= 10 {
      NatTextValue(n / 10);
      var s := NatText(n);
      assert s[..|s| - 1] == NatText(n / 10);
    }
  }

  /** `int(str(k)) == k` */
  lemma IntRoundTrip(k: int)
    ensures ParseInt(IntText(k)) == Some(k)
  {
    var s := IntText(k);
    assert Trimmed(WhiteSpace, s) by {
      assert !IsBlank(WhiteSpace, s[0]) && !IsBlank(WhiteSpace, s[|s| - 1]);
    }
    StripTrimmed(WhiteSpace, s);
    if k < 0 {
      assert s[1..] == NatText(-k);
      NatDigits(-k);
    } else {
      NatDigits(k);
    }
  }

  /** A leading zero does not change the value of a digit text: `int('07') == int('7')`. */
  lemma {:induction false} LeadingZero(s: string)
    ensures DigitsValue(['0'] + s) == DigitsValue(s)
    decreases |s|
  {
    var z := ['0'] + s;
    if s == [] {
      assert z[..0] == [];
    } else {
      assert z[..|z| - 1] == ['0'] + s[..|s| - 1];
      LeadingZero(s[..|s| - 1]);
    }
  }

  /** An underscore between digits does not change the value: `int('1_0') == int('10')`. */
  lemma {:induction false} UnderscoreSkipped(a: string, b: string)
    ensures DigitsValue(a + ['_'] + b) == DigitsValue(a + b)
    decreases |b|
  {
    var c := a + ['_'] + b;
    if b == [] {
      assert c[..|c| - 1] == a + b;
    } else {
      assert c[..|c| - 1] == a + ['_'] + b[..|b| - 1];
      assert (a + b)[..|a + b| - 1] == a + b[..|b| - 1];
      UnderscoreSkipped(a, b[..|b| - 1]);
    }
  }

  /** Unsigned digit text, once stripped, is read as its digits' value. */
  lemma ParseUnsigned(s: string, t: string)
    requires StripBy(WhiteSpace, s) == t && DigitText(t)
    ensures ParseInt(s) == Some(DigitsValue(t))
  {
  }

  /** `+` and digit text, once stripped, is read as the digits' value. */
  lemma ParsePlus(s: string, t: string)
    requires StripBy(WhiteSpace, s) == t && |t| > 1 && t[0] == '+' && DigitText(t[1..])
    ensures ParseInt(s) == Some(DigitsValue(t[1..]))
  {
  }

  /** A sign and leading zeros are read as Python reads them: `int('+007') == 7`. */
  lemma ParseSignedZeros()
    ensures ParseInt("+007") == Some(7)
  {
    var t := "+007";
    assert StripBy(WhiteSpace, t) == t by {
      assert Trimmed(WhiteSpace, t);
      StripTrimmed(WhiteSpace, t);
    }
    var d := t[1..];
    assert d == ['0'] + "07" && "07" == ['0'] + "7";
    assert DigitsValue(d) == 7 by {
      LeadingZero("07");
      LeadingZero("7");
      assert "7"[..0] == [];
    }
    assert DigitText(d) by {
      assert d[0] == '0' && d[1] == '0' && d[2] == '7';
    }
    ParsePlus(t, t);
  }

  /** White space around `1_0\n` is stripped. */
  lemma StripSpaced()
    ensures StripBy(WhiteSpace, " 1_0\n") == "1_0"
  {
    var s := " 1_0\n";
    var u := "1_0\n";
    var t := "1_0";
    assert s[1..] == u && IsBlank(WhiteSpace, s[0]) && !IsBlank(WhiteSpace, u[0]);
    assert StripLeft(WhiteSpace, s) == u;
    assert u[..|u| - 1] == t && IsBlank(WhiteSpace, u[|u| - 1]) && !IsBlank(WhiteSpace, t[|t| - 1]);
    assert StripRight(WhiteSpace, u) == t;
  }

  /** `1_0` is digit text worth ten. */
  lemma UnderscoreTen()
    ensures DigitText("1_0") && DigitsValue("1_0") == 10
  {
    var t := "1_0";
    assert t[0] == '1' && t[1] == '_' && t[2] == '0';
    assert t == "1" + ['_'] + "0";
    UnderscoreSkipped("1", "0");
    assert "10"[..1] == "1" && "1"[..0] == [];
  }

  /** Surrounding white space goes and an inner underscore is skipped: `int(' 1_0\n') == 10`. */
  lemma ParseSpacedUnderscore()
    ensures ParseInt(" 1_0\n") == Some(10)
  {
    StripSpaced();
    UnderscoreTen();
    ParseUnsigned(" 1_0\n", "1_0");
  }

  /** Doubled underscores are refused, as `ValueError`. */
  lemma ParseDoubledUnderscore()
    ensures ParseInt("1__0") == None
  {
    var t := "1__0";
    assert Trimmed(WhiteSpace, t);
    StripTrimmed(WhiteSpace, t);
    assert !DigitText(t) by { assert t[1] == '_' && t[2] == '_'; }
  }

  /** An outer underscore is refused, as `ValueError`. */
  lemma ParseOuterUnderscore()
    ensures ParseInt("_1") == None
  {
    var t := "_1";
    assert t[0] == '_' && t[1] == '1';
    assert Trimmed(WhiteSpace, t);
    StripTrimmed(WhiteSpace, t);
    assert !DigitText(t);
  }

  /** A bare sign is refused, as `ValueError`. */
  lemma ParseBareSign()
    ensures ParseInt("+") == None
  {
    var t := "+";
    assert Trimmed(WhiteSpace, t);
    StripTrimmed(WhiteSpace, t);
    assert t[1..] == [];
  }

  /** `str(n)` is digit text with the value `n`. */
  lemma NatDigits(n: nat)
    ensures DigitText(NatText(n)) && DigitsValue(NatText(n)) == n
  {
    NatTextValue(n);
  }

  /** The text `str(k)` contains no space. */
  lemma IntTextNoSpace(k: int)
    ensures ' ' !in IntText(k)
  {
    var s := IntText(k);
    assert forall i :: 0 <= i < |s| ==> s[i] != ' ';
  }
}
