/** Character classes and the C library string conversions the command engine relies on:
    `atoi`, `"%ld"` formatting, blank skipping and trimming. Strings are sequences of
    characters, one character per byte of the C buffer. */
module Text {

  /** 2^32: the number of values of a `u32`, and the modulus of 32-bit wrap-around. */
  const U32: nat := 0x1_0000_0000

  /** isdigit() */
  predicate IsDigit(c: char) { '0' <= c <= '9' }

  /** isxdigit() */
  predicate IsHexDigit(c: char) { IsDigit(c) || 'a' <= c <= 'f' || 'A' <= c <= 'F' }

  /** isblank(): a space or a horizontal tab */
  predicate IsBlank(c: char) { c == ' ' || c == '\t' }

  /** isspace() in the C locale */
  predicate IsSpace(c: char) {
    c == ' ' || c == '\t' || c == '\n' || c == '\r' || c as int == 11 || c as int == 12
  }

  /** isascii() */
  predicate IsAscii(c: char) { (c as int) < 128 }

  predicate StartsWith(s: string, prefix: string) {
    |prefix| <= |s| && s[..|prefix|] == prefix
  }

  /** SKIP_BLANK_SPACE: drop leading spaces and tabs. */
  function SkipBlanks(s: string): (r: string)
    ensures |r| <= |s| && r == s[|s| - |r|..]
    ensures r == [] || !IsBlank(r[0])
    ensures forall i :: 0 <= i < |s| - |r| ==> IsBlank(s[i])
  {
    if s != [] && IsBlank(s[0]) then SkipBlanks(s[1..]) else s
  }

  /** The leading white space atoi() skips. */
  function SkipSpaces(s: string): (r: string)
    ensures |r| <= |s| && r == s[|s| - |r|..]
    ensures r == [] || !IsSpace(r[0])
  {
    if s != [] && IsSpace(s[0]) then SkipSpaces(s[1..]) else s
  }

  /** The longest prefix of `s` made of decimal digits. */
  function LeadingDigits(s: string): (r: string)
    ensures StartsWith(s, r)
    ensures forall i :: 0 <= i < |r| ==> IsDigit(r[i])
    ensures |r| == |s| || !IsDigit(s[|r|])
  {
    if s != [] && IsDigit(s[0]) then [s[0]] + LeadingDigits(s[1..]) else []
  }

  function DigitValue(c: char): nat
    requires IsDigit(c)
  {
    c as int - '0' as int
  }

  /** The number a string of decimal digits denotes. */
  function DecimalValue(d: string): nat
    requires forall i :: 0 <= i < |d| ==> IsDigit(d[i])
  {
    if d == [] then 0 else DecimalValue(d[..|d| - 1]) * 10 + DigitValue(d[|d| - 1])
  }

  /** atoi(): optional white space, an optional sign, then as many digits as follow.
      Anything else yields 0 (the C overflow behaviour is not modelled). */
  function Atoi(s: string): int {
    var t := SkipSpaces(s);
    if t != [] && t[0] == '-' then 0 - DecimalValue(LeadingDigits(t[1..])) as int
    else if t != [] && t[0] == '+' then DecimalValue(LeadingDigits(t[1..]))
    else DecimalValue(LeadingDigits(t))
  }

  function DigitChar(d: nat): (c: char)
    requires d < 10
    ensures IsDigit(c) && DigitValue(c) == d
  {
    ('0' as int + d) as char
  }

  /** Decimal digits of a natural number, most significant first, no leading zeros. */
  function NatToString(n: nat): (r: string)
    ensures r != []
    ensures forall i :: 0 <= i < |r| ==> IsDigit(r[i])
    ensures |r| > 1 ==> r[0] != '0'
    decreases n
  {
    if n < 10 then [DigitChar(n)] else NatToString(n / 10) + [DigitChar(n % 10)]
  }

  /** The canonical text `snprintf("%ld")` produces. */
  function IntToString(n: int): (r: string)
    ensures r != []
  {
    if n < 0 then "-" + NatToString(-n) else NatToString(n)
  }

  lemma {:induction false} DecimalOfNatToString(n: nat)
    ensures DecimalValue(NatToString(n)) == n
    decreases n
  {
    var r := NatToString(n);
    if n >= 10 {
      DecimalOfNatToString(n / 10);
      assert r[..|r| - 1] == NatToString(n / 10);
    }
  }

  lemma LeadingDigitsOfDigits(d: string)
    requires forall i :: 0 <= i < |d| ==> IsDigit(d[i])
    ensures LeadingDigits(d) == d
  {
    var r := LeadingDigits(d);
    assert |r| == |d|;
  }

  /** Writing an integer back in canonical form and reading it with atoi() gives the
      integer again: the normalisation of `01`, `001` in the set handler loses nothing. */
  lemma AtoiOfIntToString(n: int)
    ensures Atoi(IntToString(n)) == n
  {
    var d := NatToString(if n < 0 then -n else n);
    LeadingDigitsOfDigits(d);
    DecimalOfNatToString(if n < 0 then -n else n);
    if n < 0 {
      assert ("-" + d)[1..] == d;
    }
  }

  /** Every character of a number's text is a digit or its leading minus sign. */
  lemma NumberChars(n: int)
    ensures var t := IntToString(n);
            forall i :: 0 <= i < |t| ==> t[i] == '-' || IsDigit(t[i])
    ensures var t := IntToString(n); IsDigit(t[|t| - 1])
  {
    var t := IntToString(n);
    var d := NatToString(if n < 0 then -n else n);
    if n < 0 {
      assert forall i :: 1 <= i < |t| ==> t[i] == d[i - 1];
    }
    assert t[|t| - 1] == d[|d| - 1];
  }

  /** A value qsap_write_cfg writes as a single line, and that a read gives back whole: no
      line feed anywhere in it (`"%s=%s\n"` would start a new line there) and no carriage
      return at its end (the reader cuts those). */
  predicate OneLine(s: string) {
    '\n' !in s && (s == [] || s[|s| - 1] != '\r')
  }

  lemma OneLineTrimmed(s: string)
    requires OneLine(s)
    ensures TrimCrLf(s) == s
  {
  }

  /** A number's text is one line. */
  lemma NumberOneLine(n: int)
    ensures OneLine(IntToString(n))
  {
    NumberChars(n);
  }

  /** Remove trailing carriage returns and line feeds. */
  function TrimCrLf(s: string): (r: string)
    ensures StartsWith(s, r)
    ensures r == [] || (r[|r| - 1] != '\r' && r[|r| - 1] != '\n')
    ensures forall i :: |r| <= i < |s| ==> s[i] == '\r' || s[i] == '\n'
  {
    if s != [] && (s[|s| - 1] == '\r' || s[|s| - 1] == '\n') then TrimCrLf(s[..|s| - 1]) else s
  }

  /** Remove trailing spaces and tabs. */
  function TrimBlanks(s: string): (r: string)
    ensures StartsWith(s, r)
    ensures r == [] || !IsBlank(r[|r| - 1])
    ensures forall i :: |r| <= i < |s| ==> IsBlank(s[i])
  {
    if s != [] && IsBlank(s[|s| - 1]) then TrimBlanks(s[..|s| - 1]) else s
  }

  /** The text after the first '=' (strchr(p, '=') + 1), or the empty string. */
  function AfterEq(s: string): (r: string)
    ensures |r| <= |s|
  {
    if s == [] then [] else if s[0] == '=' then s[1..] else AfterEq(s[1..])
  }

  lemma AfterKeyEq(key: string, v: string)
    requires '=' !in key
    ensures AfterEq(key + "=" + v) == v
  {
    if key != [] {
      assert (key + "=" + v)[1..] == key[1..] + "=" + v;
      AfterKeyEq(key[1..], v);
    } else {
      assert (key + "=" + v)[1..] == v;
    }
  }
}
