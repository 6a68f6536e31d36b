/**
 Decimal integer literals as Python's `int(text)` reads them and as `str(n)`
 (and an f-string `{n}`) writes them.

 `int(text)` ignores white space around the literal, accepts one optional sign,
 and then a run of decimal digits in which single underscores may separate
 two digits. Everything else raises `ValueError`, modelled as `None`.
 */
module Numerals {
  import opened Wrappers

  /**
   The characters `int()` ignores at both ends of a literal: the six ASCII
   white-space characters (space, tab, line feed, carriage return, vertical
   tab, form feed) and the non-ASCII characters that `str.isspace()` accepts.
   The ASCII separators U+001C to U+001F pass `str.isspace()` but are not
   stripped by `int()`.
   */
  predicate IsSpace(c: char) {
    || c in {' ', '\t', '\n', '\r', '\U{000B}', '\U{000C}'}
    || c in {'\U{0085}', '\U{00A0}', '\U{1680}', '\U{2028}', '\U{2029}', '\U{202F}', '\U{205F}', '\U{3000}'}
    || '\U{2000}' <= c <= '\U{200A}'
  }

  predicate IsDigit(c: char) {
    '0' <= c <= '9'
  }

  function DigitValue(c: char): (d: nat)
    requires IsDigit(c)
    ensures d < 10
  {
    (c as int) - ('0' as int)
  }

  function DigitChar(d: nat): (c: char)
    requires d < 10
    ensures IsDigit(c) && DigitValue(c) == d
  {
    (('0' as int) + d) as char
  }

  /** Drops white space from the front. */
  function StripLeft(s: string): string
    decreases |s|
  {
    if |s| > 0 && IsSpace(s[0]) then StripLeft(s[1..]) else s
  }

  /** Drops white space from the back. */
  function StripRight(s: string): string
    decreases |s|
  {
    if |s| > 0 && IsSpace(s[|s| - 1]) then StripRight(s[..|s| - 1]) else s
  }

  function Strip(s: string): string {
    StripRight(StripLeft(s))
  }

  /** What `StripLeft` keeps is a suffix starting with no white space; all it drops is white space. */
  lemma {:induction false} StripLeftShape(s: string)
    ensures var t := StripLeft(s);
      && |t| <= |s| && t == s[|s| - |t|..]
      && (forall i :: 0 <= i < |s| - |t| ==> IsSpace(s[i]))
      && (|t| > 0 ==> !IsSpace(t[0]))
    decreases |s|
  {
    if |s| > 0 && IsSpace(s[0]) {
      StripLeftShape(s[1..]);
    }
  }

  /** What `StripRight` keeps is a prefix ending with no white space; all it drops is white space. */
  lemma {:induction false} StripRightShape(s: string)
    ensures var t := StripRight(s);
      && |t| <= |s| && t == s[..|t|]
      && (forall i :: |t| <= i < |s| ==> IsSpace(s[i]))
      && (|t| > 0 ==> !IsSpace(t[|t| - 1]))
    decreases |s|
  {
    if |s| > 0 && IsSpace(s[|s| - 1]) {
      StripRightShape(s[..|s| - 1]);
    }
  }

  /** Digits, with single underscores allowed strictly between two digits. */
  predicate IsDigitGroup(s: string) {
    && |s| > 0
    && IsDigit(s[0])
    && IsDigit(s[|s| - 1])
    && (forall i :: 0 <= i < |s| ==> IsDigit(s[i]) || s[i] == '_')
    && (forall i :: 0 <= i < |s| - 1 ==> s[i] == '_' ==> s[i + 1] != '_')
  }

  predicate AllDigits(s: string) {
    forall i :: 0 <= i < |s| ==> IsDigit(s[i])
  }

  /** The number the digits of `s` spell, reading left to right and skipping underscores. */
  function DigitsValue(s: string): nat
    decreases |s|
  {
    if |s| == 0 then 0
    else if IsDigit(s[|s| - 1]) then 10 * DigitsValue(s[..|s| - 1]) + DigitValue(s[|s| - 1])
    else DigitsValue(s[..|s| - 1])
  }

  /** `int(s)`: `Some(n)` for a well-formed literal, `None` where Python raises `ValueError`. */
  function ParseInt(s: string): Option<int> {
    var t := Strip(s);
    if |t| > 0 && (t[0] == '+' || t[0] == '-') then
      if IsDigitGroup(t[1..]) then
        var magnitude: int := DigitsValue(t[1..]);
        Some(if t[0] == '-' then -magnitude else magnitude)
      else None
    else if IsDigitGroup(t) then Some(DigitsValue(t))
    else None
  }

  /** `str(n)` for a natural number: shortest decimal spelling, no leading zero. */
  function NatToString(n: nat): (s: string)
    ensures |s| > 0 && AllDigits(s)
    ensures DigitsValue(s) == n
    ensures s[0] == '0' ==> n == 0
    decreases n
  {
    if n < 10 then [DigitChar(n)]
    else
      var p := NatToString(n / 10);
      var s := p + [DigitChar(n % 10)];
      assert s[..|s| - 1] == p;
      s
  }

  /** `str(i)` for any integer: a minus sign before the digits of a negative number. */
  function IntToString(i: int): string {
    if i < 0 then "-" + NatToString(-i) else NatToString(i)
  }

  lemma StripUnspaced(s: string)
    requires |s| > 0 && !IsSpace(s[0]) && !IsSpace(s[|s| - 1])
    ensures Strip(s) == s
  {
  }

  lemma AllDigitsIsDigitGroup(s: string)
    requires |s| > 0 && AllDigits(s)
    ensures IsDigitGroup(s)
  {
  }

  /** Every integer Python prints is read back by `int()` as the same integer. */
  lemma ParsePrinted(i: int)
    ensures ParseInt(IntToString(i)) == Some(i)
  {
    var s := IntToString(i);
    var digits := NatToString(if i < 0 then -i else i);
    AllDigitsIsDigitGroup(digits);
    StripUnspaced(s);
    if i < 0 {
      assert s[1..] == digits;
    }
  }

  lemma {:induction false} DigitsValuePositive(s: string)
    requires |s| > 0 && AllDigits(s) && s[0] != '0'
    ensures DigitsValue(s) >= 1
    decreases |s|
  {
    if |s| > 1 {
      DigitsValuePositive(s[..|s| - 1]);
    }
  }

  /** A canonical decimal literal (no leading zero) is exactly what `str` prints for its value. */
  lemma {:induction false} PrintParsed(s: string)
    requires |s| > 0 && AllDigits(s)
    requires s[0] != '0' || |s| == 1
    ensures NatToString(DigitsValue(s)) == s
    decreases |s|
  {
    var n := DigitsValue(s);
    var last := s[|s| - 1];
    if |s| == 1 {
      assert s[..|s| - 1] == [];
      assert DigitsValue(s[..|s| - 1]) == 0;
      assert n == DigitValue(last);
    } else {
      var p := s[..|s| - 1];
      DigitsValuePositive(p);
      PrintParsed(p);
      assert n == 10 * DigitsValue(p) + DigitValue(last);
      assert n / 10 == DigitsValue(p) && n % 10 == DigitValue(last);
      assert DigitChar(DigitValue(last)) == last;
      assert s == p + [last];
    }
  }

  /** The ASCII separators are not white space to `int()`: a literal next to one is refused. */
  lemma SeparatorsNotStripped()
    ensures ParseInt("\U{001C}5") == None
    ensures ParseInt("5\U{001F}") == None
  {
  }

  /** Non-ASCII white space, such as a no-break space, is stripped like a blank. */
  lemma UnicodeSpaceStripped()
    ensures ParseInt("\U{00A0}5\U{3000}") == Some(5)
  {
  }

  /** Text that is not a numeral, as in `--timeout=yourmom`, is refused. */
  lemma RejectsWord()
    ensures ParseInt("yourmom") == None
  {
  }
}
