/** Character classes, `String.prototype.trim` and decimal rendering of numbers
    (`Number.prototype.toString` and the `padStart(2, '0')` helper). */
module Text {
  import opened Wrappers

  /** The characters JavaScript's `trim` removes and the regular-expression class
      `\s` matches: the ECMAScript WhiteSpace and LineTerminator sets. */
  predicate IsWhitespace(c: char) {
    || c == ' ' || c == '\t' || c == '\n' || c == '\r'
    || c == '\U{000B}' || c == '\U{000C}' || c == '\U{00A0}' || c == '\U{1680}'
    || ('\U{2000}' <= c <= '\U{200A}')
    || c == '\U{2028}' || c == '\U{2029}' || c == '\U{202F}' || c == '\U{205F}'
    || c == '\U{3000}' || c == '\U{FEFF}'
  }

  /** Every character of `s` is whitespace (so `s.trim()` is the empty string). */
  predicate IsBlank(s: string) {
    forall i :: 0 <= i < |s| ==> IsWhitespace(s[i])
  }

  /** The index of the first character at or after `i` that is not whitespace, or `|s|`. */
  function SkipWhitespace(s: string, i: nat): (k: nat)
    requires i <= |s|
    ensures i <= k <= |s|
    ensures forall j :: i <= j < k ==> IsWhitespace(s[j])
    ensures k < |s| ==> !IsWhitespace(s[k])
    decreases |s| - i
  {
    if i < |s| && IsWhitespace(s[i]) then SkipWhitespace(s, i + 1) else i
  }

  /** Scanning back from `j` towards `lo`: the index where the run of whitespace that
      ends at `j` begins. */
  function SkipWhitespaceBack(s: string, lo: nat, j: nat): (e: nat)
    requires lo <= j <= |s|
    ensures lo <= e <= j
    ensures forall m :: e <= m < j ==> IsWhitespace(s[m])
    ensures e > lo ==> !IsWhitespace(s[e - 1])
    decreases j - lo
  {
    if lo < j && IsWhitespace(s[j - 1]) then SkipWhitespaceBack(s, lo, j - 1) else j
  }

  /** `String.prototype.trim`: the contiguous middle of `s` between its leading and
      trailing whitespace; it is empty exactly when `s` is blank. */
  function Trim(s: string): (r: string)
    ensures r == "" <==> IsBlank(s)
    ensures var k := SkipWhitespace(s, 0); k + |r| <= |s| && r == s[k..k + |r|]
    ensures var k := SkipWhitespace(s, 0);
      && (forall i :: 0 <= i < k ==> IsWhitespace(s[i]))
      && (forall i :: k + |r| <= i < |s| ==> IsWhitespace(s[i]))
    ensures |r| > 0 ==> !IsWhitespace(r[0]) && !IsWhitespace(r[|r| - 1])
  {
    var k := SkipWhitespace(s, 0);
    s[k..SkipWhitespaceBack(s, k, |s|)]
  }

  predicate IsDigit(c: char) {
    '0' <= c <= '9'
  }

  predicate AllDigits(s: string) {
    forall i :: 0 <= i < |s| ==> IsDigit(s[i])
  }

  function DigitChar(d: nat): (c: char)
    requires d < 10
    ensures IsDigit(c)
  {
    (('0' as int) + d) as char
  }

  function DigitValue(c: char): (d: nat)
    requires IsDigit(c)
    ensures d < 10 && DigitChar(d) == c
  {
    (c as int) - ('0' as int)
  }

  /** The number a string of decimal digits denotes (leading zeros allowed). */
  function DigitsValue(s: string): nat
    requires AllDigits(s)
  {
    if |s| == 0 then 0 else DigitsValue(s[..|s| - 1]) * 10 + DigitValue(s[|s| - 1])
  }

  /** `Number.prototype.toString()` of a non-negative integer: base ten, no leading zero. */
  function NatToString(n: nat): (r: string)
    ensures |r| >= 1 && AllDigits(r)
    ensures |r| > 1 ==> r[0] != '0'
    ensures r[0] == '0' <==> n == 0
    ensures n < 10 <==> |r| == 1
    ensures 10 <= n < 100 <==> |r| == 2
  {
    if n < 10 then [DigitChar(n)] else NatToString(n / 10) + [DigitChar(n % 10)]
  }

  /** Reading back a rendered number gives the number. */
  lemma {:induction false} NatToStringRoundTrip(n: nat)
    ensures DigitsValue(NatToString(n)) == n
    decreases n
  {
    if n >= 10 {
      var r := NatToString(n);
      assert r[..|r| - 1] == NatToString(n / 10);
      NatToStringRoundTrip(n / 10);
    }
  }

  /** `Number.prototype.toString()` of any integer: a minus sign before the magnitude. */
  function IntToString(i: int): (r: string)
    ensures |r| >= 1
    ensures i < 0 <==> r[0] == '-'
    ensures i >= 0 && |r| > 1 ==> r[0] != '0'
    ensures i < 0 ==> |r| >= 2 && r[1] != '0'
  {
    if i < 0 then "-" + NatToString(-i) else NatToString(i)
  }

  /** A rendered integer holds a minus sign and digits only, so in particular no space. */
  lemma IntToStringHasNoSpace(i: int)
    ensures forall k :: 0 <= k < |IntToString(i)| ==> IntToString(i)[k] != ' '
  {
    var r := IntToString(i);
    if i < 0 {
      var n := NatToString(-i);
      forall k | 0 <= k < |r| ensures r[k] != ' ' {
        if k > 0 {
          assert r[k] == n[k - 1];
        }
      }
    }
  }

  /** Decimal digits as `toString` writes them: at least one, no leading zero. */
  predicate CanonicalDigits(s: string) {
    |s| >= 1 && AllDigits(s) && (|s| == 1 || s[0] != '0')
  }

  /** Reads an optionally negative decimal integer in the form `toString` writes it
      (no leading zero, no "-0"); `None` for any other text. */
  function ParseInt(s: string): (r: Option<int>)
  {
    if |s| >= 2 && s[0] == '-' && CanonicalDigits(s[1..]) && s[1] != '0' then Some(-(DigitsValue(s[1..]) as int))
    else if CanonicalDigits(s) then Some(DigitsValue(s))
    else None
  }

  /** Whatever `ParseInt` accepts is exactly the `toString` text of the number it reads,
      so reading back pins the text. */
  lemma ParseIntCanonical(s: string)
    requires ParseInt(s).Some?
    ensures IntToString(ParseInt(s).value) == s
  {
    if |s| >= 2 && s[0] == '-' && CanonicalDigits(s[1..]) && s[1] != '0' {
      var m := s[1..];
      PositiveLead(m);
      DigitsCanonical(m);
      assert s == "-" + m;
    } else {
      DigitsCanonical(s);
    }
  }

  /** Canonical digits are the rendering of their own value. */
  lemma {:induction false} DigitsCanonical(s: string)
    requires CanonicalDigits(s)
    ensures NatToString(DigitsValue(s)) == s
    decreases |s|
  {
    if |s| == 1 {
      assert DigitsValue(s) == DigitValue(s[0]);
      assert s == [s[0]];
    } else {
      var p := s[..|s| - 1];
      assert p[0] == s[0];
      PositiveLead(p);
      DigitsCanonical(p);
      var v := DigitsValue(s);
      assert v / 10 == DigitsValue(p) && v % 10 == DigitValue(s[|s| - 1]);
      assert s == p + [s[|s| - 1]];
    }
  }

  /** Digits that do not start with '0' denote a positive number. */
  lemma {:induction false} PositiveLead(s: string)
    requires |s| >= 1 && AllDigits(s) && s[0] != '0'
    ensures DigitsValue(s) >= 1
    decreases |s|
  {
    if |s| > 1 {
      var p := s[..|s| - 1];
      assert p[0] == s[0];
      PositiveLead(p);
    }
  }

  lemma IntToStringRoundTrip(i: int)
    ensures ParseInt(IntToString(i)) == Some(i)
  {
    if i < 0 {
      NegativeRoundTrip(i);
    } else {
      NonNegativeRoundTrip(i);
    }
  }

  lemma NegativeRoundTrip(i: int)
    requires i < 0
    ensures ParseInt(IntToString(i)) == Some(i)
  {
    var n := NatToString(-i);
    NatToStringRoundTrip(-i);
    ParseNegative(n, -i);
    assert IntToString(i) == "-" + n;
  }

  lemma NonNegativeRoundTrip(i: int)
    requires i >= 0
    ensures ParseInt(IntToString(i)) == Some(i)
  {
    var n := NatToString(i);
    NatToStringRoundTrip(i);
    ParseDigits(n, i);
    assert IntToString(i) == n;
  }

  lemma ParseDigits(s: string, v: nat)
    requires CanonicalDigits(s) && DigitsValue(s) == v
    ensures ParseInt(s) == Some(v)
  {
    assert IsDigit(s[0]);
  }

  lemma ParseNegative(s: string, v: nat)
    requires CanonicalDigits(s) && s[0] != '0' && DigitsValue(s) == v
    ensures ParseInt("-" + s) == Some(-(v as int))
  {
    assert ("-" + s)[1..] == s;
  }

  /** A leading zero does not change the value of a digit string. */
  lemma {:induction false} LeadingZero(s: string)
    requires AllDigits(s)
    ensures AllDigits("0" + s) && DigitsValue("0" + s) == DigitsValue(s)
    decreases |s|
  {
    var z := "0" + s;
    if |s| > 0 {
      assert z[..|z| - 1] == "0" + s[..|s| - 1];
      LeadingZero(s[..|s| - 1]);
    }
  }

  /** `num.toString().padStart(2, '0')`: at least two digits, exactly two below 100,
      and it still denotes `n`. */
  function PadZero(n: nat): (r: string)
    ensures AllDigits(r) && |r| >= 2 && DigitsValue(r) == n
    ensures n < 100 <==> |r| == 2
  {
    var s := NatToString(n);
    NatToStringRoundTrip(n);
    if |s| < 2 then (LeadingZero(s); "0" + s) else s
  }
}
