/**
 * The global function `parseInt( string, 10 )` of section 18.2.5 of ECMA-262
 * (2015 edition), applied to a string argument: skip leading white space,
 * take one optional sign, then the longest prefix of decimal digits; no
 * digits at all gives NaN.
 *
 * Numbers are unbounded here: the rounding of long digit strings to the
 * nearest double is not modelled. NaN is `None`, and the value -0 that
 * `parseInt( '-0', 10 )` returns is represented by `Some(0)`.
 */
module JsParseInt {
  import opened Wrappers

  /** StrWhiteSpaceChar (section 7.1.3.1): a WhiteSpace code point (section
      11.2, including every space separator of category Zs) or a
      LineTerminator (section 11.3). */
  predicate IsStrWhiteSpaceChar(c: char) {
    || c == '\t' || c == '\U{000B}' || c == '\U{000C}' || c == ' '
    || c == '\U{00A0}' || c == '\U{FEFF}'
    || c == '\n' || c == '\r' || c == '\U{2028}' || c == '\U{2029}'
    || c == '\U{1680}' || ('\U{2000}' <= c <= '\U{200A}')
    || c == '\U{202F}' || c == '\U{205F}' || c == '\U{3000}'
  }

  /** Step 2 of the algorithm: drop the leading white space. */
  function TrimStart(s: string): (r: string)
    ensures |r| <= |s| && r == s[|s| - |r|..]
    ensures forall i :: 0 <= i < |s| - |r| ==> IsStrWhiteSpaceChar(s[i])
    ensures r == [] || !IsStrWhiteSpaceChar(r[0])
  {
    if s != [] && IsStrWhiteSpaceChar(s[0]) then TrimStart(s[1..]) else s
  }

  predicate IsDecimalDigit(c: char) {
    '0' <= c <= '9'
  }

  predicate AllDigits(z: string) {
    forall i :: 0 <= i < |z| ==> IsDecimalDigit(z[i])
  }

  /** Step 11 for radix 10: the longest prefix made of decimal digits. */
  function DigitPrefix(s: string): (z: string)
    ensures |z| <= |s| && z == s[..|z|]
    ensures AllDigits(z)
    ensures |z| < |s| ==> !IsDecimalDigit(s[|z|])
  {
    if s != [] && IsDecimalDigit(s[0]) then [s[0]] + DigitPrefix(s[1..]) else []
  }

  function DigitValue(c: char): nat
    requires IsDecimalDigit(c)
  {
    (c as int) - ('0' as int)
  }

  /** The mathematical value of a string of decimal digits, most significant
      digit first. */
  function DigitsValue(z: string): nat
    requires AllDigits(z)
  {
    if z == [] then 0 else 10 * DigitsValue(z[..|z| - 1]) + DigitValue(z[|z| - 1])
  }

  /** `parseInt( s, 10 )`: a string of white space alone is NaN, and only a
      leading minus sign gives a negative result. */
  function ParseInt10(s: string): (r: Option<int>)
    ensures TrimStart(s) == [] ==> r.None?
    ensures TrimStart(s) != [] && IsDecimalDigit(TrimStart(s)[0]) ==> r.Some? && r.value >= 0
    ensures r.Some? && r.value < 0 ==> TrimStart(s)[0] == '-'
  {
    ParseSigned(TrimStart(s))
  }

  /** Steps 3 to 13 of the algorithm, on a string without leading white
      space: one optional sign, then the digit prefix. A leading digit always
      gives the value of the digit run; anything but a sign or a digit first
      gives NaN. */
  function ParseSigned(t: string): (r: Option<int>)
    ensures r.Some? && r.value < 0 ==> t != [] && t[0] == '-'
    ensures t != [] && IsDecimalDigit(t[0]) ==> r == Some(DigitsValue(DigitPrefix(t)))
    ensures t == [] || (!IsDecimalDigit(t[0]) && t[0] != '-' && t[0] != '+') ==> r.None?
    ensures t != [] && (t[0] == '-' || t[0] == '+') && (|t| == 1 || !IsDecimalDigit(t[1])) ==> r.None?
  {
    var negative := t != [] && t[0] == '-';
    var unsigned := if t != [] && (t[0] == '-' || t[0] == '+') then t[1..] else t;
    var z := DigitPrefix(unsigned);
    if z == [] then None
    else
      var magnitude: int := DigitsValue(z);
      Some(if negative then -magnitude else magnitude)
  }

  /** The shortest decimal rendering of `n`, as `String( n )` gives it. */
  function DecimalString(n: nat): (s: string)
    ensures s != [] && AllDigits(s)
    ensures DigitsValue(s) == n
    ensures |s| > 1 ==> s[0] != '0'
  {
    var last := ['0' + (n % 10) as char];
    if n < 10 then last
    else
      var init := DecimalString(n / 10);
      var s := init + last;
      assert s[..|s| - 1] == init;
      s
  }

  /** A run of digits stops at the first character that is not one. */
  lemma {:induction false} DigitPrefixOfDigits(d: string, tail: string)
    requires AllDigits(d)
    requires tail == [] || !IsDecimalDigit(tail[0])
    ensures DigitPrefix(d + tail) == d
  {
    if d != [] {
      assert (d + tail)[1..] == d[1..] + tail;
      DigitPrefixOfDigits(d[1..], tail);
      assert [d[0]] + d[1..] == d;
    } else {
      assert d + tail == tail;
    }
  }

  /** Digits followed by anything that does not start with a digit parse to
      the value of the digits: `parseInt( '12px', 10 ) === 12`. */
  lemma {:induction false} ParseIntOfDigitsThenRest(d: string, tail: string)
    requires d != [] && AllDigits(d)
    requires tail == [] || !IsDecimalDigit(tail[0])
    ensures ParseInt10(d + tail) == Some(DigitsValue(d))
  {
    var s := d + tail;
    assert s[0] == d[0] && IsDecimalDigit(s[0]);
    NoLeadingWhiteSpace(s);
    DigitPrefixOfDigits(d, tail);
    assert ParseSigned(s) == Some(DigitsValue(d)) by {
      assert s[0] != '-' && s[0] != '+';
    }
  }

  /** Parsing undoes decimal rendering. */
  lemma {:induction false} ParseIntOfDecimal(n: nat)
    ensures ParseInt10(DecimalString(n)) == Some(n)
  {
    var d := DecimalString(n);
    ParseIntOfDigitsThenRest(d, []);
    assert d + [] == d;
  }

  /** Leading white space never changes the result. */
  lemma {:induction false} ParseIntSkipsWhiteSpace(w: string, s: string)
    requires forall i :: 0 <= i < |w| ==> IsStrWhiteSpaceChar(w[i])
    ensures ParseInt10(w + s) == ParseInt10(s)
  {
    TrimStartSkipsWhiteSpace(w, s);
  }

  lemma {:induction false} TrimStartSkipsWhiteSpace(w: string, s: string)
    requires forall i :: 0 <= i < |w| ==> IsStrWhiteSpaceChar(w[i])
    ensures TrimStart(w + s) == TrimStart(s)
  {
    if w != [] {
      assert (w + s)[0] == w[0];
      assert (w + s)[1..] == w[1..] + s;
      TrimStartSkipsWhiteSpace(w[1..], s);
    } else {
      assert w + s == s;
    }
  }

  /** A minus sign in front of an unsigned numeral negates its value, and a
      sign without digits after it is NaN. */
  lemma {:induction false} ParseIntNegative(s: string)
    requires s == [] || (!IsStrWhiteSpaceChar(s[0]) && s[0] != '-' && s[0] != '+')
    ensures ParseInt10("-" + s) == match ParseInt10(s) case None => None case Some(v) => Some(-v)
    ensures ParseInt10("-" + s).Some? ==> ParseInt10("-" + s).value <= 0
  {
    var t := "-" + s;
    assert t[0] == '-';
    NoLeadingWhiteSpace(t);
    NoLeadingWhiteSpace(s);
    ParseSignedNegative(s, t);
  }

  /** A plus sign in front of an unsigned numeral changes nothing:
      `parseInt( '+7', 10 ) === 7`, and a lone `+` is NaN. */
  lemma {:induction false} ParseIntPlus(s: string)
    requires s == [] || (!IsStrWhiteSpaceChar(s[0]) && s[0] != '-' && s[0] != '+')
    ensures ParseInt10("+" + s) == ParseInt10(s)
  {
    var t := "+" + s;
    assert t[0] == '+';
    NoLeadingWhiteSpace(t);
    NoLeadingWhiteSpace(s);
    ParseSignedPlus(s, t);
  }

  lemma {:induction false} ParseSignedPlus(s: string, t: string)
    requires s == [] || (s[0] != '-' && s[0] != '+')
    requires t == "+" + s
    ensures ParseSigned(t) == ParseSigned(s)
  {
    assert t[0] == '+' && t[1..] == s;
  }

  lemma {:induction false} NoLeadingWhiteSpace(s: string)
    requires s == [] || !IsStrWhiteSpaceChar(s[0])
    ensures TrimStart(s) == s
  {
  }

  lemma {:induction false} ParseSignedNegative(s: string, t: string)
    requires s == [] || (s[0] != '-' && s[0] != '+')
    requires t == "-" + s
    ensures ParseSigned(t) == match ParseSigned(s) case None => None case Some(v) => Some(-v)
    ensures ParseSigned(t).Some? ==> ParseSigned(t).value <= 0
  {
    assert t[0] == '-' && t[1..] == s;
  }
}
