/**
 * The two JavaScript number conversions the quantity check uses: the global
 * `parseInt(string)` with no radix argument, as section 19.2.5 of ECMA-262
 * defines it, and the decimal text an integer-valued Number turns into inside
 * a template literal. NaN is `None`; other results are mathematical integers.
 */
module JsNumbers {
  import opened Wrappers

  /** StrWhiteSpaceChar of ECMA-262: WhiteSpace (with every Zs space) and LineTerminator. */
  predicate IsStrWhiteSpace(c: char) {
    var n := c as int;
    n == 0x09 || n == 0x0B || n == 0x0C || n == 0x20 || n == 0xA0 || n == 0xFEFF ||
    n == 0x1680 || 0x2000 <= n <= 0x200A || n == 0x202F || n == 0x205F || n == 0x3000 ||
    n == 0x0A || n == 0x0D || n == 0x2028 || n == 0x2029
  }

  /** The string with its leading white space removed (TrimString with `start`). */
  function TrimStart(s: string): (r: string)
    ensures |r| <= |s| && r == s[|s| - |r|..]
    ensures forall i :: 0 <= i < |s| - |r| ==> IsStrWhiteSpace(s[i])
    ensures r == [] || !IsStrWhiteSpace(r[0])
  {
    if s != [] && IsStrWhiteSpace(s[0]) then TrimStart(s[1..]) else s
  }

  /** The value of `c` as a digit in base 36 ('0'-'9', then 'a'/'A' for 10 up to 'z'/'Z' for 35). */
  function DigitValue(c: char): nat {
    if '0' <= c <= '9' then c as int - '0' as int
    else if 'a' <= c <= 'z' then c as int - 'a' as int + 10
    else if 'A' <= c <= 'Z' then c as int - 'A' as int + 10
    else 36
  }

  predicate IsRadixDigit(c: char, radix: nat) { DigitValue(c) < radix }

  /** The length of the longest prefix of `s` made of digits of `radix`. */
  function DigitPrefixLength(s: string, radix: nat): (n: nat)
    ensures n <= |s|
    ensures forall i :: 0 <= i < n ==> IsRadixDigit(s[i], radix)
    ensures n < |s| ==> !IsRadixDigit(s[n], radix)
  {
    if s != [] && IsRadixDigit(s[0], radix) then 1 + DigitPrefixLength(s[1..], radix) else 0
  }

  /** The number that a digit string denotes in `radix`, most significant digit first. */
  function DigitsValue(digits: string, radix: nat): nat
  {
    if digits == [] then 0
    else DigitsValue(digits[..|digits| - 1], radix) * radix + DigitValue(digits[|digits| - 1])
  }

  /**
   * `parseInt(s)`: skip leading white space, take an optional sign, switch to
   * base 16 after a "0x" or "0X" prefix, read the longest run of digits and
   * ignore the rest. No digits at all gives NaN (`None`). A negative zero
   * compares like zero, so it is zero here.
   */
  function ParseInt(s: string): Option<int>
  {
    ParseSigned(TrimStart(s))
  }

  /** The sign step of `parseInt`, on text whose white space is already gone. */
  function ParseSigned(t: string): Option<int>
  {
    if t != [] && t[0] == '-' then
      match ParseMagnitude(t[1..])
      case None => None
      case Some(m) => Some(-(m as int))
    else if t != [] && t[0] == '+' then ParseMagnitude(t[1..])
    else ParseMagnitude(t)
  }

  /** The radix step of `parseInt`: "0x" or "0X" selects base 16, otherwise base 10. */
  function ParseMagnitude(u: string): Option<nat>
  {
    if |u| >= 2 && u[0] == '0' && (u[1] == 'x' || u[1] == 'X') then ParseDigits(u[2..], 16)
    else ParseDigits(u, 10)
  }

  /** The longest run of `radix` digits at the start of `v`, or NaN when there is none. */
  function ParseDigits(v: string, radix: nat): Option<nat>
  {
    var n := DigitPrefixLength(v, radix);
    if n == 0 then None else Some(DigitsValue(v[..n], radix))
  }

  function DigitChar(d: nat): (c: char)
    requires d < 10
    ensures IsRadixDigit(c, 10) && DigitValue(c) == d
  {
    (d + '0' as int) as char
  }

  /**
   * The decimal text of a natural number: digits only, no leading zero, and
   * the digits denote `n` again.
   */
  function NatToString(n: nat): (r: string)
    ensures r != []
    ensures forall i :: 0 <= i < |r| ==> IsRadixDigit(r[i], 10)
    ensures |r| > 1 ==> r[0] != '0'
    ensures n > 0 ==> r[0] != '0'
    ensures DigitsValue(r, 10) == n
  {
    if n < 10 then [DigitChar(n)]
    else
      var r := NatToString(n / 10) + [DigitChar(n % 10)];
      assert r[..|r| - 1] == NatToString(n / 10);
      r
  }

  /** The decimal text of an integer, as `${n}` writes an integer-valued Number. */
  function IntToString(n: int): (r: string)
  {
    if n < 0 then "-" + NatToString(-n) else NatToString(n)
  }

  /** Adding characters after a digit run that cannot extend it does not change its length. */
  lemma {:induction false} DigitPrefixOfDigits(d: string, rest: string, radix: nat)
    requires forall i :: 0 <= i < |d| ==> IsRadixDigit(d[i], radix)
    requires rest == [] || !IsRadixDigit(rest[0], radix)
    ensures DigitPrefixLength(d + rest, radix) == |d|
  {
    if d == [] {
      assert d + rest == rest;
    } else {
      assert (d + rest)[1..] == d[1..] + rest;
      DigitPrefixOfDigits(d[1..], rest, radix);
    }
  }

  /** A decimal digit is neither a sign nor white space. */
  lemma DecimalDigitStartsNumber(c: char)
    requires IsRadixDigit(c, 10)
    ensures c != '+' && c != '-' && !IsStrWhiteSpace(c)
  {
    assert '0' <= c <= '9';
  }

  /** The optional sign `parseInt` accepts in front of the digits. */
  predicate IsSign(sign: string) { sign == "" || sign == "+" || sign == "-" }

  function SignValue(sign: string): int { if sign == "-" then -1 else 1 }

  /**
   * A decimal run, with white space and an optional sign before it and text
   * that cannot extend it after, is read as that run's value with the sign
   * applied. Leading zeros do not matter; only "0" directly followed by "x" or
   * "X" would start a hexadecimal number instead.
   */
  lemma ParseIntDecimal(ws: string, sign: string, digits: string, rest: string)
    requires forall i :: 0 <= i < |ws| ==> IsStrWhiteSpace(ws[i])
    requires IsSign(sign)
    requires digits != [] && forall i :: 0 <= i < |digits| ==> IsRadixDigit(digits[i], 10)
    requires rest == [] || !IsRadixDigit(rest[0], 10)
    requires digits == "0" ==> rest == [] || (rest[0] != 'x' && rest[0] != 'X')
    ensures ParseInt(ws + (sign + (digits + rest))) == Some(SignValue(sign) * DigitsValue(digits, 10))
  {
    ParseMagnitudeDecimal(digits, rest);
    DecimalDigitStartsNumber(digits[0]);
    ParseSignedOf(sign, digits + rest);
    ParseSignedSkipsWhiteSpace(ws, sign, digits + rest);
  }

  /**
   * After white space and an optional sign, "0x" or "0X" switches to base 16:
   * the hexadecimal run that follows gives the value, and no hexadecimal digit
   * at all gives NaN.
   */
  lemma ParseIntHex(ws: string, sign: string, x: char, digits: string, rest: string)
    requires forall i :: 0 <= i < |ws| ==> IsStrWhiteSpace(ws[i])
    requires IsSign(sign)
    requires x == 'x' || x == 'X'
    requires forall i :: 0 <= i < |digits| ==> IsRadixDigit(digits[i], 16)
    requires rest == [] || !IsRadixDigit(rest[0], 16)
    ensures ParseInt(ws + (sign + (['0', x] + (digits + rest)))) ==
      if digits == [] then None else Some(SignValue(sign) * DigitsValue(digits, 16))
  {
    var u := ['0', x] + (digits + rest);
    ParseMagnitudeHex(x, digits, rest);
    ParseSignedOf(sign, u);
    ParseSignedSkipsWhiteSpace(ws, sign, u);
    if digits == [] {
      assert ParseSigned(sign + u) == None;
    } else {
      assert ParseSigned(sign + u) == Some(SignValue(sign) * DigitsValue(digits, 16));
    }
  }

  lemma ParseSignedSkipsWhiteSpace(ws: string, sign: string, u: string)
    requires forall i :: 0 <= i < |ws| ==> IsStrWhiteSpace(ws[i])
    requires IsSign(sign)
    requires u != [] && !IsStrWhiteSpace(u[0])
    ensures ParseInt(ws + (sign + u)) == ParseSigned(sign + u)
  {
    var t := sign + u;
    assert t[0] == (if sign == "" then u[0] else sign[0]);
    TrimStartSkips(ws, t);
  }

  lemma ParseSignedOf(sign: string, u: string)
    requires IsSign(sign)
    requires u != [] && u[0] != '+' && u[0] != '-'
    ensures ParseSigned(sign + u) ==
      if ParseMagnitude(u).None? then None else Some(SignValue(sign) * ParseMagnitude(u).value)
  {
    var t := sign + u;
    if sign == "" {
      assert t == u;
    } else {
      assert t[0] == sign[0] && t[1..] == u;
    }
  }

  lemma ParseMagnitudeDecimal(digits: string, rest: string)
    requires digits != [] && forall i :: 0 <= i < |digits| ==> IsRadixDigit(digits[i], 10)
    requires rest == [] || !IsRadixDigit(rest[0], 10)
    requires digits == "0" ==> rest == [] || (rest[0] != 'x' && rest[0] != 'X')
    ensures (digits + rest)[0] == digits[0]
    ensures ParseMagnitude(digits + rest) == Some(DigitsValue(digits, 10))
  {
    var u := digits + rest;
    assert u[0] == digits[0];
    assert |digits| > 1 ==> u[1] == digits[1];
    assert |digits| == 1 && |u| >= 2 ==> u[1] == rest[0];
    assert !(|u| >= 2 && u[0] == '0' && (u[1] == 'x' || u[1] == 'X'));
    DigitPrefixOfDigits(digits, rest, 10);
    assert u[..|digits|] == digits;
  }

  lemma ParseMagnitudeHex(x: char, digits: string, rest: string)
    requires x == 'x' || x == 'X'
    requires forall i :: 0 <= i < |digits| ==> IsRadixDigit(digits[i], 16)
    requires rest == [] || !IsRadixDigit(rest[0], 16)
    ensures (['0', x] + (digits + rest))[0] == '0'
    ensures ParseMagnitude(['0', x] + (digits + rest)) ==
      if digits == [] then None else Some(DigitsValue(digits, 16))
  {
    var v := digits + rest;
    var u := ['0', x] + v;
    assert u[0] == '0' && u[1] == x && u[2..] == v;
    DigitPrefixOfDigits(digits, rest, 16);
    assert v[..|digits|] == digits;
  }

  /**
   * `parseInt` reads back the decimal text of an integer, whatever white
   * space comes before it and whatever non-digit text comes after it (after
   * "0", an "x" would start a hexadecimal number instead).
   */
  lemma ParseIntOfIntToString(ws: string, n: int, rest: string)
    requires forall i :: 0 <= i < |ws| ==> IsStrWhiteSpace(ws[i])
    requires rest == [] || !IsRadixDigit(rest[0], 10)
    requires n == 0 ==> rest == [] || (rest[0] != 'x' && rest[0] != 'X')
    ensures ParseInt(ws + IntToString(n) + rest) == Some(n)
  {
    var sign := if n < 0 then "-" else "";
    var d := NatToString(if n < 0 then -n else n);
    IntToStringParts(ws, n, rest);
    ParseIntDecimal(ws, sign, d, rest);
  }

  /** The text of an integer is its sign followed by the digits of its magnitude. */
  lemma IntToStringParts(ws: string, n: int, rest: string)
    ensures var sign := if n < 0 then "-" else "";
      var d := NatToString(if n < 0 then -n else n);
      && ws + IntToString(n) + rest == ws + (sign + (d + rest))
      && (d == "0" ==> n == 0)
      && SignValue(sign) * DigitsValue(d, 10) == n
  {
    if n < 0 {
      var d := NatToString(-n);
      assert d[0] != '0';
      assert ws + ("-" + d) + rest == ws + ("-" + (d + rest));
      assert SignValue("-") == -1;
    } else {
      var d := NatToString(n);
      if n != 0 { assert d[0] != '0'; }
      assert ws + d + rest == ws + ("" + (d + rest));
      assert SignValue("") == 1;
    }
  }

  /** Leading zeros are read as decimal digits. */
  lemma ParseIntExampleLeadingZeros()
    ensures ParseInt("007") == Some(7)
  {
    ExampleDigitValues();
    ParseIntDecimal("", "", "007", "");
    ExampleTexts();
  }

  /** A plus sign after white space is accepted. */
  lemma ParseIntExamplePlusSign()
    ensures ParseInt(" +3") == Some(3)
  {
    ExampleDigitValues();
    assert IsStrWhiteSpace(" "[0]);
    ParseIntDecimal(" ", "+", "3", "");
    ExampleTexts();
  }

  /** "0x" introduces hexadecimal digits, in either letter case. */
  lemma ParseIntExampleHex()
    ensures ParseInt("0x1F") == Some(31)
  {
    ExampleDigitValues();
    ParseIntHex("", "", 'x', "1F", "");
    ExampleTexts();
  }

  /** A sign may precede the "0X" prefix. */
  lemma ParseIntExampleNegativeHex()
    ensures ParseInt("-0X1f") == Some(-31)
  {
    ExampleDigitValues();
    ParseIntHex("", "-", 'X', "1f", "");
    ExampleTexts();
  }

  /** The values of the digit runs in the examples above. */
  lemma ExampleDigitValues()
    ensures DigitsValue("007", 10) == 7 && DigitsValue("3", 10) == 3
    ensures DigitsValue("1F", 16) == 31 && DigitsValue("1f", 16) == 31
  {
    assert "007"[..2] == "00" && "00"[..1] == "0" && "0"[..0] == "";
    assert "3"[..0] == "";
    assert "1F"[..1] == "1" && "1"[..0] == "";
    assert "1f"[..1] == "1";
  }

  /** The example texts, cut where `ParseIntDecimal` and `ParseIntHex` cut them. */
  lemma ExampleTexts()
    ensures "" + ("" + ("007" + "")) == "007"
    ensures " " + ("+" + ("3" + "")) == " +3"
    ensures "" + ("" + (['0', 'x'] + ("1F" + ""))) == "0x1F"
    ensures "" + ("-" + (['0', 'X'] + ("1f" + ""))) == "-0X1f"
  {
  }

  /** Leading white space is skipped. */
  lemma {:induction false} TrimStartAbsorbs(ws: string, s: string)
    requires forall i :: 0 <= i < |ws| ==> IsStrWhiteSpace(ws[i])
    ensures TrimStart(ws + s) == TrimStart(s)
  {
    if ws == [] {
      assert ws + s == s;
    } else {
      assert (ws + s)[0] == ws[0];
      assert (ws + s)[1..] == ws[1..] + s;
      TrimStartAbsorbs(ws[1..], s);
    }
  }

  lemma TrimStartSkips(ws: string, t: string)
    requires forall i :: 0 <= i < |ws| ==> IsStrWhiteSpace(ws[i])
    requires t == [] || !IsStrWhiteSpace(t[0])
    ensures TrimStart(ws + t) == t
  {
    TrimStartAbsorbs(ws, t);
  }

  /** White space in front of the text never changes what `parseInt` returns. */
  lemma ParseIntSkipsWhiteSpace(ws: string, s: string)
    requires forall i :: 0 <= i < |ws| ==> IsStrWhiteSpace(ws[i])
    ensures ParseInt(ws + s) == ParseInt(s)
  {
    TrimStartAbsorbs(ws, s);
  }

  /**
   * No digits where `parseInt` looks for them gives NaN: after white space and
   * an optional sign comes text that does not start with a decimal digit (and,
   * without a sign, does not start with white space or a sign either). This
   * covers "", "x", "-", "+x", "- 3" and "+-3".
   */
  lemma ParseIntNaN(ws: string, sign: string, rest: string)
    requires forall i :: 0 <= i < |ws| ==> IsStrWhiteSpace(ws[i])
    requires IsSign(sign)
    requires rest == [] || !IsRadixDigit(rest[0], 10)
    requires sign == "" ==> rest == [] || (!IsStrWhiteSpace(rest[0]) && rest[0] != '+' && rest[0] != '-')
    ensures ParseInt(ws + (sign + rest)) == None
  {
    var t := sign + rest;
    ParseSignedNaN(sign, rest);
    assert t == [] || !IsStrWhiteSpace(t[0]) by {
      if sign != "" { assert t[0] == sign[0]; } else { assert t == rest; }
    }
    TrimStartSkips(ws, t);
  }

  /** The sign step passes no digits on to the radix step. */
  lemma ParseSignedNaN(sign: string, rest: string)
    requires IsSign(sign)
    requires rest == [] || !IsRadixDigit(rest[0], 10)
    requires sign == "" ==> rest == [] || (rest[0] != '+' && rest[0] != '-')
    ensures ParseSigned(sign + rest) == None
  {
    var t := sign + rest;
    ParseMagnitudeNaN(rest);
    if sign == "" {
      assert t == rest;
    } else {
      assert t[0] == sign[0] && t[1..] == rest;
    }
  }

  /**
   * "0x" or "0X" with no hexadecimal digit after it, after white space and an
   * optional sign, is NaN: the `digits == []` case of `ParseIntHex`, stated
   * without the empty digit run in the text.
   */
  lemma ParseIntEmptyHex(ws: string, sign: string, x: char, rest: string)
    requires forall i :: 0 <= i < |ws| ==> IsStrWhiteSpace(ws[i])
    requires IsSign(sign)
    requires x == 'x' || x == 'X'
    requires rest == [] || !IsRadixDigit(rest[0], 16)
    ensures ParseInt(ws + (sign + (['0', x] + rest))) == None
  {
    var u := ['0', x] + rest;
    assert u[0] == '0' && u[1] == x && u[2..] == rest;
    assert ParseMagnitude(u) == None;
    ParseSignedOf(sign, u);
    ParseSignedSkipsWhiteSpace(ws, sign, u);
  }

  /** With no decimal digit first, the radix step finds no digits. */
  lemma ParseMagnitudeNaN(u: string)
    requires u == [] || !IsRadixDigit(u[0], 10)
    ensures ParseMagnitude(u) == None
  {
    if u != [] {
      assert u[0] != '0';
    }
  }
}
