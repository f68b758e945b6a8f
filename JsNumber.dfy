/** `Number.parseInt(text, 10)` and the truthiness of its result, written
    out over `seq<char>`. */
module JsNumber {
  import opened JsString

  datatype ParsedInt = NaN | Num(value: int)

  /** The longest run of decimal digits at the start of `s`. */
  function DigitPrefix(s: string): (p: string)
    ensures |p| <= |s| && p == s[..|p|] && AllDigits(p)
    ensures |p| < |s| ==> !IsDigit(s[|p|])
    decreases |s|
  {
    if s != [] && IsDigit(s[0]) then [s[0]] + DigitPrefix(s[1..]) else []
  }

  /** The sign and the digits of a text that starts after the white space. */
  function ParseSigned(t: string): ParsedInt {
    var neg := t != [] && t[0] == '-';
    var body := if t != [] && (t[0] == '-' || t[0] == '+') then t[1..] else t;
    var d := DigitPrefix(body);
    var v: int := if d == [] then 0 else DigitsValue(d);
    if d == [] then NaN else Num(if neg then -v else v)
  }

  /** `Number.parseInt(s, 10)`: leading white space skipped, an optional sign,
      then the longest digit run; no digit at all gives NaN. A parsed `-0`
      is the falsy zero, so it is `Num(0)` here. */
  function ParseInt(s: string): ParsedInt {
    ParseSigned(TrimStart(s))
  }

  /** A text that does not start with white space is parsed as it stands. */
  lemma ParseIntNoLeadingSpace(s: string)
    requires s == [] || !IsSpace(s[0])
    ensures ParseInt(s) == ParseSigned(s)
  {
  }

  /** The digit run of digits followed by a non-digit is those digits. */
  lemma {:induction false} DigitPrefixStops(d: string, rest: string)
    requires AllDigits(d)
    requires rest == [] || !IsDigit(rest[0])
    ensures DigitPrefix(d + rest) == d
    decreases |d|
  {
    if d != [] {
      DigitPrefixStops(d[1..], rest);
      assert (d + rest)[1..] == d[1..] + rest;
    } else {
      assert d + rest == rest;
    }
  }

  /** Digits read as their value whatever non-digit text follows. */
  lemma DigitsParse(d: string, rest: string)
    requires d != [] && AllDigits(d)
    requires rest == [] || !IsDigit(rest[0])
    ensures ParseSigned(d + rest) == Num(DigitsValue(d))
  {
    DigitPrefixStops(d, rest);
    assert (d + rest)[0] == d[0];
  }

  /** So do digits after a minus sign, negated. */
  lemma NegativeDigitsParse(d: string, rest: string)
    requires d != [] && AllDigits(d)
    requires rest == [] || !IsDigit(rest[0])
    ensures ParseSigned("-" + d + rest) == Num(-(DigitsValue(d) as int))
  {
    DigitPrefixStops(d, rest);
    assert ("-" + d + rest)[1..] == d + rest;
  }

  lemma NotSpace(c: char)
    requires IsDigit(c) || c == '-' || c == '+'
    ensures !IsSpace(c)
  {
  }

  /** Reading back the decimal form of any integer gives that integer, also
      when other text follows that does not start with a digit. */
  lemma ParseIntPrefix(i: int, rest: string)
    requires rest == [] || !IsDigit(rest[0])
    ensures ParseInt(IntToString(i) + rest) == Num(i)
  {
    var n := if i < 0 then -i else i;
    var d := NatToString(n);
    NatToStringValue(n);
    if i < 0 {
      NegativeDigitsParse(d, rest);
    } else {
      DigitsParse(d, rest);
    }
    var s := IntToString(i) + rest;
    NotSpace(s[0]);
    ParseIntNoLeadingSpace(s);
  }

  lemma ParseIntRoundTrip(i: int)
    ensures ParseInt(IntToString(i)) == Num(i)
  {
    ParseIntPrefix(i, []);
    assert IntToString(i) + [] == IntToString(i);
  }

  /** Text whose first character is neither white space, a sign nor a digit
      is NaN; `"abc"` is one such text. */
  lemma ParseIntLetters(s: string)
    requires s != [] && !IsSpace(s[0]) && !IsDigit(s[0]) && s[0] != '-' && s[0] != '+'
    ensures ParseInt(s) == NaN
    ensures ParseInt("abc") == NaN
  {
    ParseIntNoLeadingSpace(s);
    assert DigitPrefix(s) == [];
    ParseIntNoLeadingSpace("abc");
    assert DigitPrefix("abc") == [];
  }

  /** A sign with no digit after it is NaN, as is the bare sign. */
  lemma SignWithoutDigits(s: string)
    requires |s| >= 1 && (s[0] == '-' || s[0] == '+')
    requires |s| == 1 || !IsDigit(s[1])
    ensures ParseInt(s) == NaN
  {
    NotSpace(s[0]);
    ParseIntNoLeadingSpace(s);
    var body := s[1..];
    assert body == [] || !IsDigit(body[0]);
    assert DigitPrefix(body) == [];
  }

  /** Digits followed by anything else read as the digits. */
  lemma ParseIntDigitsThenText()
    ensures ParseInt("7a") == Num(7)
  {
    ParseIntNoLeadingSpace("7a");
    assert DigitPrefix("7a"[1..]) == [];
    assert DigitPrefix("7a") == "7";
    assert "7"[..0] == [];
    assert DigitsValue("7") == 7;
  }

  /** Minus zero is the falsy zero. */
  lemma ParseIntMinusZero()
    ensures ParseInt("-0") == Num(0)
  {
    ParseIntNoLeadingSpace("-0");
    assert DigitPrefix("-0"[1..]) == "0";
  }

  /** Truthiness of a number: NaN and zero are falsy. */
  predicate Truthy(p: ParsedInt) {
    p.Num? && p.value != 0
  }
}
