/** JavaScript's `parseInt` called without a radix, and the text an integral
    Number prints as inside a template literal. */
module JsNumber {
  import opened JsText

  /** What `parseInt` returns: an integral value or NaN. */
  datatype Number = Finite(value: int) | NaN

  /** The value of a digit character in bases up to 36; 36 for anything else. */
  function DigitValue(c: char): (d: nat)
    ensures d <= 36
  {
    if '0' <= c <= '9' then c as int - '0' as int
    else if 'a' <= c <= 'z' then c as int - 'a' as int + 10
    else if 'A' <= c <= 'Z' then c as int - 'A' as int + 10
    else 36
  }

  predicate IsDigitOf(c: char, radix: nat) {
    DigitValue(c) < radix
  }

  predicate AllDigitsOf(s: string, radix: nat) {
    forall i :: 0 <= i < |s| ==> IsDigitOf(s[i], radix)
  }

  /** The longest prefix of `s` made of digits of `radix`: where `parseInt`
      stops reading. */
  function DigitPrefix(s: string, radix: nat): (r: string)
    ensures |r| <= |s| && r == s[..|r|]
    ensures AllDigitsOf(r, radix)
    ensures |r| < |s| ==> !IsDigitOf(s[|r|], radix)
    decreases |s|
  {
    if s != [] && IsDigitOf(s[0], radix) then [s[0]] + DigitPrefix(s[1..], radix) else []
  }

  /** The value of a digit string, most significant digit first. */
  function DigitsValue(ds: string, radix: nat): nat
    requires AllDigitsOf(ds, radix)
    decreases |ds|
  {
    if ds == [] then 0
    else DigitsValue(ds[..|ds| - 1], radix) * radix + DigitValue(ds[|ds| - 1])
  }

  /** `parseInt(s)`: skip leading whitespace, read an optional sign, switch to
      base 16 after a `0x`/`0X` prefix, then read the longest run of digits;
      no digits at all gives NaN. */
  function ParseInt(s: string): Number {
    ParseSigned(TrimStart(s))
  }

  function ParseSigned(t: string): Number {
    if t != [] && t[0] == '-' then Negate(ParseMagnitude(t[1..]))
    else if t != [] && t[0] == '+' then ParseMagnitude(t[1..])
    else ParseMagnitude(t)
  }

  function ParseMagnitude(u: string): Number {
    if |u| >= 2 && u[0] == '0' && (u[1] == 'x' || u[1] == 'X') then ParseDigits(u[2..], 16)
    else ParseDigits(u, 10)
  }

  function ParseDigits(u: string, radix: nat): Number {
    var digits := DigitPrefix(u, radix);
    if digits == [] then NaN else Finite(DigitsValue(digits, radix))
  }

  function Negate(n: Number): Number {
    match n
    case NaN => NaN
    case Finite(v) => Finite(-v)
  }

  function DecimalDigit(d: nat): (c: char)
    requires d < 10
    ensures IsDigitOf(c, 10) && DigitValue(c) == d
  {
    ('0' as int + d) as char
  }

  /** The decimal numeral of `n`, without leading zeros. */
  function NatToString(n: nat): (s: string)
    ensures s != [] && AllDigitsOf(s, 10)
    ensures s[0] == '0' ==> n == 0
    decreases n
  {
    if n < 10 then [DecimalDigit(n)] else NatToString(n / 10) + [DecimalDigit(n % 10)]
  }

  /** `${n}` for a Number that holds an integer or NaN. */
  function NumberToString(n: Number): string {
    match n
    case NaN => "NaN"
    case Finite(v) => if v < 0 then "-" + NatToString(-v) else NatToString(v)
  }

  /** Reading back a printed numeral gives the number it was printed from. */
  lemma {:induction false} DecimalValue(n: nat)
    ensures DigitsValue(NatToString(n), 10) == n
    decreases n
  {
    if n >= 10 {
      var s := NatToString(n);
      DecimalValue(n / 10);
      assert s[..|s| - 1] == NatToString(n / 10);
    }
  }

  /** `parseInt` reads back the text a Number prints as, ignoring whatever
      follows it, as long as that does not continue the numeral: another
      digit, or an `x` right after a lone `0` (which would switch to base 16). */
  lemma ParseIntOfPrinted(v: int, rest: string)
    requires rest != [] ==> !IsDigitOf(rest[0], 10)
    requires rest != [] && v == 0 ==> rest[0] != 'x' && rest[0] != 'X'
    ensures ParseInt(NumberToString(Finite(v)) + rest) == Finite(v)
  {
    if v < 0 {
      NegativePrinted(v, rest);
    } else {
      NonNegativePrinted(v, rest);
    }
  }

  lemma NegativePrinted(v: int, rest: string)
    requires v < 0 && (rest != [] ==> !IsDigitOf(rest[0], 10))
    ensures ParseInt(NumberToString(Finite(v)) + rest) == Finite(v)
  {
    var u := NatToString(-v) + rest;
    NegativeNumeral(v, rest);
    MagnitudeOfNumeral(-v, rest);
    MinusNegates(NumberToString(Finite(v)) + rest, u, -v);
  }

  lemma NegativeNumeral(v: int, rest: string)
    requires v < 0
    ensures NumberToString(Finite(v)) + rest == "-" + (NatToString(-v) + rest)
  {
  }

  lemma MinusNegates(s: string, u: string, m: int)
    requires s == "-" + u && ParseMagnitude(u) == Finite(m)
    ensures ParseInt(s) == Finite(-m)
  {
    HeadNotWhitespace(s);
    assert s[1..] == u;
  }

  lemma NonNegativePrinted(v: int, rest: string)
    requires v >= 0 && (rest != [] ==> !IsDigitOf(rest[0], 10))
    requires rest != [] && v == 0 ==> rest[0] != 'x' && rest[0] != 'X'
    ensures ParseInt(NumberToString(Finite(v)) + rest) == Finite(v)
  {
    var u := NatToString(v) + rest;
    MagnitudeOfNumeral(v, rest);
    assert NumberToString(Finite(v)) + rest == u;
    assert IsDigitOf(u[0], 10);
    assert u[0] != '-' && u[0] != '+';
    assert ParseSigned(u) == ParseMagnitude(u);
    HeadNotWhitespace(u);
  }

  /** The unsigned part of `parseInt` reads a numeral back. */
  lemma MagnitudeOfNumeral(m: nat, rest: string)
    requires rest != [] ==> !IsDigitOf(rest[0], 10)
    requires rest != [] && m == 0 ==> rest[0] != 'x' && rest[0] != 'X'
    ensures var u := NatToString(m) + rest;
            u[0] == NatToString(m)[0] && ParseMagnitude(u) == Finite(m)
  {
    var numeral := NatToString(m);
    var u := numeral + rest;
    DigitsOfNumeral(numeral, rest);
    DecimalValue(m);
    assert !(|u| >= 2 && u[0] == '0' && (u[1] == 'x' || u[1] == 'X')) by {
      if |u| >= 2 && u[0] == '0' {
        assert m == 0 && |numeral| == 1;
        assert u[1] == rest[0];
      }
    }
  }

  lemma HeadNotWhitespace(s: string)
    requires s != [] && (s[0] == '-' || IsDigitOf(s[0], 10))
    ensures ParseInt(s) == ParseSigned(s)
  {
    assert !IsJsWhitespace(s[0]);
    assert TrimStart(s) == s;
  }

  /** The digit run at the head of `numeral + rest` is `numeral` itself. */
  lemma DigitsOfNumeral(numeral: string, rest: string)
    requires AllDigitsOf(numeral, 10)
    requires rest != [] ==> !IsDigitOf(rest[0], 10)
    ensures DigitPrefix(numeral + rest, 10) == numeral
  {
    var r := DigitPrefix(numeral + rest, 10);
    assert r == (numeral + rest)[..|numeral|] == numeral;
  }
}
