/**
 * The router's numeric path segments: PHP's `is_numeric` test and the `(int)`
 * cast, restricted to integer numerals (an optional sign followed by ASCII
 * decimal digits), and the decimal rendering of an `int` that string
 * interpolation ("{$albumId}") produces.
 */
module PhpNumbers {

  /** PHP's integer range on a 64-bit platform. */
  const PhpIntMax: int := 0x7fff_ffff_ffff_ffff
  const PhpIntMin: int := -0x8000_0000_0000_0000

  /**
   * The least magnitude at which a decimal numeral, read as an IEEE 754
   * double, rounds to infinity: the largest finite double plus half a unit
   * in its last place, (2^54 - 1) * 2^970.
   */
  const DoubleOverflow: int :=
    0xffff_ffff_ffff_fc00_0000_0000_0000_0000_0000_0000_0000_0000_0000_0000_0000_0000_0000_0000_0000_0000_0000_0000_0000_0000_0000_0000_0000_0000_0000_0000_0000_0000_0000_0000_0000_0000_0000_0000_0000_0000_0000_0000_0000_0000_0000_0000_0000_0000_0000_0000_0000_0000_0000_0000_0000_0000_0000_0000_0000_0000_0000_0000_0000_0000

  predicate InPhpIntRange(n: int) {
    PhpIntMin <= n <= PhpIntMax
  }

  predicate IsDigit(c: char) {
    '0' <= c <= '9'
  }

  predicate AllDigits(s: string) {
    forall i :: 0 <= i < |s| ==> IsDigit(s[i])
  }

  predicate IsSign(c: char) {
    c == '+' || c == '-'
  }

  /**
   * `is_numeric($s)`, for integer numerals: `[+-]?[0-9]+`, that is, a digit
   * or a sign first, at least one digit, and only digits after the first
   * character.
   */
  predicate IsNumeric(s: string)
    ensures IsNumeric(s) <==>
      |s| > 0 && (IsDigit(s[0]) || (IsSign(s[0]) && |s| > 1)) && forall i :: 0 < i < |s| ==> IsDigit(s[i])
  {
    (|s| > 0 && AllDigits(s)) || (|s| > 1 && IsSign(s[0]) && AllDigits(s[1..]))
  }

  function DigitValue(c: char): nat
    requires IsDigit(c)
  {
    c as int - '0' as int
  }

  function DigitChar(d: nat): (c: char)
    requires d < 10
    ensures IsDigit(c) && DigitValue(c) == d
  {
    ('0' as int + d) as char
  }

  /** The value of a string of decimal digits, read most significant first. */
  function DigitsValue(s: string): nat
    requires AllDigits(s)
    decreases |s|
  {
    if s == [] then 0 else DigitsValue(s[..|s| - 1]) * 10 + DigitValue(s[|s| - 1])
  }

  /** The mathematical value of an integer numeral. */
  function NumeralValue(s: string): int
    requires IsNumeric(s)
  {
    if IsSign(s[0]) then
      (if s[0] == '-' then -(DigitsValue(s[1..]) as int) else DigitsValue(s[1..]))
    else DigitsValue(s)
  }

  /**
   * `(int)$s` on a numeric string: its value when that is a PHP integer.
   * A numeral too large for one is read as a double and then capped to
   * PHP's integer range; one so large that the double is infinite casts to 0.
   */
  function ToInt(s: string): (n: int)
    requires IsNumeric(s)
    ensures InPhpIntRange(n)
    ensures InPhpIntRange(NumeralValue(s)) ==> n == NumeralValue(s)
    ensures PhpIntMax < NumeralValue(s) < DoubleOverflow ==> n == PhpIntMax
    ensures -DoubleOverflow < NumeralValue(s) < PhpIntMin ==> n == PhpIntMin
    ensures NumeralValue(s) >= DoubleOverflow || NumeralValue(s) <= -DoubleOverflow ==> n == 0
  {
    var v := NumeralValue(s);
    if v >= DoubleOverflow || v <= -DoubleOverflow then 0
    else if v > PhpIntMax then PhpIntMax
    else if v < PhpIntMin then PhpIntMin
    else v
  }

  /** The decimal digits of `n` with no leading zero. */
  function NatToString(n: nat): (r: string)
    ensures |r| > 0 && AllDigits(r)
    ensures r[0] != '0' || r == "0"
    ensures DigitsValue(r) == n
    decreases n
  {
    if n < 10 then [DigitChar(n)]
    else
      var r := NatToString(n / 10) + [DigitChar(n % 10)];
      assert r[..|r| - 1] == NatToString(n / 10);
      r
  }

  /** How PHP renders an integer inside a string: a minus sign when negative. */
  function IntToString(n: int): (r: string)
    ensures IsNumeric(r) && IsCanonical(r)
    ensures NumeralValue(r) == n
  {
    if n < 0 then
      var r := "-" + NatToString(-n);
      assert r[1..] == NatToString(-n);
      assert DigitsValue(r[1..]) != 0;
      r
    else NatToString(n)
  }

  /** A numeral PHP prints back unchanged: no plus sign, no leading zero, no "-0". */
  predicate IsCanonical(s: string) {
    (|s| > 0 && AllDigits(s) && (s[0] != '0' || s == "0"))
    || (|s| > 1 && s[0] == '-' && AllDigits(s[1..]) && s[1] != '0')
  }

  /** An integer's rendering reads back, through `(int)`, as that integer. */
  lemma ToIntOfIntToString(n: int)
    requires InPhpIntRange(n)
    ensures ToInt(IntToString(n)) == n
  {
  }

  lemma {:induction false} LeadingDigitPositive(s: string)
    requires |s| > 0 && AllDigits(s) && s[0] != '0'
    ensures DigitsValue(s) > 0
    decreases |s|
  {
    if |s| > 1 {
      assert s[..|s| - 1][0] == s[0];
      LeadingDigitPositive(s[..|s| - 1]);
    }
  }

  /** A digit string with no leading zero is the rendering of its value. */
  lemma {:induction false} NatToStringOfDigits(s: string)
    requires |s| > 0 && AllDigits(s) && (s[0] != '0' || s == "0")
    ensures NatToString(DigitsValue(s)) == s
    decreases |s|
  {
    var n := DigitsValue(s);
    if |s| == 1 {
      assert s[..|s| - 1] == [];
      assert n == DigitsValue([]) * 10 + DigitValue(s[0]);
      assert n < 10;
      assert [DigitChar(n)] == s;
    } else {
      var init := s[..|s| - 1];
      assert init[0] == s[0] != '0';
      LeadingDigitPositive(init);
      NatToStringOfDigits(init);
      assert n / 10 == DigitsValue(init) && n % 10 == DigitValue(s[|s| - 1]);
      assert DigitChar(n % 10) == s[|s| - 1];
      assert s == init + [s[|s| - 1]];
    }
  }

  /**
   * A canonical numeral in PHP's integer range survives the round trip
   * through `(int)` and back to a string.
   */
  lemma IntToStringOfCanonical(s: string)
    requires IsCanonical(s)
    ensures IsNumeric(s)
    ensures InPhpIntRange(NumeralValue(s)) ==> IntToString(ToInt(s)) == s
  {
    if s[0] == '-' {
      LeadingDigitPositive(s[1..]);
      NatToStringOfDigits(s[1..]);
      assert s == "-" + s[1..];
    } else {
      NatToStringOfDigits(s);
    }
  }
}
