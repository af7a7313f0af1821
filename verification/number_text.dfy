/** The two conversions between a listing's price and the text of the form's
    price field: the global `parseInt` (called with no radix) applied to the
    field's text on submit, and `Number.prototype.toString` applied to the
    stored price when an edit form is seeded.  Both follow the ECMAScript
    language specification (ECMA-262), restricted to the numbers a price can
    hold: an integer, or NaN. */
module NumberText {

  /** A JavaScript number as it can occur as a price: `parseInt` and integer
      literals only ever produce an integer or NaN.  Negative zero is folded
      into zero. */
  datatype Num = Finite(n: int) | NaN

  /** The StrWhiteSpaceChar code points of ECMA-262: WhiteSpace (TAB, VT, FF,
      ZWNBSP and the space separators) and LineTerminator (LF, CR, LS, PS). */
  predicate IsStrWhiteSpace(c: char) {
    || c == '\t' || c == '\U{B}' || c == '\U{C}' || c == '\U{FEFF}'
    || c == ' ' || c == '\U{A0}' || c == '\U{1680}' || ('\U{2000}' <= c <= '\U{200A}')
    || c == '\U{202F}' || c == '\U{205F}' || c == '\U{3000}'
    || c == '\n' || c == '\r' || c == '\U{2028}' || c == '\U{2029}'
  }

  /** Drops leading white space, as `parseInt` does first. */
  function TrimStart(s: string): (t: string)
    ensures |t| <= |s| && t == s[|s| - |t|..]
    ensures forall i :: 0 <= i < |s| - |t| ==> IsStrWhiteSpace(s[i])
    ensures |t| > 0 ==> !IsStrWhiteSpace(t[0])
  {
    if |s| > 0 && IsStrWhiteSpace(s[0]) then TrimStart(s[1..]) else s
  }

  /** The radix-10 and radix-16 digits `parseInt` can be asked to read. */
  predicate IsDigit(c: char, hex: bool) {
    || ('0' <= c <= '9')
    || (hex && (('a' <= c <= 'f') || ('A' <= c <= 'F')))
  }

  function DigitValue(c: char): (v: nat)
    ensures v < 16
  {
    if '0' <= c <= '9' then c as int - '0' as int
    else if 'a' <= c <= 'f' then c as int - 'a' as int + 10
    else if 'A' <= c <= 'F' then c as int - 'A' as int + 10
    else 0
  }

  /** The longest prefix of `s` made of digits only. */
  function DigitPrefix(s: string, hex: bool): (z: string)
    ensures |z| <= |s| && z == s[..|z|]
    ensures forall i :: 0 <= i < |z| ==> IsDigit(z[i], hex)
    ensures |z| < |s| ==> !IsDigit(s[|z|], hex)
  {
    if |s| == 0 || !IsDigit(s[0], hex) then "" else [s[0]] + DigitPrefix(s[1..], hex)
  }

  /** The mathematical value of a digit string, most significant digit first. */
  function DigitsValue(z: string, hex: bool): nat {
    if |z| == 0 then 0
    else DigitsValue(z[..|z| - 1], hex) * (if hex then 16 else 10) + DigitValue(z[|z| - 1])
  }

  /** `parseInt(s)`: skip leading white space, read an optional sign, switch
      to radix 16 on a `0x`/`0X` prefix, then read the longest run of digits;
      NaN when that run is empty.  Everything after the run is ignored, so
      "1.5" and "12abc" read as 1 and 12. */
  function ParseInt(s: string): (x: Num)
    ensures var t := TrimStart(s);
      var signed := |t| > 0 && (t[0] == '-' || t[0] == '+');
      var u := if signed then t[1..] else t;
      x.Finite? <==>
        (if HasHexPrefix(u) then |u| > 2 && IsDigit(u[2], true) else |u| > 0 && IsDigit(u[0], false))
    ensures var t := TrimStart(s);
      x.Finite? && !(|t| > 0 && t[0] == '-') ==> x.n >= 0
  {
    ParseSigned(TrimStart(s))
  }

  /** `parseInt` after the white space: the sign, then the magnitude. */
  function ParseSigned(t: string): Num {
    if |t| > 0 && t[0] == '-' then Negate(ParseMagnitude(t[1..]))
    else if |t| > 0 && t[0] == '+' then ParseMagnitude(t[1..])
    else ParseMagnitude(t)
  }

  function Negate(x: Num): Num {
    match x
    case NaN => NaN
    case Finite(n) => Finite(-n)
  }

  predicate HasHexPrefix(u: string) {
    |u| >= 2 && u[0] == '0' && (u[1] == 'x' || u[1] == 'X')
  }

  /** `parseInt` after the sign: radix 16 behind a `0x` prefix, radix 10
      otherwise, and NaN when no digit follows. */
  function ParseMagnitude(u: string): Num {
    var hex := HasHexPrefix(u);
    var z := DigitPrefix(if hex then u[2..] else u, hex);
    if |z| == 0 then NaN else Finite(DigitsValue(z, hex))
  }

  function DecimalDigit(d: nat): (c: char)
    requires d < 10
    ensures IsDigit(c, false) && DigitValue(c) == d
  {
    ('0' as int + d) as char
  }

  /** The decimal numeral of `n`, without leading zeros. */
  function Decimal(n: nat): (s: string)
    ensures |s| >= 1
    ensures forall i :: 0 <= i < |s| ==> IsDigit(s[i], false)
    ensures |s| > 1 ==> s[0] != '0'
  {
    if n < 10 then [DecimalDigit(n)] else Decimal(n / 10) + [DecimalDigit(n % 10)]
  }

  /** `Number.prototype.toString()` with no radix, for the numbers a price
      can hold. */
  function NumberToString(x: Num): (s: string)
    ensures |s| > 0
  {
    match x
    case NaN => "NaN"
    case Finite(n) => if n < 0 then "-" + Decimal(-n) else Decimal(n)
  }

  lemma {:induction false} DecimalValue(n: nat)
    ensures DigitsValue(Decimal(n), false) == n
  {
    if n >= 10 {
      var s := Decimal(n);
      assert s[..|s| - 1] == Decimal(n / 10);
      DecimalValue(n / 10);
    }
  }

  lemma DigitPrefixOfDigits(s: string, hex: bool)
    requires forall i :: 0 <= i < |s| ==> IsDigit(s[i], hex)
    ensures DigitPrefix(s, hex) == s
  {
  }

  /** Text that does not start with white space is read as it stands. */
  lemma ParseIntUntrimmed(t: string)
    requires |t| > 0 && !IsStrWhiteSpace(t[0])
    ensures ParseInt(t) == ParseSigned(t)
  {
  }

  /** A numeral without leading zeros never carries a hexadecimal prefix,
      so it is read in radix 10, to its end. */
  lemma ParseDecimalNumeral(d: string)
    requires |d| >= 1 && (|d| > 1 ==> d[0] != '0')
    requires forall i :: 0 <= i < |d| ==> IsDigit(d[i], false)
    ensures ParseMagnitude(d) == Finite(DigitsValue(d, false))
  {
    DigitPrefixOfDigits(d, false);
    assert !HasHexPrefix(d);
  }

  /** Reading back the text a number prints as gives the same number, so a
      price shown in the edit form and submitted unchanged is stored
      unchanged. */
  lemma ParseIntInvertsToString(x: Num)
    ensures ParseInt(NumberToString(x)) == x
  {
    match x
    case NaN =>
      ParseNaNText();
    case Finite(n) =>
      if n < 0 {
        ParseNegativeDecimal(-n);
      } else {
        ParseDecimal(n);
      }
  }

  lemma ParseDecimal(m: nat)
    ensures ParseInt(Decimal(m)) == Finite(m)
  {
    var d := Decimal(m);
    assert !IsStrWhiteSpace(d[0]) by {
      assert IsDigit(d[0], false);
    }
    assert ParseSigned(d) == Finite(m) by {
      DecimalValue(m);
      ParseDecimalNumeral(d);
    }
    ParseIntUntrimmed(d);
  }

  lemma ParseNegativeDecimal(m: nat)
    ensures ParseInt("-" + Decimal(m)) == Finite(-(m as int))
  {
    DecimalValue(m);
    ParseDecimalNumeral(Decimal(m));
    ParseNegativeNumeral(Decimal(m));
  }

  lemma ParseNaNText()
    ensures ParseInt("NaN") == NaN
  {
    ParseIntUntrimmed("NaN");
    assert DigitPrefix("NaN", false) == "";
  }

  lemma ParseNegativeNumeral(d: string)
    ensures ParseInt("-" + d) == Negate(ParseMagnitude(d))
  {
    var t := "-" + d;
    ParseIntUntrimmed(t);
    assert t[1..] == d;
  }

  /** `parseInt` reads a leading integer and ignores the rest, so a
      decimal point ends the digits. */
  lemma ParseIntStopsAtPoint()
    ensures ParseInt("1.5") == Finite(1)
  {
    ParseIntUntrimmed("1.5");
    assert "1.5"[1..] == ".5";
    assert DigitPrefix(".5", false) == "";
    assert DigitPrefix("1.5", false) == "1";
    assert DigitsValue("1", false) == 1;
  }

  /** Text with no digit up front reads as NaN. */
  lemma ParseIntNeedsLeadingDigit()
    ensures ParseInt(".5") == NaN
  {
    ParseIntUntrimmed(".5");
    assert DigitPrefix(".5", false) == "";
  }
}
