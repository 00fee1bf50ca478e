/**
 * JavaScript's global `parseInt(string)` with no radix argument, as index.js uses it
 * (section 19.2.5 of ECMAScript 2023): leading white space is skipped, one optional
 * sign is read, a "0x"/"0X" prefix switches to base 16, and the longest run of digits
 * that follows is the value; no digits at all gives NaN, modelled as None.
 */
module JsParseInt {
  import opened Wrappers

  /** ECMAScript WhiteSpace and LineTerminator code points. */
  predicate IsWhitespace(c: char) {
    c == '\t' || c == '\n' || c == '\U{000B}' || c == '\U{000C}' || c == '\r' || c == ' ' ||
    c == '\U{00A0}' || c == '\U{1680}' || ('\U{2000}' <= c <= '\U{200A}') ||
    c == '\U{2028}' || c == '\U{2029}' || c == '\U{202F}' || c == '\U{205F}' ||
    c == '\U{3000}' || c == '\U{FEFF}'
  }

  /** A digit of base `radix` (10 or 16). */
  predicate IsDigit(c: char, radix: nat) {
    ('0' <= c <= '9') || (radix == 16 && (('a' <= c <= 'f') || ('A' <= c <= 'F')))
  }

  /** The numeric value of a (hexadecimal or decimal) digit. */
  function DigitValue(c: char): nat
    requires IsDigit(c, 16)
  {
    if '0' <= c <= '9' then c as int - '0' as int
    else if 'a' <= c <= 'f' then c as int - 'a' as int + 10
    else c as int - 'A' as int + 10
  }

  /** `s` without its leading white space. */
  function TrimStart(s: string): (t: string)
    ensures |t| <= |s| && t == s[|s| - |t|..]
    ensures forall i :: 0 <= i < |s| - |t| ==> IsWhitespace(s[i])
    ensures t == [] || !IsWhitespace(t[0])
  {
    if s != [] && IsWhitespace(s[0]) then TrimStart(s[1..]) else s
  }

  /** The longest prefix of `s` made of base-`radix` digits. */
  function LeadingDigits(s: string, radix: nat): (d: string)
    ensures d <= s
    ensures forall i :: 0 <= i < |d| ==> IsDigit(d[i], radix)
    ensures |d| == |s| || !IsDigit(s[|d|], radix)
  {
    if s != [] && IsDigit(s[0], radix) then [s[0]] + LeadingDigits(s[1..], radix) else []
  }

  /** The value of a digit string read in base `radix`, most significant digit first. */
  function DigitsValue(d: string, radix: nat): nat
    requires forall i :: 0 <= i < |d| ==> IsDigit(d[i], radix)
  {
    if d == [] then 0
    else
      assert IsDigit(d[|d| - 1], radix);
      DigitsValue(d[..|d| - 1], radix) * radix + DigitValue(d[|d| - 1])
  }

  /** Whether `u` starts with "0x" or "0X". */
  predicate HasHexPrefix(u: string) {
    |u| >= 2 && u[0] == '0' && (u[1] == 'x' || u[1] == 'X')
  }

  /** The value of the leading base-`radix` digits of `b`, or None when there are none. */
  function ParseDigits(b: string, radix: nat): Option<nat> {
    var digits := LeadingDigits(b, radix);
    if digits == [] then None else Some(DigitsValue(digits, radix))
  }

  /** An unsigned numeral: base 16 after a "0x"/"0X" prefix, base 10 otherwise. */
  function ParseUnsigned(u: string): Option<nat> {
    if HasHexPrefix(u) then ParseDigits(u[2..], 16) else ParseDigits(u, 10)
  }

  /** A numeral after white space has been trimmed: one optional sign, then the digits. */
  function ParseSigned(t: string): Option<int> {
    if t != [] && t[0] == '-' then
      match ParseUnsigned(t[1..])
      case None => None
      case Some(m) => Some(-(m as int))
    else if t != [] && t[0] == '+' then
      match ParseUnsigned(t[1..])
      case None => None
      case Some(m) => Some(m)
    else
      match ParseUnsigned(t)
      case None => None
      case Some(m) => Some(m)
  }

  /** `parseInt(s)`: None stands for NaN; -0 is identified with 0. */
  function ParseInt(s: string): Option<int> {
    ParseSigned(TrimStart(s))
  }

  /** The decimal digit for 0 <= k < 10. */
  function DigitChar(k: nat): (c: char)
    requires k < 10
    ensures IsDigit(c, 10) && DigitValue(c) == k
  {
    ('0' as int + k) as char
  }

  /** The decimal numeral of `n`, without leading zeros. */
  function Decimal(n: nat): (s: string)
    ensures |s| >= 1
    ensures forall i :: 0 <= i < |s| ==> IsDigit(s[i], 10)
    ensures n > 0 ==> s[0] != '0'
  {
    if n < 10 then [DigitChar(n)] else Decimal(n / 10) + [DigitChar(n % 10)]
  }

  /** Reading a numeral back gives the number. */
  lemma {:induction false} DecimalValue(n: nat)
    ensures DigitsValue(Decimal(n), 10) == n
  {
    if n >= 10 {
      var s := Decimal(n);
      assert s[..|s| - 1] == Decimal(n / 10);
      DecimalValue(n / 10);
    }
  }

  /** A digit run followed by a non-digit (or nothing) is exactly the leading digits. */
  lemma {:induction false} LeadingDigitsOfRun(d: string, rest: string, radix: nat)
    requires forall i :: 0 <= i < |d| ==> IsDigit(d[i], radix)
    requires rest == [] || !IsDigit(rest[0], radix)
    ensures LeadingDigits(d + rest, radix) == d
  {
    if d != [] {
      assert (d + rest)[0] == d[0];
      assert (d + rest)[1..] == d[1..] + rest;
      LeadingDigitsOfRun(d[1..], rest, radix);
    }
  }

  /**
   * An unsigned numeral followed by any text that does not continue it reads as
   * the number. The one exception is "0" followed by "x" or "X", which starts a
   * hexadecimal numeral instead.
   */
  lemma UnsignedWithSuffix(n: nat, rest: string)
    requires rest == [] || !IsDigit(rest[0], 10)
    requires n > 0 || rest == [] || (rest[0] != 'x' && rest[0] != 'X')
    ensures ParseUnsigned(Decimal(n) + rest) == Some(n)
  {
    var d := Decimal(n);
    var s := d + rest;
    if |s| >= 2 {
      if |d| >= 2 {
        assert s[1] == d[1];
      } else {
        assert s[1] == rest[0];
      }
    }
    assert !HasHexPrefix(s);
    LeadingDigitsOfRun(d, rest, 10);
    DecimalValue(n);
  }

  /** A numeral never starts with white space or a sign. */
  lemma DecimalStart(n: nat, rest: string)
    ensures TrimStart(Decimal(n) + rest) == Decimal(n) + rest
    ensures (Decimal(n) + rest)[0] != '-' && (Decimal(n) + rest)[0] != '+'
  {
    assert (Decimal(n) + rest)[0] == Decimal(n)[0];
  }

  /**
   * `parseInt` of a numeral followed by any text that does not continue it: the
   * number ("2abc" reads as 2), except for "0x...", which is hexadecimal.
   */
  lemma DecimalWithSuffix(n: nat, rest: string)
    requires rest == [] || !IsDigit(rest[0], 10)
    requires n > 0 || rest == [] || (rest[0] != 'x' && rest[0] != 'X')
    ensures ParseInt(Decimal(n) + rest) == Some(n)
  {
    DecimalStart(n, rest);
    UnsignedWithSuffix(n, rest);
  }

  /** `parseInt` reads back every decimal numeral. */
  lemma DecimalRoundTrip(n: nat)
    ensures ParseInt(Decimal(n)) == Some(n)
  {
    assert Decimal(n) + [] == Decimal(n);
    DecimalWithSuffix(n, []);
  }

  /** A minus sign in front of a numeral negates it. */
  lemma NegativeDecimal(n: nat)
    ensures ParseInt(['-'] + Decimal(n)) == Some(-(n as int))
  {
    var d := Decimal(n);
    var s := ['-'] + d;
    assert s[0] == '-' && s[1..] == d + [];
    assert TrimStart(s) == s;
    UnsignedWithSuffix(n, []);
  }

  /** A plus sign in front of a numeral changes nothing. */
  lemma PositiveDecimal(n: nat)
    ensures ParseInt(['+'] + Decimal(n)) == Some(n)
  {
    var d := Decimal(n);
    var s := ['+'] + d;
    assert s[0] == '+' && s[1..] == d + [];
    assert TrimStart(s) == s;
    UnsignedWithSuffix(n, []);
  }

  /** Trimming skips a white-space prefix. */
  lemma {:induction false} TrimStartSkips(ws: string, s: string)
    requires forall i :: 0 <= i < |ws| ==> IsWhitespace(ws[i])
    ensures TrimStart(ws + s) == TrimStart(s)
  {
    if ws == [] {
      assert ws + s == s;
    } else {
      assert (ws + s)[0] == ws[0];
      assert (ws + s)[1..] == ws[1..] + s;
      TrimStartSkips(ws[1..], s);
    }
  }

  /** Leading white space never changes what `parseInt` reads. */
  lemma LeadingWhitespaceIgnored(ws: string, s: string)
    requires forall i :: 0 <= i < |ws| ==> IsWhitespace(ws[i])
    ensures ParseInt(ws + s) == ParseInt(s)
  {
    TrimStartSkips(ws, s);
  }

  /** Inputs that do not start with a numeral read as NaN. */
  lemma NotANumberExamples()
    ensures ParseInt("invalid") == None
    ensures ParseInt("") == None
    ensures ParseInt("-") == None
  {
    assert !IsWhitespace('i') && !IsDigit('i', 10) && !HasHexPrefix("invalid");
    assert TrimStart("invalid") == "invalid";
    assert LeadingDigits("invalid", 10) == [];
    assert ParseUnsigned("invalid") == None;
    assert ParseSigned("invalid") == None;
    assert TrimStart("") == "";
    assert ParseUnsigned("") == None;
    assert !IsWhitespace('-');
    assert TrimStart("-") == "-";
    assert "-"[1..] == [];
    assert ParseUnsigned([]) == None;
  }

  /** Inputs from the tests and the quirks of reading a prefix. */
  lemma NumberExamples()
    ensures ParseInt("2") == Some(2)
    ensures ParseInt("10") == Some(10)
    ensures ParseInt("2abc") == Some(2)
    ensures ParseInt("4.5") == Some(4)
  {
    assert Decimal(2) == "2";
    assert Decimal(4) == "4";
    assert Decimal(10) == "10";
    assert "2" + "abc" == "2abc";
    assert "4" + ".5" == "4.5";
    DecimalRoundTrip(2);
    DecimalRoundTrip(10);
    DecimalWithSuffix(2, "abc");
    DecimalWithSuffix(4, ".5");
  }

  /** A leading blank is skipped. */
  lemma BlankPrefixExample()
    ensures ParseInt(" 3") == Some(3)
  {
    assert Decimal(3) == "3";
    assert " " + "3" == " 3";
    LeadingWhitespaceIgnored(" ", "3");
    DecimalRoundTrip(3);
  }

  /** "0x" switches to base 16. */
  lemma HexPrefixExample()
    ensures ParseInt("0x3") == Some(3)
  {
    assert TrimStart("0x3") == "0x3";
    assert HasHexPrefix("0x3") && "0x3"[2..] == "3";
    assert LeadingDigits("3", 16) == "3";
    assert DigitsValue("3", 16) == 3;
  }

  /** Letters are digits in base 16. */
  lemma HexLetterExample()
    ensures ParseUnsigned("0x1A") == Some(26)
  {
    assert HasHexPrefix("0x1A") && "0x1A"[2..] == "1A";
    assert LeadingDigits("1A", 16) == "1A";
    assert "1A"[..1] == "1";
    assert DigitsValue("1A", 16) == 26;
  }
}
