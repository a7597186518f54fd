/**
  Decimal numerals: `%d` of printf, and `strtol` in base 10 as section 7.20.1.4 of
  ISO/IEC 9899:1999 describes it, on a machine where `long` has 64 bits.
 */
module Numerals {
  const LONG_MAX: int := 0x7FFF_FFFF_FFFF_FFFF
  const LONG_MIN: int := -0x8000_0000_0000_0000

  predicate IsDigit(c: char) {
    '0' <= c <= '9'
  }

  predicate IsSpace(c: char) {
    c == ' ' || '\t' <= c <= '\r'
  }

  predicate AllDigits(s: string) {
    forall i :: 0 <= i < |s| ==> IsDigit(s[i])
  }

  predicate AllSpaces(s: string) {
    forall i :: 0 <= i < |s| ==> IsSpace(s[i])
  }

  function DigitOf(n: nat): (c: char)
    requires n < 10
    ensures IsDigit(c)
  {
    '0' + n as char
  }

  function ValueOf(s: string): nat
    requires AllDigits(s)
  {
    if s == [] then 0
    else ValueOf(s[..|s| - 1]) * 10 + (s[|s| - 1] - '0') as int
  }

  /** The digits of a natural number, without leading zeros. */
  function Digits(n: nat): (s: string)
    ensures s != [] && AllDigits(s)
    ensures ValueOf(s) == n
  {
    if n < 10 then
      assert [DigitOf(n)][..0] == [];
      [DigitOf(n)]
    else
      var s := Digits(n / 10) + [DigitOf(n % 10)];
      assert s[..|s| - 1] == Digits(n / 10);
      s
  }

  /** The text that `%d` prints. */
  function Decimal(n: int): string {
    if n < 0 then "-" + Digits(-n) else Digits(n)
  }

  /** The length of the longest prefix of spaces. */
  function Spaces(s: string): (n: nat)
    ensures n <= |s|
    ensures forall i :: 0 <= i < n ==> IsSpace(s[i])
    ensures n < |s| ==> !IsSpace(s[n])
  {
    if s == [] || !IsSpace(s[0]) then 0 else 1 + Spaces(s[1..])
  }

  /** The length of the longest prefix of digits. */
  function DigitRun(s: string): (n: nat)
    ensures n <= |s|
    ensures forall i :: 0 <= i < n ==> IsDigit(s[i])
    ensures n < |s| ==> !IsDigit(s[n])
  {
    if s == [] || !IsDigit(s[0]) then 0 else 1 + DigitRun(s[1..])
  }

  lemma SpacesUnique(s: string, n: nat)
    requires n <= |s| && (forall i :: 0 <= i < n ==> IsSpace(s[i])) && (n < |s| ==> !IsSpace(s[n]))
    ensures Spaces(s) == n
  {
  }

  function Clamp(n: int): (v: int)
    ensures LONG_MIN <= v <= LONG_MAX
  {
    if n < LONG_MIN then LONG_MIN else if n > LONG_MAX then LONG_MAX else n
  }

  /** The result of a conversion: its value, where it ended, and whether the value overflowed. */
  datatype Conversion = Conversion(value: int, end: nat, overflow: bool)

  function Signed(negative: bool, n: int): int {
    if negative then -n else n
  }

  /** Spaces, an optional sign, digits. Without digits nothing is consumed and the value is 0. */
  function Strtol(s: string): (c: Conversion)
    ensures c.end <= |s|
    ensures LONG_MIN <= c.value <= LONG_MAX
  {
    var w := Spaces(s);
    var sign := if w < |s| && (s[w] == '-' || s[w] == '+') then 1 else 0;
    var d := DigitRun(s[w + sign..]);
    if d == 0 then Conversion(0, 0, false)
    else
      var n := Signed(sign == 1 && s[w] == '-', ValueOf(s[w + sign..][..d]));
      Conversion(Clamp(n), w + sign + d, n != Clamp(n))
  }

  /** `s` consists of spaces, an optional sign and at least one digit, and stands for `v`. */
  predicate Writes(s: string, v: int, spaces: string, sign: string, digits: string) {
    && s == spaces + sign + digits
    && AllSpaces(spaces)
    && sign in {"", "+", "-"}
    && digits != [] && AllDigits(digits)
    && v == Signed(sign == "-", ValueOf(digits))
  }

  ghost predicate IntegerText(s: string, v: int) {
    exists spaces, sign, digits :: Writes(s, v, spaces, sign, digits)
  }

  /** What is written is read back, to the end of the text. */
  lemma ReadWritten(s: string, v: int, spaces: string, sign: string, digits: string)
    requires Writes(s, v, spaces, sign, digits)
    ensures Strtol(s) == Conversion(Clamp(v), |s|, v != Clamp(v))
  {
    var w := |spaces|;
    assert s[w] == (sign + digits)[0];
    assert forall i :: 0 <= i < w ==> s[i] == spaces[i];
    SpacesUnique(s, w);
    assert s[w + |sign|..] == digits;
    hide Spaces, ValueOf;
    assert DigitRun(digits) == |digits|;
    assert digits[..|digits|] == digits;
  }

  lemma WholeIsWritten(s: string, v: int)
    requires 0 < v < LONG_MAX && Strtol(s).end == |s| && Strtol(s).value == v
    ensures IntegerText(s, v)
  {
    hide Spaces, DigitRun, ValueOf;
    var w := Spaces(s);
    var n := if w < |s| && (s[w] == '-' || s[w] == '+') then 1 else 0;
    var sign := s[w..w + n];
    var digits := s[w + n..];
    assert digits[..DigitRun(digits)] == digits;
    assert sign == if n == 0 then "" else [s[w]];
    assert s == s[..w] + sign + digits;
    assert Writes(s, v, s[..w], sign, digits);
  }

  /** A positive number is read to the end of a text exactly when the text writes it. */
  lemma ReadExactly(s: string, v: int)
    requires 0 < v < LONG_MAX
    ensures Strtol(s).end == |s| && Strtol(s).value == v <==> IntegerText(s, v)
  {
    if Strtol(s).end == |s| && Strtol(s).value == v {
      WholeIsWritten(s, v);
    }
    if IntegerText(s, v) {
      hide Strtol;
      var spaces, sign, digits :| Writes(s, v, spaces, sign, digits);
      ReadWritten(s, v, spaces, sign, digits);
    }
  }

  /** `strtol` undoes `%d`. */
  lemma ReadDecimal(n: int)
    requires LONG_MIN <= n <= LONG_MAX
    ensures Strtol(Decimal(n)) == Conversion(n, |Decimal(n)|, false)
  {
    if n < 0 {
      assert Writes(Decimal(n), n, "", "-", Digits(-n));
      ReadWritten(Decimal(n), n, "", "-", Digits(-n));
    } else {
      assert Writes(Decimal(n), n, "", "", Digits(n));
      ReadWritten(Decimal(n), n, "", "", Digits(n));
    }
  }

  /** A number with at most six digits has a numeral with at most six characters. */
  lemma {:induction false} DigitsLength(n: nat)
    ensures n < 10 ==> |Digits(n)| <= 1
    ensures n < 100 ==> |Digits(n)| <= 2
    ensures n < 1_000 ==> |Digits(n)| <= 3
    ensures n < 10_000 ==> |Digits(n)| <= 4
    ensures n < 100_000 ==> |Digits(n)| <= 5
    ensures n < 1_000_000 ==> |Digits(n)| <= 6
  {
    if n >= 10 {
      DigitsLength(n / 10);
    }
  }
}
