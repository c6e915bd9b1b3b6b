/** Reading and writing numbers in the expense file: a decimal numeral parser
    standing in for Python's float() and pandas' to_numeric, the integer
    formatting to_csv uses for ids, and the truncation of astype(int). */
module Numbers {
  import opened Wrappers
  import Text

  predicate IsDigit(c: char)
  {
    '0' <= c <= '9'
  }

  predicate AllDigits(s: string)
  {
    forall i :: 0 <= i < |s| ==> IsDigit(s[i])
  }

  function DigitValue(c: char): nat
    requires IsDigit(c)
  {
    c as int - '0' as int
  }

  function DigitChar(d: nat): char
    requires d < 10
  {
    ('0' as int + d) as char
  }

  /** The value of a string of decimal digits, most significant first ("" is 0). */
  function DigitsValue(s: string): nat
    requires AllDigits(s)
  {
    if s == [] then 0 else 10 * DigitsValue(s[..|s| - 1]) + DigitValue(s[|s| - 1])
  }

  function Pow10(n: nat): (r: nat)
    ensures r > 0
  {
    if n == 0 then 1 else 10 * Pow10(n - 1)
  }

  /** A numeral of n digits is below 10^n. */
  lemma {:induction false} DigitsValueBound(s: string)
    requires AllDigits(s)
    ensures DigitsValue(s) < Pow10(|s|)
  {
    if s != [] {
      DigitsValueBound(s[..|s| - 1]);
    }
  }

  lemma ShiftTen(x: int, p: int)
    ensures 10 * (x * p) == x * (10 * p)
  {
  }

  /** The value of x followed by y: x shifted by |y| places, plus y. */
  lemma {:induction false} DigitsValueAppend(x: string, y: string)
    requires AllDigits(x) && AllDigits(y)
    ensures AllDigits(x + y)
    ensures DigitsValue(x + y) == DigitsValue(x) * Pow10(|y|) + DigitsValue(y)
  {
    if y != [] {
      var y' := y[..|y| - 1];
      assert (x + y)[..|x + y| - 1] == x + y';
      DigitsValueAppend(x, y');
      assert y[..|y| - 1] == y';
      ShiftTen(DigitsValue(x), Pow10(|y'|));
    } else {
      assert x + y == x;
    }
  }

  /** The leading digit of a numeral weighs 10^(n-1). */
  lemma DigitsValueHead(s: string)
    requires AllDigits(s) && s != []
    ensures DigitsValue(s) == DigitValue(s[0]) * Pow10(|s| - 1) + DigitsValue(s[1..])
  {
    assert s == [s[0]] + s[1..];
    DigitsValueAppend([s[0]], s[1..]);
    assert DigitsValue([s[0]]) == DigitValue(s[0]) by {
      assert [s[0]][..0] == [];
    }
  }

  /** The position of the first '.' in s, or |s| when there is none. */
  function DotIndex(s: string): (k: nat)
    ensures k <= |s|
    ensures k < |s| ==> s[k] == '.'
    ensures forall j :: 0 <= j < k ==> s[j] != '.'
  {
    if s == [] || s[0] == '.' then 0 else 1 + DotIndex(s[1..])
  }

  /** An unsigned numeral: digits with at most one '.', and at least one digit
      ("12", "12.5", ".5" and "5." are numerals; "", "." and "1.2.3" are not). */
  function ParseUnsigned(s: string): Option<real>
  {
    var k := DotIndex(s);
    var whole := s[..k];
    var fraction := if k < |s| then s[k + 1..] else "";
    if AllDigits(whole) && AllDigits(fraction) && |whole| + |fraction| > 0 then
      Some(DigitsValue(whole) as real + DigitsValue(fraction) as real / Pow10(|fraction|) as real)
    else
      None
  }

  /** float(text) on decimal numerals: surrounding whitespace is ignored and one
      sign is allowed; None stands for the ValueError float() raises.
      A blank text never parses. */
  function ParseDecimal(text: string): (r: Option<real>)
    ensures r.Some? ==> !Text.IsBlank(text)
  {
    var s := Text.Strip(text);
    if s == [] then None
    else if s[0] == '-' then
      match ParseUnsigned(s[1..])
      case Some(x) => Some(-x)
      case None => None
    else if s[0] == '+' then ParseUnsigned(s[1..])
    else ParseUnsigned(s)
  }

  /** The decimal digits of n, as to_csv writes an integer cell. */
  function FormatNat(n: nat): (s: string)
    ensures s != [] && AllDigits(s)
    ensures DigitsValue(s) == n
  {
    if n < 10 then [DigitChar(n)]
    else
      var s := FormatNat(n / 10) + [DigitChar(n % 10)];
      assert s[..|s| - 1] == FormatNat(n / 10);
      s
  }

  function FormatInt(n: int): string
  {
    if n < 0 then "-" + FormatNat(-n) else FormatNat(n)
  }

  /** An integer written by to_csv reads back as the same number. */
  lemma ParseFormatInt(n: int)
    ensures ParseDecimal(FormatInt(n)) == Some(n as real)
  {
    var m: nat := if n < 0 then -n else n;
    var digits := FormatNat(m);
    var s := FormatInt(n);
    assert s[|s| - 1] == digits[|digits| - 1];
    Text.StripTrimmed(s);
    assert DotIndex(digits) == |digits|;
    assert digits[..|digits|] == digits;
    assert ParseUnsigned(digits) == Some(m as real);
    if n < 0 {
      assert s[1..] == digits;
    }
  }

  /** astype(int): truncation toward zero. */
  function Trunc(x: real): (r: int)
    ensures 0.0 <= x ==> r as real <= x < r as real + 1.0
    ensures x < 0.0 ==> r as real - 1.0 < x <= r as real
  {
    if x >= 0.0 then x.Floor else -((-x).Floor)
  }

  /** An integral value survives truncation. */
  lemma TruncInt(n: int)
    ensures Trunc(n as real) == n
  {
  }
}
