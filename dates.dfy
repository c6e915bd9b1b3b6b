/** The explorer compares dates as strings; this is sound because dates are
    stored zero-padded as YYYY-MM-DD, where string order is calendar order. */
module Dates {
  import Text
  import Numbers

  /** The lexical shape of a stored date: four, two and two digits separated
      by '-' (not checked to be a real calendar date). */
  predicate IsIsoDate(s: string)
  {
    |s| == 10 && s[4] == '-' && s[7] == '-' &&
    Numbers.AllDigits(s[..4]) && Numbers.AllDigits(s[5..7]) && Numbers.AllDigits(s[8..])
  }

  /** The date as the number yyyymmdd: its chronological rank. */
  function DateKey(s: string): nat
    requires IsIsoDate(s)
  {
    Numbers.DigitsValue(s[..4]) * 10000 + Numbers.DigitsValue(s[5..7]) * 100 + Numbers.DigitsValue(s[8..])
  }

  /** Numerals of the same length compare lexically as they compare numerically. */
  lemma {:induction false} DigitsLexOrder(a: string, b: string)
    requires Numbers.AllDigits(a) && Numbers.AllDigits(b) && |a| == |b|
    ensures Text.LexLe(a, b) <==> Numbers.DigitsValue(a) <= Numbers.DigitsValue(b)
    decreases |a|
  {
    if a != [] {
      var p := Numbers.Pow10(|a| - 1);
      var da, db := Numbers.DigitValue(a[0]), Numbers.DigitValue(b[0]);
      Numbers.DigitsValueHead(a);
      Numbers.DigitsValueHead(b);
      Numbers.DigitsValueBound(a[1..]);
      Numbers.DigitsValueBound(b[1..]);
      if da < db {
        LeadingDigitDecides(da, db, p, Numbers.DigitsValue(a[1..]), Numbers.DigitsValue(b[1..]));
      } else if da > db {
        LeadingDigitDecides(db, da, p, Numbers.DigitsValue(b[1..]), Numbers.DigitsValue(a[1..]));
      } else {
        DigitsLexOrder(a[1..], b[1..]);
      }
    }
  }

  /** A smaller leading digit makes a smaller numeral, whatever follows it. */
  lemma LeadingDigitDecides(x: nat, y: nat, p: nat, rx: nat, ry: nat)
    requires x < y && rx < p && ry < p
    ensures x * p + rx < y * p + ry
  {
    assert (x + 1) * p <= y * p;
  }

  /** A character both strings have at the same position does not affect their order. */
  lemma {:induction false} LexLeSkip(p1: string, p2: string, ch: char, q1: string, q2: string)
    requires |p1| == |p2|
    ensures Text.LexLe(p1 + [ch] + q1, p2 + [ch] + q2) == Text.LexLe(p1 + q1, p2 + q2)
    decreases |p1|
  {
    if p1 == [] {
      assert p1 + [ch] + q1 == [ch] + q1 && p1 + q1 == q1;
      assert p2 + [ch] + q2 == [ch] + q2 && p2 + q2 == q2;
      assert ([ch] + q1)[1..] == q1 && ([ch] + q2)[1..] == q2;
    } else {
      LexLeSkip(p1[1..], p2[1..], ch, q1, q2);
      assert (p1 + [ch] + q1)[1..] == p1[1..] + [ch] + q1;
      assert (p2 + [ch] + q2)[1..] == p2[1..] + [ch] + q2;
      assert (p1 + q1)[1..] == p1[1..] + q1;
      assert (p2 + q2)[1..] == p2[1..] + q2;
    }
  }

  /** The eight digits of a date, separators removed. */
  function DigitsOf(s: string): string
    requires IsIsoDate(s)
  {
    s[..4] + s[5..7] + s[8..]
  }

  lemma DigitsOfValue(s: string)
    requires IsIsoDate(s)
    ensures Numbers.AllDigits(DigitsOf(s)) && |DigitsOf(s)| == 8
    ensures Numbers.DigitsValue(DigitsOf(s)) == DateKey(s)
  {
    Numbers.DigitsValueAppend(s[..4], s[5..7]);
    Numbers.DigitsValueAppend(s[..4] + s[5..7], s[8..]);
    assert Numbers.Pow10(2) == 100;
    ShiftHundred(Numbers.DigitsValue(s[..4]), Numbers.DigitsValue(s[5..7]), Numbers.DigitsValue(s[8..]));
  }

  lemma ShiftHundred(y: int, m: int, d: int)
    ensures (y * 100 + m) * 100 + d == y * 10000 + m * 100 + d
  {
  }

  lemma DropSeparators(a: string, b: string)
    requires IsIsoDate(a) && IsIsoDate(b)
    ensures Text.LexLe(a, b) == Text.LexLe(DigitsOf(a), DigitsOf(b))
  {
    assert a == a[..7] + ['-'] + a[8..];
    assert b == b[..7] + ['-'] + b[8..];
    LexLeSkip(a[..7], b[..7], '-', a[8..], b[8..]);
    assert a[..7] + a[8..] == a[..4] + ['-'] + (a[5..7] + a[8..]);
    assert b[..7] + b[8..] == b[..4] + ['-'] + (b[5..7] + b[8..]);
    LexLeSkip(a[..4], b[..4], '-', a[5..7] + a[8..], b[5..7] + b[8..]);
    assert a[..4] + (a[5..7] + a[8..]) == DigitsOf(a);
    assert b[..4] + (b[5..7] + b[8..]) == DigitsOf(b);
  }

  /** For stored dates the string comparison the filter uses is the calendar
      comparison, so the date bounds select a calendar range. */
  lemma IsoLexOrder(a: string, b: string)
    requires IsIsoDate(a) && IsIsoDate(b)
    ensures Text.LexLe(a, b) <==> DateKey(a) <= DateKey(b)
  {
    DropSeparators(a, b);
    DigitsOfValue(a);
    DigitsOfValue(b);
    DigitsLexOrder(DigitsOf(a), DigitsOf(b));
  }
}
