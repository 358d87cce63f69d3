/**
 * English ordinal suffixes (`get_ordinal`) and ordinal numbers
 * (`format_ordinal`) for integer placements: 1st, 2nd, 3rd, 4th, 11th, 21st ...
 */
module FormatUtils {

  /** `get_ordinal(n)`.  `%` with a positive divisor is non-negative here as in Python. */
  function GetOrdinal(n: int): (s: string)
    ensures s == "st" || s == "nd" || s == "rd" || s == "th"
    ensures 10 <= n % 100 <= 20 ==> s == "th"
  {
    if 10 <= n % 100 <= 20 then "th"
    else if n % 10 == 1 then "st"
    else if n % 10 == 2 then "nd"
    else if n % 10 == 3 then "rd"
    else "th"
  }

  /** Each suffix is chosen exactly by its residues. */
  lemma GetOrdinalCases(n: int)
    ensures GetOrdinal(n) == "st" <==> n % 10 == 1 && !(10 <= n % 100 <= 20)
    ensures GetOrdinal(n) == "nd" <==> n % 10 == 2 && !(10 <= n % 100 <= 20)
    ensures GetOrdinal(n) == "rd" <==> n % 10 == 3 && !(10 <= n % 100 <= 20)
    ensures GetOrdinal(n) == "th" <==> n % 10 !in {1, 2, 3} || 10 <= n % 100 <= 20
  {
  }

  /** The last digit is determined by the last two. */
  lemma LastDigitOfLastTwo(n: int)
    ensures (n % 100) % 10 == n % 10
  {
    var q := n / 100;
    assert n == 100 * q + n % 100;
    assert 100 * q == 10 * (10 * q);
  }

  /** The suffix depends only on n mod 100; negative n behave as their residue. */
  lemma GetOrdinalMod100(n: int)
    ensures GetOrdinal(n) == GetOrdinal(n % 100)
  {
    LastDigitOfLastTwo(n);
  }

  /** Concrete cases: the teens take "th" in every hundred; a negative n is
      read through its floored remainder, so -9 takes "st" and -3 takes "th". */
  lemma GetOrdinalExamples()
    ensures GetOrdinal(1) == "st" && GetOrdinal(2) == "nd" && GetOrdinal(3) == "rd" && GetOrdinal(4) == "th"
    ensures GetOrdinal(11) == "th" && GetOrdinal(12) == "th" && GetOrdinal(13) == "th"
    ensures GetOrdinal(21) == "st" && GetOrdinal(22) == "nd" && GetOrdinal(23) == "rd"
    ensures GetOrdinal(111) == "th" && GetOrdinal(112) == "th" && GetOrdinal(101) == "st"
    ensures GetOrdinal(-9) == "st" && GetOrdinal(-3) == "th" && GetOrdinal(-90) == "th"
  {
  }

  /** The decimal digit character for 0 <= v < 10. */
  function DigitChar(v: nat): (c: char)
    requires v < 10
    ensures '0' <= c <= '9' && c as int == '0' as int + v
  {
    ('0' as int + v) as char
  }

  /** The value of a decimal digit character. */
  function DigitValue(c: char): (v: nat)
    requires '0' <= c <= '9'
    ensures v < 10 && DigitChar(v) == c
  {
    (c as int - '0' as int) as nat
  }

  predicate IsDigits(s: string)
  {
    forall k :: 0 <= k < |s| ==> '0' <= s[k] <= '9'
  }

  /** Python's `str(n)` for n >= 0: the digits, most significant first, without leading zeros. */
  function NatDecimal(n: nat): (s: string)
    ensures |s| >= 1 && IsDigits(s)
    ensures |s| > 1 ==> s[0] != '0'
    ensures s[0] == '0' <==> n == 0
    decreases n
  {
    if n < 10 then [DigitChar(n)] else NatDecimal(n / 10) + [DigitChar(n % 10)]
  }

  /** Python's `str(n)` (and the `{n}` of an f-string) for an integer. */
  function Decimal(n: int): (s: string)
    ensures |s| >= 1
    ensures n < 0 ==> s[0] == '-' && IsDigits(s[1..])
    ensures n >= 0 ==> IsDigits(s)
    ensures n >= 0 && |s| > 1 ==> s[0] != '0'
    ensures n < 0 ==> |s| >= 2 && s[1] != '0'
  {
    if n < 0 then "-" + NatDecimal(-n) else NatDecimal(n)
  }

  /** Reads a string of decimal digits. */
  function ParseNat(s: string): nat
    requires IsDigits(s)
  {
    if s == [] then 0 else 10 * ParseNat(s[..|s| - 1]) + DigitValue(s[|s| - 1])
  }

  /** Reads an optionally signed decimal integer. */
  function ParseDecimal(s: string): int
    requires |s| >= 1
    requires (s[0] == '-' && IsDigits(s[1..])) || IsDigits(s)
  {
    if s[0] == '-' && IsDigits(s[1..]) then -(ParseNat(s[1..]) as int) else ParseNat(s)
  }

  /** The digits of a natural number read back as that number. */
  lemma {:induction false} NatDecimalRoundTrip(n: nat)
    ensures ParseNat(NatDecimal(n)) == n
    decreases n
  {
    var s := NatDecimal(n);
    if n < 10 {
      assert s[..|s| - 1] == [];
    } else {
      NatDecimalRoundTrip(n / 10);
      assert s[..|s| - 1] == NatDecimal(n / 10);
      assert DigitValue(s[|s| - 1]) == n % 10;
    }
  }

  /** Digits without a leading zero that read as a positive-led number are at least 1. */
  lemma {:induction false} ParseNatPositive(t: string)
    requires |t| >= 1 && IsDigits(t) && t[0] != '0'
    ensures ParseNat(t) >= 1
  {
    if |t| > 1 {
      var init := t[..|t| - 1];
      assert init[0] == t[0];
      ParseNatPositive(init);
    } else {
      assert DigitValue(t[0]) != 0;
    }
  }

  /** `str(n)` is the only digit string without a leading zero that reads as n:
      writing back what such a string reads gives the string itself. */
  lemma {:induction false} NatDecimalCanonical(t: string)
    requires |t| >= 1 && IsDigits(t) && (|t| > 1 ==> t[0] != '0')
    ensures NatDecimal(ParseNat(t)) == t
  {
    var init := t[..|t| - 1];
    var v := DigitValue(t[|t| - 1]);
    if |t| == 1 {
      assert init == [];
      assert ParseNat(t) == v;
      assert NatDecimal(v) == [DigitChar(v)] == [t[0]];
    } else {
      assert init[0] == t[0];
      ParseNatPositive(init);
      NatDecimalCanonical(init);
      var n := ParseNat(t);
      assert n == 10 * ParseNat(init) + v;
      assert n / 10 == ParseNat(init) && n % 10 == v;
      assert t == init + [t[|t| - 1]];
    }
  }

  /** A signed decimal text in the form `str` writes (no leading zero, no "-0")
      is the text of the integer it reads as. */
  lemma DecimalCanonical(t: string)
    requires |t| >= 1
    requires (IsDigits(t) && (|t| > 1 ==> t[0] != '0'))
             || (|t| >= 2 && t[0] == '-' && IsDigits(t[1..]) && t[1] != '0')
    ensures Decimal(ParseDecimal(t)) == t
  {
    if t[0] == '-' {
      var u := t[1..];
      assert u[0] == t[1];
      NatDecimalCanonical(u);
      ParseNatPositive(u);
      assert t == "-" + u;
    } else {
      NatDecimalCanonical(t);
    }
  }

  /** The decimal text of any integer reads back as that integer. */
  lemma DecimalRoundTrip(n: int)
    ensures ParseDecimal(Decimal(n)) == n
  {
    if n < 0 {
      NatDecimalRoundTrip(-n);
      assert Decimal(n)[1..] == NatDecimal(-n);
    } else {
      NatDecimalRoundTrip(n);
    }
  }

  /** `format_ordinal(n)` for an integer-valued n: its decimal digits followed
      by its suffix, e.g. "1st", "12th", "-9st".  Splitting off the two-letter
      suffix gives back n, written as `str(n)` writes it. */
  function FormatOrdinal(n: int): (s: string)
    ensures |s| >= 3
    ensures s[|s| - 2..] == GetOrdinal(n)
    ensures s[..|s| - 2] == Decimal(n)
    ensures var digits := s[..|s| - 2];
            |digits| >= 1 && ((digits[0] == '-' && IsDigits(digits[1..])) || IsDigits(digits))
            && ParseDecimal(digits) == n
  {
    var digits := Decimal(n);
    DecimalRoundTrip(n);
    var s := digits + GetOrdinal(n);
    assert s[..|s| - 2] == digits;
    s
  }
}
