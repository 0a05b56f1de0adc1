/**
 * Decimal numerals: their value, the canonical numeral of a number, and Go's
 * strconv.Atoi (the parser the id middlewares apply to a path segment) with
 * strconv.Itoa as its inverse.
 */
module Numerals {
  import opened Wrappers
  import opened Text

  /** The range of Go's `int` on a 64-bit platform. */
  const MinInt: int := -0x8000_0000_0000_0000
  const MaxInt: int := 0x7fff_ffff_ffff_ffff

  predicate AllDigits(s: string)
  {
    forall i :: 0 <= i < |s| ==> IsDigit(s[i])
  }

  function DigitValue(c: char): (d: nat)
    requires IsDigit(c)
    ensures d < 10
  {
    (c as int) - ('0' as int)
  }

  function DigitChar(d: nat): (c: char)
    requires d < 10
    ensures IsDigit(c) && DigitValue(c) == d
  {
    (('0' as int) + d) as char
  }

  /** The value of a string of decimal digits, most significant first. */
  function DigitsValue(s: string): nat
    requires AllDigits(s)
    decreases |s|
  {
    if |s| == 0 then 0 else DigitsValue(s[..|s| - 1]) * 10 + DigitValue(s[|s| - 1])
  }

  /** The canonical numeral of `n`: one or more digits, with no leading zero unless `n` is 0. */
  function Decimal(n: nat): (s: string)
    ensures |s| >= 1 && AllDigits(s)
    ensures s[0] == '0' ==> n == 0
    decreases n
  {
    if n < 10 then [DigitChar(n)] else Decimal(n / 10) + [DigitChar(n % 10)]
  }

  lemma {:induction false} DecimalValue(n: nat)
    ensures DigitsValue(Decimal(n)) == n
    decreases n
  {
    if n >= 10 {
      var s := Decimal(n);
      DecimalValue(n / 10);
      assert s[..|s| - 1] == Decimal(n / 10);
    }
  }

  /** Digits that do not start with 0 denote a positive number. */
  lemma {:induction false} LeadingDigitPositive(s: string)
    requires AllDigits(s) && |s| >= 1 && s[0] != '0'
    ensures DigitsValue(s) >= 1
    decreases |s|
  {
    if |s| > 1 {
      LeadingDigitPositive(s[..|s| - 1]);
    }
  }

  /** A numeral without a superfluous leading zero is the canonical numeral of its value. */
  lemma {:induction false} ValueDecimal(s: string)
    requires AllDigits(s) && |s| >= 1 && (|s| == 1 || s[0] != '0')
    ensures Decimal(DigitsValue(s)) == s
    decreases |s|
  {
    var p := s[..|s| - 1];
    if |s| == 1 {
      assert p == [];
      assert DigitChar(DigitValue(s[0])) == s[0];
    } else {
      var d := DigitValue(s[|s| - 1]);
      LeadingDigitPositive(p);
      ValueDecimal(p);
      var v := DigitsValue(s);
      assert v == DigitsValue(p) * 10 + d && v >= 10;
      assert v / 10 == DigitsValue(p) && v % 10 == d;
      assert DigitChar(d) == s[|s| - 1];
      assert s == p + [s[|s| - 1]];
    }
  }

  /**
   * strconv.Atoi on a 64-bit platform: an optional `+` or `-`, then one or
   * more decimal digits (leading zeros allowed), whose value must fit in
   * an int64; anything else is an error, here None.
   */
  function Atoi(s: string): (r: Option<int>)
    ensures r.Some? ==> MinInt <= r.value <= MaxInt
    ensures r.Some? ==> |s| >= 1 && IsDigit(s[|s| - 1])
  {
    if |s| == 0 then None
    else
      var digits := if s[0] == '+' || s[0] == '-' then s[1..] else s;
      if |digits| == 0 || !AllDigits(digits) then None
      else
        var magnitude: int := DigitsValue(digits);
        var n := if s[0] == '-' then -magnitude else magnitude;
        if MinInt <= n <= MaxInt then Some(n) else None
  }

  /** strconv.Itoa: `-` for negative numbers, then the canonical numeral of the magnitude. */
  function FormatInt(n: int): string
  {
    if n < 0 then "-" + Decimal(-n) else Decimal(n)
  }

  /** What FormatInt produces: no `+`, no superfluous leading zero, no `-0`. */
  predicate IsCanonical(s: string)
  {
    && |s| >= 1
    && s[0] != '+'
    && s != "-0"
    && var digits := if s[0] == '-' then s[1..] else s;
       |digits| >= 1 && (|digits| == 1 || digits[0] != '0')
  }

  /** Atoi parses back every int64 that Itoa prints. */
  lemma AtoiFormatInt(n: int)
    requires MinInt <= n <= MaxInt
    ensures IsCanonical(FormatInt(n))
    ensures Atoi(FormatInt(n)) == Some(n)
  {
    var s := FormatInt(n);
    if n < 0 {
      DecimalValue(-n);
      assert s[1..] == Decimal(-n);
    } else {
      DecimalValue(n);
    }
  }

  /** Atoi accepts exactly one canonical numeral per value: the one Itoa prints. */
  lemma AtoiCanonical(s: string)
    requires Atoi(s).Some? && IsCanonical(s)
    ensures FormatInt(Atoi(s).value) == s
  {
    if s[0] == '-' {
      var digits := s[1..];
      assert s == "-" + digits;
      LeadingDigitPositive(digits);
      ValueDecimal(digits);
    } else {
      ValueDecimal(s);
    }
  }

  /** Atoi rejects text with a character that is neither a digit nor a leading sign. */
  lemma AtoiRejectsStray(s: string, i: int)
    requires 0 <= i < |s| && !IsDigit(s[i])
    requires i > 0 || (s[0] != '+' && s[0] != '-')
    ensures Atoi(s) == None
  {
    if s[0] == '+' || s[0] == '-' {
      assert !IsDigit(s[1..][i - 1]);
    }
  }

  /** Sign handling and leading zeros on small numerals. */
  lemma AtoiExamples()
    ensures Atoi("") == None && Atoi("-") == None && Atoi("+") == None
    ensures Atoi("test") == None
    ensures Atoi("1") == Some(1) && Atoi("-1") == Some(-1) && Atoi("+1") == Some(1)
    ensures Atoi("007") == Some(7)
  {
    AtoiRejectsStray("test", 0);
    assert "-"[1..] == [] && "+"[1..] == [];
    assert "-1"[1..] == "1" && "+1"[1..] == "1";
    assert DigitsValue("1") == 1 by { assert "1"[..0] == []; }
    var z := "007";
    assert z[..2] == "00" && "00"[..1] == "0" && "0"[..0] == [];
  }
}
