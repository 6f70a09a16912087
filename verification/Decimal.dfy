/** Decimal numerals as the server prints and parses them: `to_string`, and
  * Rust's `str::parse` for unsigned and signed 64-bit integers. */
module Decimal {
  import opened Basics

  predicate IsDigit(c: char) {
    '0' <= c <= '9'
  }

  predicate AllDigits(s: string) {
    forall i :: 0 <= i < |s| ==> IsDigit(s[i])
  }

  function DigitOf(d: nat): (c: char)
    requires d < 10
    ensures IsDigit(c)
  {
    ('0' as int + d) as char
  }

  function Print(n: nat): (s: string)
    ensures s != [] && AllDigits(s)
  {
    if n < 10 then [DigitOf(n)] else Print(n / 10) + [DigitOf(n % 10)]
  }

  function Numeral(s: string): nat
    requires AllDigits(s)
  {
    if s == [] then 0 else 10 * Numeral(s[..|s| - 1]) + (s[|s| - 1] as int - '0' as int)
  }

  lemma {:induction false} NumeralOfPrint(n: nat)
    ensures Numeral(Print(n)) == n
  {
    if n >= 10 {
      NumeralOfPrint(n / 10);
      assert Print(n)[..|Print(n)| - 1] == Print(n / 10);
    } else {
      assert Print(n)[..0] == [];
    }
  }

  /** At least one digit, and no leading zero. */
  predicate Canonical(s: string) {
    s != [] && AllDigits(s) && (s[0] == '0' ==> |s| == 1)
  }

  /** The canonical numerals are exactly what is printed, each for its own number. */
  lemma {:induction false} PrintIsCanonical(n: nat)
    ensures Canonical(Print(n)) && (n > 0 ==> Print(n)[0] != '0')
  {
    if n >= 10 {
      PrintIsCanonical(n / 10);
    }
  }

  lemma {:induction false} PrintOfNumeral(s: string)
    requires Canonical(s)
    ensures Print(Numeral(s)) == s && (s[0] != '0' ==> Numeral(s) > 0)
  {
    if |s| == 1 {
      assert Numeral(s[..0]) == 0;
    } else {
      var front := s[..|s| - 1];
      PrintOfNumeral(front);
      assert s == front + [s[|s| - 1]];
    }
  }

  /** An optional '+', at least one digit, and a value below the bound. */
  function ParseBelow(s: string, bound: nat): (r: Option<nat>)
    ensures r.Some? ==> r.value < bound
  {
    var digits := if s != [] && s[0] == '+' then s[1..] else s;
    if digits != [] && AllDigits(digits) && Numeral(digits) < bound then Some(Numeral(digits)) else None
  }

  function ParseUnsigned(s: string): Option<nat> {
    ParseBelow(s, TWO_64)
  }

  function PrintInt(n: int): (s: string)
    ensures s != [] && forall i :: 0 <= i < |s| ==> IsDigit(s[i]) || s[i] == '-'
  {
    if n < 0 then "-" + Print(-n) else Print(n)
  }

  function ParseI64(s: string): (r: Option<int>)
    ensures r.Some? ==> -TWO_63 <= r.value < TWO_63
  {
    if s != [] && s[0] == '-' then
      var digits := s[1..];
      if digits == [] || !AllDigits(digits) then None else
      var n: int := 0 - Numeral(digits);
      if -TWO_63 <= n then Some(n) else None
    else
      ParseBelow(s, TWO_63)
  }

  lemma ParseOfPrint(n: nat, bound: nat)
    ensures ParseBelow(Print(n), bound) == if n < bound then Some(n) else None
  {
    NumeralOfPrint(n);
  }

  /** A sign is allowed in front of an unsigned number, one only. */
  lemma ParseOfPlus(n: nat, bound: nat)
    ensures ParseBelow("+" + Print(n), bound) == if n < bound then Some(n) else None
    ensures ParseBelow("", bound) == None && ParseBelow("+", bound) == None
    ensures ParseBelow("++" + Print(n), bound) == None && ParseBelow("-" + Print(n), bound) == None
  {
    NumeralOfPrint(n);
    assert ("+" + Print(n))[1..] == Print(n);
    assert ("++" + Print(n))[1..][0] == '+';
    assert ("-" + Print(n))[0] == '-';
  }

  lemma ParseOfPrintInt(n: int)
    requires -TWO_63 <= n < TWO_63
    ensures ParseI64(PrintInt(n)) == Some(n)
  {
    if n < 0 {
      NumeralOfPrint(-n);
      assert PrintInt(n)[1..] == Print(-n);
    } else {
      ParseOfPrint(n, TWO_63);
    }
  }
}
