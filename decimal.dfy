/** Decimal formatting of integers, as strconv.Itoa produces it, and its inverse. */
module Decimal {
  import opened Types

  predicate IsDigit(c: char) { '0' <= c <= '9' }

  predicate AllDigits(s: string) { forall i :: 0 <= i < |s| ==> IsDigit(s[i]) }

  function DigitChar(d: nat): (c: char)
    requires d < 10
    ensures IsDigit(c) && c as int - '0' as int == d
  {
    ('0' as int + d) as char
  }

  /** The base-10 digits of `n`, most significant first, with no leading zero. */
  function NatToString(n: nat): (s: string)
    ensures 1 <= |s| && AllDigits(s)
    ensures |s| > 1 ==> s[0] != '0'
    decreases n
  {
    if n < 10 then [DigitChar(n)] else NatToString(n / 10) + [DigitChar(n % 10)]
  }

  /** strconv.Itoa: a minus sign for negative numbers, then the digits of the magnitude. */
  function Itoa(n: int): (s: string)
    ensures 1 <= |s|
    ensures s[0] == '-' <==> n < 0
    ensures AllDigits(if n < 0 then s[1..] else s)
    ensures var d := if n < 0 then s[1..] else s; 1 <= |d| && (|d| > 1 ==> d[0] != '0')
  {
    if n < 0 then "-" + NatToString(-n) else NatToString(n)
  }

  /** The number a run of digits denotes (0 for the empty run). */
  function DigitsValue(s: string): nat
    requires AllDigits(s)
  {
    if s == [] then 0 else 10 * DigitsValue(s[..|s| - 1]) + (s[|s| - 1] as int - '0' as int)
  }

  /** Reads back an optionally negative decimal; None for anything else. */
  function Atoi(s: string): Option<int> {
    if 2 <= |s| && s[0] == '-' && AllDigits(s[1..]) then Some(0 - DigitsValue(s[1..]) as int)
    else if 1 <= |s| && AllDigits(s) then Some(DigitsValue(s))
    else None
  }

  lemma {:induction false} NatToStringValue(n: nat)
    ensures DigitsValue(NatToString(n)) == n
    decreases n
  {
    if n >= 10 {
      var s := NatToString(n);
      assert s[..|s| - 1] == NatToString(n / 10);
      NatToStringValue(n / 10);
    }
  }

  /** The decimal text of every int reads back as that int. */
  lemma ItoaRoundTrip(n: int)
    ensures Atoi(Itoa(n)) == Some(n)
  {
    if n < 0 {
      NegativeRoundTrip(n);
    } else {
      var s := NatToString(n);
      NatToStringValue(n);
      assert s[0] != '-' by { assert IsDigit(s[0]); }
    }
  }

  lemma NegativeRoundTrip(n: int)
    requires n < 0
    ensures Atoi(Itoa(n)) == Some(n)
  {
    var digits := NatToString(-n);
    var s := "-" + digits;
    assert Itoa(n) == s;
    assert s[1..] == digits;
    NatToStringValue(-n);
    assert Atoi(s) == Some(0 - DigitsValue(digits) as int);
  }
}
