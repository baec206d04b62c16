/**
 Numbers as decimal text: what `%ld` writes and what `atoi` and `strtoll` read.
 */
module Decimals {

  predicate IsDigit(c: char) {
    '0' <= c <= '9'
  }

  function DigitValue(c: char): int {
    c as int - '0' as int
  }

  function DigitChar(d: nat): (c: char)
    requires d < 10
    ensures IsDigit(c) && DigitValue(c) == d
  {
    ('0' as int + d) as char
  }

  /** The text written by `%ld` for a non-negative number. */
  function Decimal(n: nat): (s: string)
    ensures |s| > 0
    ensures forall i :: 0 <= i < |s| ==> IsDigit(s[i])
  {
    if n < 10 then [DigitChar(n)] else Decimal(n / 10) + [DigitChar(n % 10)]
  }

  /** The value of the longest run of digits that starts `s`, continuing from `acc`. */
  function DigitsFrom(s: string, acc: int): int
    decreases |s|
  {
    if s == "" || !IsDigit(s[0]) then acc
    else DigitsFrom(s[1..], 10 * acc + DigitValue(s[0]))
  }

  predicate IsSpace(c: char) {
    c == ' ' || ('\t' <= c <= '\r')
  }

  /** C's `atoi`: leading white space, an optional sign, then digits. */
  function Atoi(s: string): int
    decreases |s|
  {
    if s == "" then 0
    else if IsSpace(s[0]) then Atoi(s[1..])
    else if s[0] == '-' then -DigitsFrom(s[1..], 0)
    else if s[0] == '+' then DigitsFrom(s[1..], 0)
    else DigitsFrom(s, 0)
  }

  lemma {:induction false} DigitsFromAppend(s: string, d: char, acc: int)
    requires forall i :: 0 <= i < |s| ==> IsDigit(s[i])
    requires IsDigit(d)
    ensures DigitsFrom(s + [d], acc) == 10 * DigitsFrom(s, acc) + DigitValue(d)
    decreases |s|
  {
    if s == "" {
      assert [d][1..] == "";
    } else {
      assert (s + [d])[1..] == s[1..] + [d];
      DigitsFromAppend(s[1..], d, 10 * acc + DigitValue(s[0]));
    }
  }

  lemma {:induction false} DigitsFromDecimal(n: nat)
    ensures DigitsFrom(Decimal(n), 0) == n
    decreases n
  {
    if n < 10 {
      assert Decimal(n)[1..] == "";
    } else {
      DigitsFromDecimal(n / 10);
      DigitsFromAppend(Decimal(n / 10), DigitChar(n % 10), 0);
    }
  }

  /** Parsing undoes printing, for every length. */
  lemma AtoiDecimal(n: nat)
    ensures Atoi(Decimal(n)) == n
  {
    DigitsFromDecimal(n);
    assert IsDigit(Decimal(n)[0]);
  }

  lemma {:induction false} DecimalWidth(n: nat, k: nat)
    requires 1 <= k && n < Pow10(k)
    ensures |Decimal(n)| <= k
    decreases n
  {
    if n >= 10 {
      assert Pow10(1) == 10;
      DecimalWidth(n / 10, k - 1);
    }
  }

  function Pow10(k: nat): nat {
    if k == 0 then 1 else 10 * Pow10(k - 1)
  }
}
