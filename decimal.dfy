/** Decimal rendering of natural numbers, as used to turn the random draw into a course id. */
module Decimal {

  predicate IsDigit(c: char)
  {
    '0' <= c <= '9'
  }

  predicate AllDigits(s: string)
  {
    forall k :: 0 <= k < |s| ==> IsDigit(s[k])
  }

  function DigitValue(c: char): (d: nat)
    requires IsDigit(c)
    ensures d < 10
  {
    c as int - '0' as int
  }

  function DigitChar(d: nat): (c: char)
    requires d < 10
    ensures IsDigit(c) && DigitValue(c) == d
  {
    ('0' as int + d) as char
  }

  /** The decimal rendering of a non-negative number: at least one digit and no leading zero. */
  function Itoa(n: nat): (s: string)
    ensures |s| >= 1 && AllDigits(s)
    ensures s[0] == '0' ==> n == 0
    decreases n
  {
    if n < 10 then [DigitChar(n)] else Itoa(n / 10) + [DigitChar(n % 10)]
  }

  /** Reads a string of digits back as a number (most significant digit first). */
  function Atoi(s: string): nat
    requires AllDigits(s)
  {
    if |s| == 0 then 0 else Atoi(s[..|s| - 1]) * 10 + DigitValue(s[|s| - 1])
  }

  /** Reading back the rendering of a number yields that number. */
  lemma {:induction false} AtoiItoa(n: nat)
    ensures Atoi(Itoa(n)) == n
    decreases n
  {
    if n >= 10 {
      AtoiItoa(n / 10);
      var s := Itoa(n);
      assert s[..|s| - 1] == Itoa(n / 10);
    }
  }

  /** Distinct numbers render as distinct strings. */
  lemma ItoaInjective(m: nat, n: nat)
    ensures Itoa(m) == Itoa(n) ==> m == n
  {
    AtoiItoa(m);
    AtoiItoa(n);
  }

  /** A number below 100 (what the id generator draws) renders as one or two digits. */
  lemma ItoaBelowHundred(n: nat)
    requires n < 100
    ensures 1 <= |Itoa(n)| <= 2
    ensures |Itoa(n)| == 1 <==> n < 10
  {
  }
}
