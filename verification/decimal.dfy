/** Decimal digit text and the numbers it denotes. */
module Decimal {
  import opened CType

  predicate AllDigits(s: string) {
    forall i :: 0 <= i < |s| ==> IsDigit(s[i])
  }

  function DigitValue(c: char): nat
    requires IsDigit(c)
  {
    c as int - '0' as int
  }

  function DigitChar(d: nat): (c: char)
    requires d < 10
    ensures IsDigit(c) && DigitValue(c) == d
  {
    ('0' as int + d) as char
  }

  /** The number a run of decimal digits denotes, most significant first. */
  function Value(s: string): nat
    requires AllDigits(s)
  {
    if s == [] then 0 else 10 * Value(s[..|s| - 1]) + DigitValue(s[|s| - 1])
  }

  /** The shortest decimal text of n, as inet_ntop and printf's %d write it. */
  function Digits(n: nat): (s: string)
    ensures 1 <= |s| && AllDigits(s)
  {
    if n < 10 then [DigitChar(n)] else Digits(n / 10) + [DigitChar(n % 10)]
  }

  /** Reading back the text Digits writes gives the number, with no leading zero. */
  lemma {:induction false} DigitsValue(n: nat)
    ensures Value(Digits(n)) == n
    ensures Digits(n)[0] == '0' ==> n == 0
  {
    if n >= 10 {
      DigitsValue(n / 10);
      var s := Digits(n);
      assert s[..|s| - 1] == Digits(n / 10);
    }
  }

  /** A number below 1000 takes at most three digits. */
  lemma {:induction false} DigitsLength(n: nat)
    requires n < 1000
    ensures |Digits(n)| <= 3
  {
    if n >= 10 {
      var m := n / 10;
      assert m < 100;
      if m >= 10 {
        assert m / 10 < 10;
        assert |Digits(m)| == |Digits(m / 10)| + 1;
      }
    }
  }

  /** The length of the longest run of digits at the front of s. */
  function LeadingDigits(s: string): (p: nat)
    ensures p <= |s| && AllDigits(s[..p])
    ensures p == |s| || !IsDigit(s[p])
  {
    if s == [] || !IsDigit(s[0]) then 0 else 1 + LeadingDigits(s[1..])
  }

  lemma LeadingDigitsUnique(s: string, p: nat)
    requires p <= |s| && AllDigits(s[..p])
    requires p == |s| || !IsDigit(s[p])
    ensures LeadingDigits(s) == p
  {
  }
}
