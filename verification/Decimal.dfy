/** Decimal numerals as an output stream writes unsigned numbers. */
module Decimal {

  predicate IsDigit(c: char) { '0' <= c <= '9' }

  function Digit(d: nat): char
    requires d < 10
  {
    ['0', '1', '2', '3', '4', '5', '6', '7', '8', '9'][d]
  }

  function DigitValue(c: char): nat
    requires IsDigit(c)
  {
    c as int - '0' as int
  }

  function Dec(n: nat): (s: string)
    ensures s != "" && forall i :: 0 <= i < |s| ==> IsDigit(s[i])
  {
    if n < 10 then [Digit(n)] else Dec(n / 10) + [Digit(n % 10)]
  }

  function ValueOf(s: string): nat
    requires forall i :: 0 <= i < |s| ==> IsDigit(s[i])
  {
    if s == "" then 0 else 10 * ValueOf(s[..|s| - 1]) + DigitValue(s[|s| - 1])
  }

  /** Reading a numeral gives the number it was written from, so distinct numbers have distinct numerals. */
  lemma {:induction false} DecReads(n: nat)
    ensures ValueOf(Dec(n)) == n
  {
    if n >= 10 {
      DecReads(n / 10);
      assert Dec(n)[..|Dec(n)| - 1] == Dec(n / 10);
    }
  }

  lemma DecInjective(a: nat, b: nat)
    requires Dec(a) == Dec(b)
    ensures a == b
  {
    DecReads(a);
    DecReads(b);
  }

  function Pow10(k: nat): nat { if k == 0 then 1 else 10 * Pow10(k - 1) }

  lemma {:induction false} DecLength(n: nat, k: nat)
    requires 0 < k && n < Pow10(k)
    ensures |Dec(n)| <= k
  {
    if n >= 10 {
      DecLength(n / 10, k - 1);
    }
  }

  /** Length of the longest prefix of digits. */
  function Digits(s: string): (n: nat)
    ensures n <= |s| && forall i :: 0 <= i < n ==> IsDigit(s[i])
    ensures n < |s| ==> !IsDigit(s[n])
  {
    if s == "" || !IsDigit(s[0]) then 0 else 1 + Digits(s[1..])
  }

  /** A numeral followed by anything but a digit can be taken off again. */
  lemma DigitsOf(n: nat, rest: string)
    requires rest != "" ==> !IsDigit(rest[0])
    ensures var s := Dec(n) + rest; Digits(s) == |Dec(n)| && s[..|Dec(n)|] == Dec(n) && s[|Dec(n)|..] == rest
  {
    var s, k := Dec(n) + rest, Digits(Dec(n) + rest);
    assert forall i :: 0 <= i < |Dec(n)| ==> IsDigit(s[i]);
    assert rest != "" ==> s[|Dec(n)|] == rest[0];
  }
}
