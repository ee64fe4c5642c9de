/** Numbers printed in decimal and hexadecimal. */
module Numerals {
  predicate IsDigit(c: char, base: nat) {
    '0' <= c <= '9' || (base == 16 && 'a' <= c <= 'f')
  }

  function DigitValue(c: char): nat {
    if '0' <= c <= '9' then (c - '0') as nat else if 'a' <= c <= 'f' then (c - 'a') as nat + 10 else 0
  }

  function DigitChar(n: nat): (c: char)
    requires n < 16
    ensures DigitValue(c) == n && IsDigit(c, 16) && (n < 10 ==> IsDigit(c, 10))
  {
    if n < 10 then '0' + n as char else 'a' + (n - 10) as char
  }

  /** %u and %x */
  function Show(n: nat, base: nat): (s: string)
    requires base == 10 || base == 16
    ensures 1 <= |s|
  {
    if n < base then [DigitChar(n)] else Show(n / base, base) + [DigitChar(n % base)]
  }

  function Value(s: string, base: nat): nat {
    if s == "" then 0 else Value(s[..|s| - 1], base) * base + DigitValue(s[|s| - 1])
  }

  lemma {:induction false} ShowReads(n: nat, base: nat)
    requires base == 10 || base == 16
    ensures Value(Show(n, base), base) == n
    ensures forall k :: 0 <= k < |Show(n, base)| ==> IsDigit(Show(n, base)[k], base)
    decreases n
  {
    var s := Show(n, base);
    if n < base {
      assert s[..0] == "" && Value(s[..0], base) == 0;
    } else {
      ShowReads(n / base, base);
      assert s[..|s| - 1] == Show(n / base, base);
    }
  }
}
