/** Small functions on text that several parts of the precompiler share. */
module Texts {

  const APOSTROPHE := '\U{27}'
  const QUOTATION_MARK := '\U{22}'

  predicate IsQuote(c: char) {
    c == APOSTROPHE || c == QUOTATION_MARK
  }

  /** Position of the first c, or -1. */
  function IndexOf(s: string, c: char): (x: int)
    ensures -1 <= x < |s|
    ensures x >= 0 ==> s[x] == c && c !in s[..x]
    ensures x < 0 ==> c !in s
  {
    if |s| == 0 then -1
    else if s[0] == c then 0
    else
      var x := IndexOf(s[1..], c);
      if x < 0 then (assert s == [s[0]] + s[1..]; -1)
      else (assert s[..x + 1] == [s[0]] + s[1..][..x]; x + 1)
  }

  /** The same character, or any other item, so many times. */
  function Copies<T>(x: T, n: nat): (s: seq<T>)
    ensures |s| == n && forall i :: 0 <= i < n ==> s[i] == x
  {
    seq(n, _ => x)
  }

  /** A number in decimal digits. */
  function Numeral(n: nat): (d: string)
    ensures |d| >= 1 && forall i :: 0 <= i < |d| ==> '0' <= d[i] <= '9'
  {
    if n < 10 then [('0' as int + n) as char] else Numeral(n / 10) + [('0' as int + n % 10) as char]
  }
}
