/** Decimal rendering of integers (Go's `%d`) and the last-occurrence search of `strings.LastIndex`. */
module Strings {

  predicate IsDigit(c: char) {
    '0' <= c <= '9'
  }

  function DigitChar(d: nat): (c: char)
    requires d < 10
    ensures IsDigit(c)
  {
    (48 + d) as char
  }

  /** `fmt.Sprintf("%d", n)` for a non-negative `n`: its decimal digits, no sign, no leading zero. */
  function NatToString(n: nat): (r: string)
    ensures |r| > 0
    ensures forall k :: 0 <= k < |r| ==> IsDigit(r[k])
    ensures n >= 10 ==> |r| >= 2
    decreases n
  {
    if n < 10 then [DigitChar(n)] else NatToString(n / 10) + [DigitChar(n % 10)]
  }

  /** Distinct numbers have distinct renderings, so positional names never collide. */
  lemma {:induction false} NatToStringInjective(a: nat, b: nat)
    ensures NatToString(a) == NatToString(b) ==> a == b
    decreases a
  {
    if NatToString(a) == NatToString(b) {
      if a >= 10 && b >= 10 {
        var sa, sb := NatToString(a / 10), NatToString(b / 10);
        assert NatToString(a) == sa + [DigitChar(a % 10)];
        assert NatToString(b) == sb + [DigitChar(b % 10)];
        assert |sa| == |sb|;
        assert sa == NatToString(a)[..|sa|] == NatToString(b)[..|sb|] == sb;
        assert DigitChar(a % 10) == NatToString(a)[|sa|] == DigitChar(b % 10);
        NatToStringInjective(a / 10, b / 10);
      }
    }
  }

  /** `fmt.Sprintf("%d", i)` for any integer: a leading `-` for negative values. */
  function IntToString(i: int): string
  {
    if i < 0 then "-" + NatToString(-i) else NatToString(i)
  }

  /** `strings.LastIndex(s, string(c))`: the index of the last `c` in `s`, or -1 when there is none. */
  function LastIndexOf(s: string, c: char): (r: int)
    ensures -1 <= r < |s|
    ensures r >= 0 ==> s[r] == c
    ensures forall k :: r < k < |s| ==> s[k] != c
    decreases |s|
  {
    if |s| == 0 then -1
    else if s[|s| - 1] == c then |s| - 1
    else LastIndexOf(s[..|s| - 1], c)
  }
}
