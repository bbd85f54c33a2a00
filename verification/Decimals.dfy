/** Numbers in decimal. */
module Decimals {
  import opened Strings

  predicate AllDigits(s: string) {
    forall i :: 0 <= i < |s| ==> IsDigit(s[i])
  }

  /** The number a digit string stands for. */
  function Val(s: string): nat
    requires AllDigits(s)
  {
    if s == "" then 0
    else
      assert IsDigit(s[|s| - 1]);
      Val(s[..|s| - 1]) * 10 + (s[|s| - 1] as int - '0' as int)
  }

  lemma ValAppend(s: string, c: char)
    requires AllDigits(s) && IsDigit(c)
    ensures AllDigits(s + [c]) && Val(s + [c]) == Val(s) * 10 + (c as int - '0' as int)
  {
    assert (s + [c])[..|s|] == s;
  }

  /** A number without leading zeros. */
  function Decimal(n: nat): (r: string)
    ensures |r| > 0
  {
    if n < 10 then [DigitChar(n)] else Decimal(n / 10) + [DigitChar(n % 10)]
  }

  lemma {:induction false} DecimalIs(n: nat)
    ensures AllDigits(Decimal(n)) && Val(Decimal(n)) == n
  {
    if n < 10 {
      ValAppend("", DigitChar(n));
      assert "" + [DigitChar(n)] == [DigitChar(n)];
    } else {
      DecimalIs(n / 10);
      ValAppend(Decimal(n / 10), DigitChar(n % 10));
    }
  }

  /** Zeros in front do not count. */
  lemma {:induction false} ZerosInFront(k: nat, s: string)
    requires AllDigits(s)
    ensures var all := seq(k, i => '0') + s; AllDigits(all) && Val(all) == Val(s)
    decreases k, |s|
  {
    var zeros := seq(k, i => '0');
    var all := zeros + s;
    if s != "" {
      var n := |s| - 1;
      ZerosInFront(k, s[..n]);
      assert all[..|all| - 1] == zeros + s[..n];
      assert all[|all| - 1] == s[n];
    } else if k > 0 {
      var fewer := seq(k - 1, i => '0');
      ZerosInFront(k - 1, "");
      assert fewer + "" == fewer;
      assert all == fewer + ['0'];
      ValAppend(fewer, '0');
    }
  }
}
