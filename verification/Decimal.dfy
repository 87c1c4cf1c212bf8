/** `std::to_string` on unsigned numbers and `std::stoi` on its results. */
module Decimal {
  import opened Basics

  const INT_MAX: nat := 0x7FFF_FFFF

  function Digit(d: nat): (c: char)
    requires d < 10
  {
    (48 + d) as char
  }

  predicate IsDigit(c: char) { '0' <= c <= '9' }

  predicate AllDigits(s: string) { forall i :: 0 <= i < |s| ==> IsDigit(s[i]) }

  function ToString(n: nat): (s: string)
    ensures s != "" && AllDigits(s)
  {
    if n < 10 then [Digit(n)] else ToString(n / 10) + [Digit(n % 10)]
  }

  /** `n` without its `i` last digits. */
  function WithoutDigits(n: nat, i: nat): nat { if i == 0 then n else WithoutDigits(n / 10, i - 1) }

  /** Character `i` from the end is the decimal digit of weight 10^i, and the first is zero only in "0". */
  lemma {:induction false} PrintedDigits(n: nat, i: nat)
    requires i < |ToString(n)|
    ensures var s := ToString(n); s[|s| - 1 - i] as int == '0' as int + WithoutDigits(n, i) % 10
    ensures ToString(n)[0] == '0' <==> n == 0
  {
    if n >= 10 { PrintedDigits(n / 10, if i > 0 then i - 1 else 0); }
  }

  function ToNat(s: string): nat
    requires AllDigits(s)
  {
    if s == "" then 0
    else
      assert IsDigit(s[|s| - 1]);
      ToNat(s[..|s| - 1]) * 10 + (s[|s| - 1] as int - 48)
  }

  /** `stoi`: out of the range of int it throws. */
  function Stoi(s: string): Option<nat>
    requires AllDigits(s)
  {
    if ToNat(s) <= INT_MAX then Some(ToNat(s)) else None
  }

  /** Reading back what was printed. */
  lemma {:induction false} PrintThenRead(n: nat)
    ensures ToNat(ToString(n)) == n
  {
    if n >= 10 {
      PrintThenRead(n / 10);
      assert ToString(n)[..|ToString(n)| - 1] == ToString(n / 10);
    } else {
      assert ToString(n)[..0] == "";
    }
  }

  /** `stoi` of a printed number gives the number back exactly when it is an int. */
  lemma StoiOfPrint(n: nat)
    ensures Stoi(ToString(n)) == if n < 0x8000_0000 then Some(n) else None
  {
    PrintThenRead(n);
  }

  lemma PrintIsInjective(m: nat, n: nat)
    requires ToString(m) == ToString(n)
    ensures m == n
  {
    PrintThenRead(m);
    PrintThenRead(n);
  }

  /** `n` without its last `m` digits. */
  function Cut(n: nat, m: nat): nat { if m == 0 then n else Cut(n / 10, m - 1) }

  lemma {:induction false} CutIsPrefix(n: nat, m: nat)
    requires m < |ToString(n)|
    ensures ToString(Cut(n, m)) == ToString(n)[..|ToString(n)| - m]
  {
    if m > 0 {
      CutIsPrefix(n / 10, m - 1);
    }
  }

  /** A number below 10^k has at most k digits. */
  lemma {:induction false} PrintLength(n: nat, k: nat)
    requires k >= 1 && n < Pow10(k)
    ensures |ToString(n)| <= k
  {
    if n >= 10 {
      PrintLength(n / 10, k - 1);
    }
  }

  function Pow10(k: nat): nat { if k == 0 then 1 else 10 * Pow10(k - 1) }

  /** Digit strings that print a number: no leading zero except in "0". */
  predicate Canonical(s: string) { s != "" && AllDigits(s) && (s[0] != '0' || |s| == 1) }

  lemma {:induction false} PrintIsCanonical(n: nat)
    ensures Canonical(ToString(n)) && (n > 0 ==> ToString(n)[0] != '0')
  {
    if n >= 10 { PrintIsCanonical(n / 10); }
  }

  /** Printing what was read gives the string back exactly when it is canonical. */
  lemma {:induction false} ReadThenPrint(s: string)
    requires s != "" && AllDigits(s)
    ensures ToString(ToNat(s)) == s <==> Canonical(s)
  {
    var n := |s| - 1;
    if Canonical(s) {
      if n > 0 {
        assert Canonical(s[..n]);
        ReadThenPrint(s[..n]);
        ReadIsPositive(s[..n]);
      } else {
        assert s[..0] == "";
      }
    } else {
      PrintIsCanonical(ToNat(s));
    }
  }

  lemma {:induction false} ReadIsPositive(s: string)
    requires s != "" && AllDigits(s) && s[0] != '0'
    ensures ToNat(s) > 0
  {
    if |s| > 1 { ReadIsPositive(s[..|s| - 1]); }
  }
}
