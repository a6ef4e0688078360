/** Base-10 printing and reading, as done by Go's strconv. */
module Decimal {

  predicate IsDigit(c: char) { '0' <= c <= '9' }

  predicate AllDigits(s: string) { forall i | 0 <= i < |s| :: IsDigit(s[i]) }

  function DigitChar(d: nat): char
    requires d < 10
  {
    '0' + d as char
  }

  function DigitValue(c: char): nat
    requires IsDigit(c)
  {
    (c - '0') as nat
  }

  /** strconv.FormatInt / AppendInt for a non-negative number. */
  function Print(n: nat): (s: string)
    ensures |s| > 0 && AllDigits(s)
    ensures s[0] == '0' ==> n == 0
  {
    if n < 10 then [DigitChar(n)] else Print(n / 10) + [DigitChar(n % 10)]
  }

  /** The number a digit string denotes; the empty string denotes 0. */
  function Value(s: string): nat
    requires AllDigits(s)
  {
    if s == "" then 0 else Value(s[..|s| - 1]) * 10 + DigitValue(s[|s| - 1])
  }

  function Pow10(n: nat): (p: nat)
    ensures p > 0
  {
    if n == 0 then 1 else 10 * Pow10(n - 1)
  }

  lemma {:induction false} ValueOfPrint(n: nat)
    ensures Value(Print(n)) == n
  {
    if n < 10 {
    } else {
      ValueOfPrint(n / 10);
      assert Print(n)[..|Print(n)| - 1] == Print(n / 10);
    }
  }

  lemma {:induction false} PrintInjective(a: nat, b: nat)
    requires Print(a) == Print(b)
    ensures a == b
  {
    ValueOfPrint(a);
    ValueOfPrint(b);
  }

  /** A number below 10^k, and only such a number, prints in at most k digits (k > 0). */
  lemma {:induction false} PrintLength(n: nat, k: nat)
    requires k > 0
    ensures |Print(n)| <= k <==> n < Pow10(k)
  {
    if n < 10 {
      PowAtLeast(k);
    } else if k > 1 {
      PrintLength(n / 10, k - 1);
    } else {
      assert Pow10(1) == 10 * Pow10(0);
    }
  }

  lemma {:induction false} PowAtLeast(k: nat)
    requires k > 0
    ensures Pow10(k) >= 10
  {
    if k == 1 {
    } else {
      PowAtLeast(k - 1);
    }
  }

  /** Leading zeros do not change the value. */
  lemma {:induction false} ValueOfPadded(zeros: string, s: string)
    requires AllDigits(s) && forall i | 0 <= i < |zeros| :: zeros[i] == '0'
    ensures AllDigits(zeros + s) && Value(zeros + s) == Value(s)
  {
    if s != "" {
      ValueOfPadded(zeros, s[..|s| - 1]);
      assert (zeros + s)[..|zeros + s| - 1] == zeros + s[..|s| - 1];
    } else if zeros != "" {
      assert zeros + s == zeros;
      ValueOfPadded(zeros[..|zeros| - 1], "");
      assert zeros[..|zeros| - 1] + "" == zeros[..|zeros| - 1];
    } else {
      assert zeros + s == "";
    }
  }

  /** Decimal notation: a number below ten is its digit, and one more digit goes behind. */
  lemma PrintNotation(m: nat, d: nat)
    requires d < 10
    ensures Print(d) == ["0123456789"[d]]
    ensures m > 0 ==> Print(10 * m + d) == Print(m) + ["0123456789"[d]]
  {
    assert DigitChar(d) == "0123456789"[d] by { DigitIs(d); }
    assert (10 * m + d) / 10 == m && (10 * m + d) % 10 == d;
  }

  lemma DigitIs(d: nat)
    requires d < 10
    ensures DigitChar(d) == "0123456789"[d]
  {
  }
}
