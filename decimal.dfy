/** Decimal digit strings: what `int()` reads and what `str()` / `%d` write for naturals. */
module Decimal {

  /** ASCII decimal digit. */
  predicate IsDigit(c: char) {
    '0' <= c <= '9'
  }

  predicate AllDigits(s: string) {
    forall k :: 0 <= k < |s| ==> IsDigit(s[k])
  }

  function DigitValue(c: char): (d: nat)
    requires IsDigit(c)
    ensures d < 10
  {
    c as int - '0' as int
  }

  function DigitChar(d: nat): (c: char)
    requires d < 10
    ensures IsDigit(c) && DigitValue(c) == d
  {
    ('0' as int + d) as char
  }

  /** The value `int(s)` gives for a string of ASCII digits (leading zeros allowed). */
  function Value(s: string): (n: nat)
    requires AllDigits(s)
    ensures n < Pow10(|s|)
    decreases |s|
  {
    if s == [] then 0
    else
      var m := Value(s[..|s| - 1]);
      assert m * 10 + 10 <= Pow10(|s| - 1) * 10;
      m * 10 + DigitValue(s[|s| - 1])
  }

  /** `str(n)` for a natural number: shortest decimal form, read back by `Value`. */
  function Show(n: nat): (s: string)
    ensures 1 <= |s| && AllDigits(s)
    ensures Value(s) == n
    ensures |s| == 1 <==> n < 10
    ensures s[0] != '0' || n == 0
  {
    if n < 10 then [DigitChar(n)]
    else
      var s := Show(n / 10) + [DigitChar(n % 10)];
      assert s[..|s| - 1] == Show(n / 10);
      s
  }

  function Pow10(k: nat): (p: nat)
    ensures p >= 1 && (k >= 1 ==> p >= 10)
  {
    if k == 0 then 1 else 10 * Pow10(k - 1)
  }

  /** `str(n)` has at most `k` digits exactly when `n < 10^k`. */
  lemma {:induction false} ShowLength(n: nat, k: nat)
    requires k >= 1
    ensures |Show(n)| <= k <==> n < Pow10(k)
  {
    if n >= 10 {
      assert |Show(n)| == |Show(n / 10)| + 1;
      if k > 1 {
        ShowLength(n / 10, k - 1);
      }
    }
  }

  /** A number below 10000 has at most four digits. */
  lemma FourDigits(n: nat)
    requires n < 10000
    ensures |Show(n)| <= 4
  {
    assert Pow10(4) == 10000;
    ShowLength(n, 4);
  }

  /** A digit string whose leading digit is not 0 has a positive value. */
  lemma {:induction false} ValuePositive(s: string)
    requires AllDigits(s) && |s| >= 1 && s[0] != '0'
    ensures Value(s) >= 1
  {
    if |s| > 1 {
      ValuePositive(s[..|s| - 1]);
    }
  }

  /** The other direction of the round trip: a canonical digit string is what `Show` gives for its value. */
  lemma {:induction false} ShowValue(s: string)
    requires AllDigits(s) && |s| >= 1 && (s[0] != '0' || |s| == 1)
    ensures Show(Value(s)) == s
  {
    if |s| > 1 {
      var t := s[..|s| - 1];
      ValuePositive(t);
      ShowValue(t);
      var n := Value(s);
      assert n / 10 == Value(t) && n % 10 == DigitValue(s[|s| - 1]);
      assert DigitChar(n % 10) == s[|s| - 1];
      assert s == t + [s[|s| - 1]];
    } else {
      assert DigitChar(DigitValue(s[0])) == s[0];
    }
  }
}
