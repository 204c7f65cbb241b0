/** Decimal numerals. */
module Decimals {

  function Digit(d: nat): char
    requires d < 10
  {
    '0' + d as char
  }

  predicate IsDigit(c: char) { '0' <= c <= '9' }

  predicate IsNumeral(s: string) { s != "" && forall c <- s :: IsDigit(c) }

  /** The shortest numeral of `n`. */
  function Decimal(n: nat): string {
    if n < 10 then [Digit(n)] else Decimal(n / 10) + [Digit(n % 10)]
  }

  function ValueOf(s: string): nat
    requires forall c <- s :: IsDigit(c)
  {
    if s == "" then 0
    else
      assert IsDigit(s[|s| - 1]);
      ValueOf(s[..|s| - 1]) * 10 + (s[|s| - 1] - '0') as nat
  }

  lemma {:induction false} DecimalRoundTrip(n: nat)
    ensures IsNumeral(Decimal(n)) && ValueOf(Decimal(n)) == n
    ensures n > 0 ==> Decimal(n)[0] != '0'
  {
    if n >= 10 {
      DecimalRoundTrip(n / 10);
      var s := Decimal(n);
      assert s[..|s| - 1] == Decimal(n / 10);
    } else {
      assert [Digit(n)][..0] == "";
    }
  }

  function DigitValue(c: char): (d: nat)
    requires IsDigit(c)
    ensures d < 10 && Digit(d) == c
  {
    (c - '0') as nat
  }

  function Pow10(n: nat): (p: nat)
    ensures p > 0
  {
    if n == 0 then 1 else 10 * Pow10(n - 1)
  }

  lemma ValueOfOne(c: char)
    requires IsDigit(c)
    ensures ValueOf([c]) == DigitValue(c)
  {
    assert [c][..0] == "";
  }

  lemma {:induction false} ValueOfConcat(a: string, b: string)
    requires forall c <- a + b :: IsDigit(c)
    ensures (forall c <- a :: IsDigit(c)) && (forall c <- b :: IsDigit(c))
    ensures ValueOf(a + b) == ValueOf(a) * Pow10(|b|) + ValueOf(b)
  {
    assert forall c <- a :: c in a + b;
    assert forall c <- b :: c in a + b;
    if b == "" {
      assert a + b == a;
    } else {
      var n := |b| - 1;
      assert (a + b)[..|a| + n] == a + b[..n];
      ValueOfConcat(a, b[..n]);
      TenTimes(ValueOf(a), Pow10(n));
    }
  }

  lemma TenTimes(x: nat, p: nat)
    ensures x * p * 10 == x * (10 * p)
  {
  }

  lemma {:induction false} ValueBelow(s: string)
    requires forall c <- s :: IsDigit(c)
    ensures ValueOf(s) < Pow10(|s|)
  {
    if s != "" {
      var n := |s| - 1;
      assert s[n] in s && forall c <- s[..n] :: c in s;
      ValueBelow(s[..n]);
    }
  }
}
