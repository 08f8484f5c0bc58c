/** Decimal numerals. */
module Decimals {

  predicate IsDigit(c: char) { '0' <= c <= '9' }

  predicate AllDigits(s: string) {
    forall i :: 0 <= i < |s| ==> IsDigit(s[i])
  }

  function Value(c: char): (v: nat)
    requires IsDigit(c)
    ensures v < 10
  {
    c as int - '0' as int
  }

  function Numeral(v: nat): (c: char)
    requires v < 10
    ensures IsDigit(c) && Value(c) == v
  {
    ('0' as int + v) as char
  }

  function Pow10(k: nat): (p: nat)
    ensures p > 0
  {
    if k == 0 then 1 else 10 * Pow10(k - 1)
  }

  function Number(s: string): nat
    requires AllDigits(s)
  {
    if s == "" then 0 else Number(s[..|s| - 1]) * 10 + Value(s[|s| - 1])
  }

  function Digits(n: nat): (s: string)
    ensures s != "" && AllDigits(s)
  {
    if n < 10 then [Numeral(n)] else Digits(n / 10) + [Numeral(n % 10)]
  }

  function Zeros(k: nat): (s: string)
    ensures |s| == k && AllDigits(s) && forall i :: 0 <= i < k ==> s[i] == '0'
  {
    if k == 0 then "" else Zeros(k - 1) + "0"
  }

  lemma {:induction false} NumberOfDigits(n: nat)
    ensures Number(Digits(n)) == n
  {
    var s := Digits(n);
    if n >= 10 {
      NumberOfDigits(n / 10);
      assert s[..|s| - 1] == Digits(n / 10);
    } else {
      assert s[..0] == "";
    }
  }

  lemma {:induction false} NumberConcat(a: string, b: string)
    requires AllDigits(a) && AllDigits(b)
    ensures AllDigits(a + b) && Number(a + b) == Number(a) * Pow10(|b|) + Number(b)
  {
    if b == "" {
      assert a + b == a;
    } else {
      var front, digit := b[..|b| - 1], b[|b| - 1];
      NumberConcat(a, front);
      assert b == front + [digit];
      assert (a + b)[..|a + b| - 1] == a + front && (a + b)[|a + b| - 1] == digit;
      assert Number(a + b) == Number(a + front) * 10 + Value(digit);
      assert Number(a) * Pow10(|front|) * 10 == Number(a) * Pow10(|b|);
    }
  }

  lemma {:induction false} NumberZeros(k: nat)
    ensures Number(Zeros(k)) == 0
  {
    if k > 0 {
      NumberZeros(k - 1);
      assert Zeros(k)[..k - 1] == Zeros(k - 1);
    }
  }

  /** A numeral without needless leading zeros is the one printed for its number. */
  lemma {:induction false} DigitsOfNumber(s: string)
    requires s != "" && AllDigits(s) && (|s| > 1 ==> s[0] != '0')
    ensures Digits(Number(s)) == s
    ensures |s| > 1 ==> Number(s) >= 10
  {
    var front := s[..|s| - 1];
    if front != "" {
      DigitsOfNumber(front);
      if |front| == 1 {
        assert front[..0] == "" && Value(front[0]) > 0;
      }
      assert s == front + [s[|s| - 1]];
    } else {
      assert s == [s[0]];
    }
  }

  lemma {:induction false} DigitsLead(n: nat)
    ensures |Digits(n)| > 1 <==> n >= 10
    ensures n > 0 ==> Digits(n)[0] != '0'
  {
    if n >= 10 { DigitsLead(n / 10); }
  }
}
