/** The Luhn checksum of the example project (ISO/IEC 7812-1, Annex B), for digit strings of any length. */
module Luhn {
  import opened Decimals
  import opened Options

  /** What one character adds, doubled or not. */
  function Term(c: char, double: bool): int {
    var value := c as int - 48;
    if !double then value else if value * 2 > 9 then value * 2 - 9 else value * 2
  }

  /** The sum read from the right; `double` says whether the last character is doubled. */
  function Sum(s: string, double: bool): int {
    if s == "" then 0 else Term(s[|s| - 1], double) + Sum(s[..|s| - 1], !double)
  }

  /** luhnChecksum; None is the TypeError for anything but digits. */
  method LuhnChecksum(digits: string) returns (checksum: Option<nat>)
    ensures checksum == if AllDigits(digits) then Some(Sum(digits, false) % 10) else None
  {
    var sum := 0;
    var double := false;
    var index := |digits| - 1;
    assert digits[..|digits|] == digits;
    while index >= 0
      invariant -1 <= index < |digits|
      invariant forall i :: index < i < |digits| ==> IsDigit(digits[i])
      invariant Sum(digits, false) == sum + Sum(digits[..index + 1], double)
    {
      assert digits[..index + 1][..index] == digits[..index];
      var value := digits[index] as int - 48;
      if value < 0 || value > 9 { return None; }
      if double {
        value := value * 2;
        if value > 9 { value := value - 9; }
      }
      sum := sum + value;
      double := !double;
      index := index - 1;
    }
    assert digits[..0] == "";
    return Some(sum % 10);
  }

  function Checksum(s: string): nat { Sum(s, false) % 10 }

  predicate Odd(n: nat) { n % 2 == 1 }

  /** A string's sum is the sum over its two halves, the left one shifted by the right one's length. */
  lemma {:induction false} SumConcat(a: string, b: string, double: bool)
    ensures Sum(a + b, double) == Sum(b, double) + Sum(a, double != Odd(|b|))
  {
    if b == "" {
      assert a + b == a;
    } else {
      var front := b[..|b| - 1];
      SumConcat(a, front, !double);
      assert (a + b)[..|a + b| - 1] == a + front;
      assert Odd(|b|) != Odd(|front|);
    }
  }

  lemma SumOne(c: char, double: bool)
    ensures Sum([c], double) == Term(c, double)
  {
    assert [c][..0] == "";
  }

  lemma SumAround(a: string, c: char, b: string)
    ensures Sum(a + [c] + b, false) == Sum(a, !Odd(|b|)) + Term(c, Odd(|b|)) + Sum(b, false)
  {
    SumConcat(a + [c], b, false);
    SumConcat(a, [c], Odd(|b|));
    SumOne(c, Odd(|b|));
  }

  /** Doubling permutes the ten digits. */
  lemma TermsDiffer(x: char, y: char, double: bool)
    requires IsDigit(x) && IsDigit(y)
    ensures 0 <= Term(x, double) <= 9
    ensures Term(x, double) == Term(y, double) <==> x == y
  {
  }

  lemma CloseSums(c: nat, m: int, n: int)
    requires c == m % 10 && -9 <= n - m <= 9
    ensures n % 10 == c <==> n == m
  {
  }

  /** Changing any one digit changes the checksum. */
  lemma SingleErrorDetected(a: string, x: char, y: char, b: string)
    requires IsDigit(x) && IsDigit(y)
    ensures Checksum(a + [x] + b) == Checksum(a + [y] + b) <==> x == y
  {
    SumAround(a, x, b);
    SumAround(a, y, b);
    TermsDiffer(x, y, Odd(|b|));
    TermsDiffer(y, x, Odd(|b|));
    CloseSums(Checksum(a + [x] + b), Sum(a + [x] + b, false), Sum(a + [y] + b, false));
  }

  lemma SumAroundTwo(a: string, x: char, y: char, b: string)
    ensures Sum(a + [x, y] + b, false) == Sum(a, Odd(|b|)) + Term(x, !Odd(|b|)) + Term(y, Odd(|b|)) + Sum(b, false)
  {
    assert a + [x, y] + b == (a + [x]) + [y] + b;
    SumAround(a + [x], y, b);
    SumConcat(a, [x], !Odd(|b|));
    SumOne(x, !Odd(|b|));
  }

  /** Swapping two different neighbours goes unnoticed exactly for 0 and 9. */
  lemma SwapDetectedExceptNineZero(a: string, x: char, y: char, b: string)
    requires IsDigit(x) && IsDigit(y)
    ensures Checksum(a + [x, y] + b) == Checksum(a + [y, x] + b) <==> x == y || {x, y} == {'0', '9'}
  {
    SumAroundTwo(a, x, y, b);
    SumAroundTwo(a, y, x, b);
    SwapTerms(x, y);
    CloseSums(Checksum(a + [x, y] + b), Sum(a + [x, y] + b, false), Sum(a + [y, x] + b, false));
    assert {x, y} == {'0', '9'} <==> (x == '0' && y == '9') || (x == '9' && y == '0') by {
      if {x, y} == {'0', '9'} { assert x in {'0', '9'} && y in {'0', '9'} && '0' in {x, y} && '9' in {x, y}; }
    }
  }

  lemma SwapTerms(x: char, y: char)
    requires IsDigit(x) && IsDigit(y)
    ensures -9 <= Term(x, true) + Term(y, false) - Term(y, true) - Term(x, false) <= 9
    ensures Term(x, true) + Term(y, false) == Term(y, true) + Term(x, false) <==>
            x == y || (x == '0' && y == '9') || (x == '9' && y == '0')
  {
  }

  lemma SumWithDigit(payload: string, d: char)
    requires IsDigit(d)
    ensures Sum(payload + [d], false) == Sum(payload, true) + Value(d)
  {
    assert payload + [d] + "" == payload + [d];
    SumAround(payload, d, "");
  }

  lemma OneDigitCompletes(s: int, c: char, d: char)
    requires IsDigit(c) && IsDigit(d) && (s + Value(c)) % 10 == 0
    ensures (s + Value(d)) % 10 == 0 <==> d == c
  {
  }

  lemma CompletingDigit(s: int)
    ensures (s + (10 - s % 10) % 10) % 10 == 0
  {
  }

  /** Exactly one check digit completes a number. */
  lemma CheckDigitIsUnique(payload: string) returns (c: char)
    ensures IsDigit(c) && Checksum(payload + [c]) == 0
    ensures forall d :: IsDigit(d) && Checksum(payload + [d]) == 0 ==> d == c
  {
    var s := Sum(payload, true);
    c := Numeral((10 - s % 10) % 10);
    SumWithDigit(payload, c);
    CompletingDigit(s);
    forall d | IsDigit(d) && Checksum(payload + [d]) == 0 ensures d == c {
      SumWithDigit(payload, d);
      OneDigitCompletes(s, c, d);
    }
  }

  // --- isValidCardNumber ----------------------------------------------------------------------------------------

  /** JavaScript's \s, and the hyphen. */
  predicate IsSeparator(c: char) {
    || '\t' <= c <= '\r' || c == ' ' || c == '\U{a0}' || c == '\U{1680}' || '\U{2000}' <= c <= '\U{200a}' || c == '\U{2028}'
    || c == '\U{2029}' || c == '\U{202f}' || c == '\U{205f}' || c == '\U{3000}' || c == '\U{feff}' || c == '-'
  }

  lemma SeparatorsAre(c: char)
    ensures IsSeparator(c) <==>
            var n := c as int;
            9 <= n <= 13 || 8192 <= n <= 8202 || n in {32, 45, 160, 5760, 8232, 8233, 8239, 8287, 12288, 65279}
  {
  }

  function Unseparated(s: string): string {
    if s == "" then "" else (if IsSeparator(s[0]) then "" else [s[0]]) + Unseparated(s[1..])
  }

  method IsValidCardNumber(input: string) returns (valid: bool)
    ensures valid == ValidCardNumber(input)
  {
    var digits := Unseparated(input);
    if |digits| < 12 || |digits| > 19 { return false; }
    var checksum := LuhnChecksum(digits);
    return checksum == Some(0);
  }

  predicate ValidCardNumber(input: string) {
    var digits := Unseparated(input);
    12 <= |digits| <= 19 && AllDigits(digits) && Checksum(digits) == 0
  }

  lemma {:induction false} UnseparatedConcat(a: string, b: string)
    ensures Unseparated(a + b) == Unseparated(a) + Unseparated(b)
  {
    if a == "" {
      assert a + b == b;
    } else {
      assert (a + b)[1..] == a[1..] + b;
      UnseparatedConcat(a[1..], b);
    }
  }

  lemma UnseparatedAround(a: string, c: char, b: string)
    ensures Unseparated(a + [c] + b) == Unseparated(a) + (if IsSeparator(c) then "" else [c]) + Unseparated(b)
  {
    UnseparatedConcat(a + [c], b);
    UnseparatedConcat(a, [c]);
    assert [c][1..] == "";
  }

  /** Separators never matter, wherever they stand. */
  lemma SeparatorsDoNotMatter(a: string, c: char, b: string)
    requires IsSeparator(c)
    ensures ValidCardNumber(a + [c] + b) == ValidCardNumber(a + b)
  {
    UnseparatedAround(a, c, b);
    UnseparatedConcat(a, b);
    assert Unseparated(a) + "" == Unseparated(a);
  }

  /** Mistyping one digit of a valid number makes it invalid, however it is grouped. */
  lemma MistypedDigitIsRefused(a: string, x: char, y: char, b: string)
    requires ValidCardNumber(a + [x] + b) && IsDigit(x) && IsDigit(y) && x != y
    ensures !ValidCardNumber(a + [y] + b)
  {
    UnseparatedAround(a, x, b);
    UnseparatedAround(a, y, b);
    SingleErrorDetected(Unseparated(a), x, y, Unseparated(b));
  }

  lemma {:induction false} OnlySeparators(s: string)
    requires forall i :: 0 <= i < |s| ==> IsSeparator(s[i])
    ensures Unseparated(s) == ""
  {
    if s != "" { OnlySeparators(s[1..]); }
  }

  lemma UnseparatedPair(a: string, x: char, between: string, y: char, b: string)
    requires IsDigit(x) && IsDigit(y) && forall i :: 0 <= i < |between| ==> IsSeparator(between[i])
    ensures Unseparated(a + [x] + between + [y] + b) == Unseparated(a) + [x, y] + Unseparated(b)
  {
    var front := a + [x] + between;
    UnseparatedAround(front, y, b);
    assert Unseparated(front) == Unseparated(a) + [x] by {
      OnlySeparators(between);
      UnseparatedAround(a, x, between);
    }
    assert [x, y] == [x] + [y];
  }

  /** Swapping two neighbouring digits of a valid number, even across a separator, leaves it valid exactly for equal digits
      and for 0 and 9. */
  lemma SwappedDigitsAreRefused(a: string, x: char, between: string, y: char, b: string)
    requires IsDigit(x) && IsDigit(y) && forall i :: 0 <= i < |between| ==> IsSeparator(between[i])
    requires ValidCardNumber(a + [x] + between + [y] + b)
    ensures ValidCardNumber(a + [y] + between + [x] + b) <==> x == y || {x, y} == {'0', '9'}
  {
    UnseparatedPair(a, x, between, y, b);
    UnseparatedPair(a, y, between, x, b);
    var front, back := Unseparated(a), Unseparated(b);
    assert AllDigits(front + [x, y] + back) <==> AllDigits(front + [y, x] + back) by { SameDigits(front, x, y, back); }
    SwapDetectedExceptNineZero(front, x, y, back);
    if Checksum(front + [y, x] + back) == 0 { assert Checksum(front + [x, y] + back) == 0; }
  }

  lemma SameDigits(a: string, x: char, y: char, b: string)
    requires IsDigit(x) && IsDigit(y)
    ensures AllDigits(a + [x, y] + b) <==> AllDigits(a) && AllDigits(b)
    ensures AllDigits(a + [y, x] + b) <==> AllDigits(a) && AllDigits(b)
  {
    if AllDigits(a + [x, y] + b) {
      forall i | 0 <= i < |a| ensures IsDigit(a[i]) { assert (a + [x, y] + b)[i] == a[i]; }
      forall i | 0 <= i < |b| ensures IsDigit(b[i]) { assert (a + [x, y] + b)[|a| + 2 + i] == b[i]; }
    }
    if AllDigits(a + [y, x] + b) {
      forall i | 0 <= i < |a| ensures IsDigit(a[i]) { assert (a + [y, x] + b)[i] == a[i]; }
      forall i | 0 <= i < |b| ensures IsDigit(b[i]) { assert (a + [y, x] + b)[|a| + 2 + i] == b[i]; }
    }
  }

  lemma {:induction false} PlainDigits(s: string)
    requires AllDigits(s)
    ensures Unseparated(s) == s
  {
    if s != "" {
      PlainDigits(s[1..]);
      assert s == [s[0]] + s[1..] && !IsSeparator(s[0]);
    }
  }

  lemma {:induction false} ZerosAddNothing(s: string, double: bool)
    requires forall i :: 0 <= i < |s| ==> s[i] == '0'
    ensures Sum(s, double) == 0
  {
    if s != "" { ZerosAddNothing(s[..|s| - 1], !double); }
  }

  /** There are valid numbers of 12 to 19 digits, and of no other length. */
  lemma LengthsExactly(n: nat)
    ensures (exists s :: |Unseparated(s)| == n && ValidCardNumber(s)) <==> 12 <= n <= 19
  {
    ZerosAddNothing(Zeros(n), false);
    PlainDigits(Zeros(n));
    assert |Unseparated(Zeros(n))| == n;
    if 12 <= n <= 19 { assert ValidCardNumber(Zeros(n)); }
  }
}
