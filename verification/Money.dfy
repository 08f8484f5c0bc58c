/** Money in minor units: the example project's decimal text and its even split. */
module Money {
  import opened Common
  import opened Decimals
  import opened Options

  // --- Text -----------------------------------------------------------------------------------------------------

  datatype Answer = Amount(minor: int) | EmptyAmount | MalformedAmount | UnsupportedCurrency | TooManyDecimals

  function MinorUnits(currency: string): Option<nat> {
    if currency in {"USD", "EUR", "GBP"} then Some(2) else if currency == "JPY" then Some(0) else None
  }

  /** What String.prototype.trim removes. */
  predicate IsTrimmed(c: char) {
    || '\t' <= c <= '\r' || c == ' ' || c == '\U{a0}' || c == '\U{1680}' || '\U{2000}' <= c <= '\U{200a}' || c == '\U{2028}'
    || c == '\U{2029}' || c == '\U{202f}' || c == '\U{205f}' || c == '\U{3000}' || c == '\U{feff}'
  }

  lemma TrimmedAre(c: char)
    ensures IsTrimmed(c) <==>
            var n := c as int;
            9 <= n <= 13 || 8192 <= n <= 8202 || n in {32, 160, 5760, 8232, 8233, 8239, 8287, 12288, 65279}
  {
  }

  function TrimStart(s: string): string {
    if s != "" && IsTrimmed(s[0]) then TrimStart(s[1..]) else s
  }

  function TrimEnd(s: string): string {
    if s != "" && IsTrimmed(s[|s| - 1]) then TrimEnd(s[..|s| - 1]) else s
  }

  function Trim(s: string): string { TrimEnd(TrimStart(s)) }

  /** Where the point is, or the end. */
  function PointAt(s: string): (n: nat)
    ensures n <= |s| && (n < |s| ==> s[n] == '.') && forall i :: 0 <= i < n ==> s[i] != '.'
  {
    if s == "" || s[0] == '.' then 0 else 1 + PointAt(s[1..])
  }

  /** An optional minus, digits, and if there is a point digits behind it. */
  datatype Numeric = Numeric(negative: bool, whole: string, fraction: string)

  function ReadNumeric(t: string): (r: Option<Numeric>)
    ensures r.Some? ==> AllDigits(r.value.whole) && AllDigits(r.value.fraction)
  {
    if t != "" && t[0] == '-' then ReadBody(true, t[1..]) else ReadBody(false, t)
  }

  function ReadBody(negative: bool, body: string): (r: Option<Numeric>)
    ensures r.Some? ==> AllDigits(r.value.whole) && AllDigits(r.value.fraction)
  {
    var p := PointAt(body);
    var whole, fraction := body[..p], if p < |body| then body[p + 1..] else "";
    if whole == "" || !AllDigits(whole) || !AllDigits(fraction) || (p < |body| && fraction == "") then None
    else Some(Numeric(negative, whole, fraction))
  }

  function ParseAmount(value: string, currency: string): Answer {
    var t := Trim(value);
    if t == "" then EmptyAmount
    else
      match ReadNumeric(t)
      case None => MalformedAmount
      case Some(n) =>
        match MinorUnits(currency)
        case None => UnsupportedCurrency
        case Some(exponent) =>
          if |n.fraction| > exponent then TooManyDecimals
          else
            var magnitude := Number(n.whole + (n.fraction + Zeros(exponent - |n.fraction|)));
            Amount(Signed(n.negative, magnitude))
  }

  function Signed(negative: bool, n: nat): int { if negative then 0 - n else n }

  function Abs(n: int): nat { if n < 0 then -n else n }

  function PadStart(s: string, width: nat): string {
    if |s| >= width then s else Zeros(width - |s|) + s
  }

  /** None is the TypeError for a currency that is not supported. */
  function FormatAmount(minor: int, currency: string): Option<string> {
    match MinorUnits(currency) case None => None case Some(exponent) => Some(Decimal(minor, exponent))
  }

  function Decimal(minor: int, exponent: nat): string {
    var sign := if minor < 0 then "-" else "";
    var digits := PadStart(Digits(Abs(minor)), exponent + 1);
    if exponent == 0 then sign + digits
    else sign + (digits[..|digits| - exponent] + ("." + digits[|digits| - exponent..]))
  }

  function Body(whole: string, fraction: string): string {
    whole + if fraction == "" then "" else "." + fraction
  }

  function Written(negative: bool, whole: string, fraction: string): string {
    if negative then "-" + Body(whole, fraction) else Body(whole, fraction)
  }

  /** The one way to write an amount: no space around it, no needless leading zeros, all its decimals, a minus only below zero. */
  ghost predicate Canonical(t: string, exponent: nat) {
    exists negative: bool, whole: string, fraction: string :: Writes(t, exponent, negative, whole, fraction)
  }

  ghost predicate Writes(t: string, exponent: nat, negative: bool, whole: string, fraction: string) {
    && whole != "" && AllDigits(whole) && (|whole| > 1 ==> whole[0] != '0')
    && |fraction| == exponent && AllDigits(fraction)
    && (negative ==> Number(whole + fraction) != 0)
    && t == Written(negative, whole, fraction)
  }

  // --- The round trip -------------------------------------------------------------------------------------------

  lemma {:induction false} PointBehind(whole: string, rest: string)
    requires AllDigits(whole) && (rest == "" || rest[0] == '.')
    ensures PointAt(whole + rest) == |whole|
  {
    if whole != "" {
      assert (whole + rest)[1..] == whole[1..] + rest;
      assert (whole + rest)[0] == whole[0];
      PointBehind(whole[1..], rest);
    } else {
      assert whole + rest == rest;
    }
  }

  lemma TrimNothing(s: string)
    requires s != "" && !IsTrimmed(s[0]) && !IsTrimmed(s[|s| - 1])
    ensures Trim(s) == s
  {
  }

  lemma BodyReads(negative: bool, whole: string, fraction: string)
    requires whole != "" && AllDigits(whole) && AllDigits(fraction)
    ensures ReadBody(negative, Body(whole, fraction)) == Some(Numeric(negative, whole, fraction))
  {
    var body := Body(whole, fraction);
    PointBehind(whole, if fraction == "" then "" else "." + fraction);
    assert body[..|whole|] == whole;
    if fraction != "" { assert body[|whole| + 1..] == fraction; }
  }

  lemma NothingToTrim(negative: bool, whole: string, fraction: string)
    requires whole != "" && AllDigits(whole) && AllDigits(fraction)
    ensures var t := Written(negative, whole, fraction); t != "" && Trim(t) == t && (t[0] == '-' <==> negative)
  {
    var t := Written(negative, whole, fraction);
    assert t[0] == if negative then '-' else whole[0];
    assert t[|t| - 1] == if fraction != "" then fraction[|fraction| - 1] else whole[|whole| - 1];
    TrimNothing(t);
  }

  /** Text with a minus, digits and decimals in the right places reads as just that. */
  lemma WrittenReads(negative: bool, whole: string, fraction: string)
    requires whole != "" && AllDigits(whole) && AllDigits(fraction)
    ensures ReadNumeric(Written(negative, whole, fraction)) == Some(Numeric(negative, whole, fraction))
  {
    var t, body := Written(negative, whole, fraction), Body(whole, fraction);
    NothingToTrim(negative, whole, fraction);
    BodyReads(negative, whole, fraction);
    assert negative ==> t[1..] == body;
    assert !negative ==> t == body;
  }

  lemma ReadIsWritten(t: string)
    requires ReadNumeric(t).Some?
    ensures var n := ReadNumeric(t).value; n.whole != "" && t == Written(n.negative, n.whole, n.fraction)
  {
    if t != "" && t[0] == '-' {
      BodyIsWritten(true, t[1..]);
      FrontAndRest(t);
    } else {
      BodyIsWritten(false, t);
    }
  }

  lemma FrontAndRest(t: string)
    requires t != ""
    ensures t == [t[0]] + t[1..]
  {
  }

  lemma BodyIsWritten(negative: bool, body: string)
    requires ReadBody(negative, body).Some?
    ensures var n := ReadBody(negative, body).value; n.negative == negative && n.whole != "" && body == Body(n.whole, n.fraction)
  {
    var p := PointAt(body);
    if p < |body| {
      assert body == body[..p] + ("." + body[p + 1..]);
    } else {
      assert body[..p] == body == body + "";
    }
  }

  /** Trimmed text is malformed exactly if it is not an optional minus, digits, and optionally a point with digits. */
  lemma MalformedExactly(t: string)
    ensures ReadNumeric(t).None? <==>
            forall negative: bool, whole: string, fraction: string ::
              whole != "" && AllDigits(whole) && AllDigits(fraction) ==> t != Written(negative, whole, fraction)
  {
    if ReadNumeric(t).Some? { ReadIsWritten(t); }
    forall negative: bool, whole: string, fraction: string
      | whole != "" && AllDigits(whole) && AllDigits(fraction) && t == Written(negative, whole, fraction)
      ensures ReadNumeric(t).Some?
    {
      WrittenReads(negative, whole, fraction);
    }
  }

  lemma WrittenParses(negative: bool, whole: string, fraction: string, currency: string)
    requires MinorUnits(currency).Some? && whole != "" && AllDigits(whole)
    requires |fraction| == MinorUnits(currency).value && AllDigits(fraction)
    ensures ParseAmount(Written(negative, whole, fraction), currency) == Amount(Signed(negative, Number(whole + fraction)))
  {
    NothingToTrim(negative, whole, fraction);
    WrittenReads(negative, whole, fraction);
    assert fraction + Zeros(0) == fraction;
  }

  /** Padded digits keep their number and have at most the one leading zero they need. */
  lemma PaddedDigits(n: nat, exponent: nat) returns (whole: string, fraction: string)
    ensures var digits := PadStart(Digits(n), exponent + 1);
            && |digits| > exponent && whole == digits[..|digits| - exponent] && fraction == digits[|digits| - exponent..]
            && AllDigits(whole) && AllDigits(fraction) && (|whole| > 1 ==> whole[0] != '0')
            && whole + fraction == digits && Number(whole + fraction) == n
  {
    var digits := PadStart(Digits(n), exponent + 1);
    NumberOfDigits(n);
    DigitsLead(n);
    if |Digits(n)| < exponent + 1 {
      NumberConcat(Zeros(exponent + 1 - |Digits(n)|), Digits(n));
      NumberZeros(exponent + 1 - |Digits(n)|);
    }
    whole, fraction := digits[..|digits| - exponent], digits[|digits| - exponent..];
    assert whole + fraction == digits;
  }

  lemma FormatWrites(minor: int, exponent: nat) returns (whole: string, fraction: string)
    ensures Writes(Decimal(minor, exponent), exponent, minor < 0, whole, fraction)
    ensures Number(whole + fraction) == Abs(minor)
  {
    whole, fraction := PaddedDigits(Abs(minor), exponent);
    var digits := PadStart(Digits(Abs(minor)), exponent + 1);
    assert exponent == 0 ==> whole == digits;
    assert Decimal(minor, exponent) == Written(minor < 0, whole, fraction);
  }

  /** parseAmount undoes formatAmount, for every amount in every currency. */
  lemma ParseFormat(minor: int, currency: string)
    requires MinorUnits(currency).Some?
    ensures FormatAmount(minor, currency).Some? && ParseAmount(FormatAmount(minor, currency).value, currency) == Amount(minor)
  {
    var whole, fraction := FormatWrites(minor, MinorUnits(currency).value);
    WrittenParses(minor < 0, whole, fraction, currency);
  }

  lemma WritesIsUnique(t: string, exponent: nat, negative: bool, whole: string, fraction: string)
    requires Writes(t, exponent, negative, whole, fraction)
    ensures t == Decimal(Signed(negative, Number(whole + fraction)), exponent)
  {
    var n := Number(whole + fraction);
    var w, f := FormatWrites(Signed(negative, n), exponent);
    SameDigits(whole, fraction, w, f);
  }

  /** Two numerals of one number with equally many decimals and no needless leading zeros are the same. */
  lemma SameDigits(whole: string, fraction: string, w: string, f: string)
    requires whole != "" && AllDigits(whole) && (|whole| > 1 ==> whole[0] != '0') && AllDigits(fraction)
    requires w != "" && AllDigits(w) && (|w| > 1 ==> w[0] != '0') && AllDigits(f) && |f| == |fraction|
    requires Number(whole + fraction) == Number(w + f)
    ensures whole == w && fraction == f
  {
    NumberConcat(whole, fraction);
    NumberConcat(w, f);
    NumberBound(fraction);
    NumberBound(f);
    SplitNumber(Number(whole), Number(fraction), Number(w), Number(f), Pow10(|f|));
    DigitsOfNumber(whole);
    DigitsOfNumber(w);
    SameLength(fraction, f);
  }

  lemma SplitNumber(a: nat, b: nat, c: nat, d: nat, p: nat)
    requires p > 0 && b < p && d < p && a * p + b == c * p + d
    ensures a == c && b == d
  {
    MultiplesApart(a, c, p);
    MultiplesApart(c, a, p);
  }

  lemma {:induction false} NumberBound(s: string)
    requires AllDigits(s)
    ensures Number(s) < Pow10(|s|)
  {
    if s != "" { NumberBound(s[..|s| - 1]); }
  }

  lemma {:induction false} SameLength(a: string, b: string)
    requires AllDigits(a) && AllDigits(b) && |a| == |b| && Number(a) == Number(b)
    ensures a == b
  {
    if a != "" {
      SameLength(a[..|a| - 1], b[..|b| - 1]);
      assert a == a[..|a| - 1] + [a[|a| - 1]] && b == b[..|b| - 1] + [b[|b| - 1]];
    }
  }

  /** Formatting a parsed amount gives its canonical text: the same text back exactly if it was canonical. */
  lemma FormatParse(t: string, currency: string)
    requires MinorUnits(currency).Some? && ParseAmount(t, currency).Amount?
    ensures var exponent := MinorUnits(currency).value;
            var back := FormatAmount(ParseAmount(t, currency).minor, currency).value;
            && Canonical(back, exponent) && ParseAmount(back, currency) == ParseAmount(t, currency)
            && (back == t <==> Canonical(t, exponent))
  {
    var exponent, minor := MinorUnits(currency).value, ParseAmount(t, currency).minor;
    var whole, fraction := FormatWrites(minor, exponent);
    ParseFormat(minor, currency);
    if Canonical(t, exponent) {
      var negative, w, f :| Writes(t, exponent, negative, w, f);
      WritesIsUnique(t, exponent, negative, w, f);
      WrittenParses(negative, w, f, currency);
    }
  }

  // --- parseAmount in words -------------------------------------------------------------------------------------

  predicate AllTrimmed(s: string) {
    forall i :: 0 <= i < |s| ==> IsTrimmed(s[i])
  }

  lemma {:induction false} TrimFront(pre: string, core: string)
    requires AllTrimmed(pre) && (core == "" || !IsTrimmed(core[0]))
    ensures TrimStart(pre + core) == core
  {
    if pre == "" {
      assert pre + core == core;
    } else {
      assert (pre + core)[1..] == pre[1..] + core;
      TrimFront(pre[1..], core);
    }
  }

  lemma {:induction false} TrimBack(core: string, post: string)
    requires AllTrimmed(post) && (core == "" || !IsTrimmed(core[|core| - 1]))
    ensures TrimEnd(core + post) == core
  {
    if post == "" {
      assert core + post == core;
    } else {
      assert (core + post)[..|core + post| - 1] == core + post[..|post| - 1];
      TrimBack(core, post[..|post| - 1]);
    }
  }

  lemma TrimAround(pre: string, core: string, post: string)
    requires AllTrimmed(pre) && AllTrimmed(post) && core != "" && !IsTrimmed(core[0]) && !IsTrimmed(core[|core| - 1])
    ensures Trim(pre + (core + post)) == core
  {
    TrimFront(pre, core + post);
    TrimBack(core, post);
  }

  lemma {:induction false} TrimStartSplits(s: string) returns (pre: string)
    ensures AllTrimmed(pre) && s == pre + TrimStart(s)
    ensures TrimStart(s) != "" ==> !IsTrimmed(TrimStart(s)[0])
  {
    pre := "";
    if s != "" && IsTrimmed(s[0]) {
      var more := TrimStartSplits(s[1..]);
      pre := [s[0]] + more;
    }
  }

  lemma {:induction false} TrimEndSplits(s: string) returns (post: string)
    ensures AllTrimmed(post) && s == TrimEnd(s) + post
  {
    post := "";
    if s != "" && IsTrimmed(s[|s| - 1]) {
      var more := TrimEndSplits(s[..|s| - 1]);
      post := more + [s[|s| - 1]];
      assert s == s[..|s| - 1] + [s[|s| - 1]];
    }
  }

  /** White space around an amount does not count. */
  lemma TrimSplits(s: string) returns (pre: string, post: string)
    ensures AllTrimmed(pre) && AllTrimmed(post) && s == pre + (Trim(s) + post)
  {
    pre := TrimStartSplits(s);
    post := TrimEndSplits(TrimStart(s));
  }

  /** Nothing but white space is the empty amount, and only that. */
  lemma EmptyExactly(value: string, currency: string)
    ensures ParseAmount(value, currency) == EmptyAmount <==> AllTrimmed(value)
  {
    var pre, post := TrimSplits(value);
    if AllTrimmed(value) {
      TrimFront(value, "");
      assert value + "" == value;
    }
    assert Trim(value) == "" ==> value == pre + post;
  }

  /** Text is a malformed amount exactly if it is not empty and not, between white space, an optional minus, digits, and
      optionally a point with digits. */
  lemma MalformedAmountExactly(value: string, currency: string)
    ensures ParseAmount(value, currency) == MalformedAmount <==>
            !AllTrimmed(value) && forall pre: string, negative: bool, whole: string, fraction: string, post: string ::
              AllTrimmed(pre) && AllTrimmed(post) && whole != "" && AllDigits(whole) && AllDigits(fraction) ==>
                value != pre + (Written(negative, whole, fraction) + post)
  {
    EmptyExactly(value, currency);
    forall pre: string, negative: bool, whole: string, fraction: string, post: string
      | AllTrimmed(pre) && AllTrimmed(post) && whole != "" && AllDigits(whole) && AllDigits(fraction)
        && value == pre + (Written(negative, whole, fraction) + post)
      ensures ParseAmount(value, currency) != MalformedAmount
    {
      SpacedReads(pre, negative, whole, fraction, post);
    }
    if ParseAmount(value, currency) != MalformedAmount && !AllTrimmed(value) {
      var pre, post := TrimSplits(value);
      ReadIsWritten(Trim(value));
    }
  }

  lemma SpacedReads(pre: string, negative: bool, whole: string, fraction: string, post: string)
    requires AllTrimmed(pre) && AllTrimmed(post) && whole != "" && AllDigits(whole) && AllDigits(fraction)
    ensures var t := Written(negative, whole, fraction);
            t != "" && Trim(pre + (t + post)) == t && ReadNumeric(t) == Some(Numeric(negative, whole, fraction))
  {
    var t := Written(negative, whole, fraction);
    WrittenReads(negative, whole, fraction);
    WrittenEnds(negative, whole, fraction);
    TrimAround(pre, t, post);
  }

  lemma WrittenEnds(negative: bool, whole: string, fraction: string)
    requires whole != "" && AllDigits(whole) && AllDigits(fraction)
    ensures var t := Written(negative, whole, fraction); t != "" && !IsTrimmed(t[0]) && !IsTrimmed(t[|t| - 1])
  {
    var t := Written(negative, whole, fraction);
    assert t[0] == if negative then '-' else whole[0];
    assert t[|t| - 1] == if fraction != "" then fraction[|fraction| - 1] else whole[|whole| - 1];
  }

  lemma SpacedParses(pre: string, negative: bool, whole: string, fraction: string, post: string, currency: string)
    requires AllTrimmed(pre) && AllTrimmed(post) && whole != "" && AllDigits(whole) && AllDigits(fraction)
    ensures ParseAmount(pre + (Written(negative, whole, fraction) + post), currency) ==
            match MinorUnits(currency)
            case None => UnsupportedCurrency
            case Some(exponent) =>
              if |fraction| > exponent then TooManyDecimals
              else Amount(Signed(negative, Number(whole + (fraction + Zeros(exponent - |fraction|)))))
  {
    SpacedReads(pre, negative, whole, fraction, post);
  }

  /** Hundreds of the whole part, and tens for a single decimal. */
  function Cents(whole: string, fraction: string): nat
    requires AllDigits(whole) && AllDigits(fraction)
  {
    Number(whole) * 100 + Number(fraction) * if |fraction| == 1 then 10 else 1
  }

  /** A well-formed amount: three currencies have cents and JPY none; more decimals than the currency has are refused, and fewer
      are filled up, so that half a dollar is fifty cents. */
  lemma AmountsInWords(pre: string, negative: bool, whole: string, fraction: string, post: string, currency: string)
    requires AllTrimmed(pre) && AllTrimmed(post) && whole != "" && AllDigits(whole) && AllDigits(fraction)
    ensures var answer := ParseAmount(pre + (Written(negative, whole, fraction) + post), currency);
            && (currency !in {"USD", "EUR", "GBP", "JPY"} ==> answer == UnsupportedCurrency)
            && (currency == "JPY" ==> answer == if fraction == "" then Amount(Signed(negative, Number(whole))) else TooManyDecimals)
            && (currency in {"USD", "EUR", "GBP"} ==>
                  answer == if |fraction| > 2 then TooManyDecimals
                            else Amount(Signed(negative, Cents(whole, fraction))))
  {
    MinorUnitsAre(currency);
    if currency in {"USD", "EUR", "GBP"} {
      CentsParse(pre, negative, whole, fraction, post, currency);
    } else {
      SpacedParses(pre, negative, whole, fraction, post, currency);
      if fraction == "" { assert whole + (fraction + Zeros(0)) == whole; }
    }
  }

  lemma CentsParse(pre: string, negative: bool, whole: string, fraction: string, post: string, currency: string)
    requires AllTrimmed(pre) && AllTrimmed(post) && whole != "" && AllDigits(whole) && AllDigits(fraction)
    requires MinorUnits(currency) == Some(2)
    ensures ParseAmount(pre + (Written(negative, whole, fraction) + post), currency) ==
            if |fraction| > 2 then TooManyDecimals else Amount(Signed(negative, Cents(whole, fraction)))
  {
    SpacedParses(pre, negative, whole, fraction, post, currency);
    if |fraction| <= 2 { CentsAre(whole, fraction); }
  }

  lemma CentsAre(whole: string, fraction: string)
    requires AllDigits(whole) && AllDigits(fraction) && |fraction| <= 2
    ensures Number(whole + (fraction + Zeros(2 - |fraction|))) == Cents(whole, fraction)
  {
    FilledUp(whole, fraction);
  }

  lemma MinorUnitsAre(currency: string)
    ensures currency in {"USD", "EUR", "GBP"} ==> MinorUnits(currency) == Some(2)
    ensures currency == "JPY" ==> MinorUnits(currency) == Some(0)
    ensures currency !in {"USD", "EUR", "GBP", "JPY"} ==> MinorUnits(currency) == None
  {
  }

  lemma FormatNeedsCurrency(minor: int, currency: string)
    ensures FormatAmount(minor, currency).None? <==> currency !in {"USD", "EUR", "GBP", "JPY"}
  {
  }

  lemma FilledUp(whole: string, fraction: string)
    requires AllDigits(whole) && AllDigits(fraction) && |fraction| <= 2
    ensures Number(whole + (fraction + Zeros(2 - |fraction|))) == Number(whole) * 100 + Number(fraction) * if |fraction| == 1 then 10 else 1
  {
    var k := 2 - |fraction|;
    NumberConcat(fraction, Zeros(k));
    NumberConcat(whole, fraction + Zeros(k));
    NumberZeros(k);
    assert Pow10(0) == 1 && Pow10(1) == 10 && Pow10(2) == 100;
    if |fraction| == 0 { assert fraction == ""; }
  }

  // --- splitEvenly ----------------------------------------------------------------------------------------------

  /** Math.trunc of the quotient. */
  function Trunc(a: int, b: int): int
    requires b > 0
  {
    if a >= 0 then a / b else -(-a / b)
  }

  /** None is the RangeError. */
  function SplitEvenly(minor: int, parts: int): (r: Option<seq<int>>)
    ensures r.None? <==> parts < 1
  {
    if parts < 1 then None
    else
      var base := Trunc(minor, parts);
      var remainder := minor - base * parts;
      Some(seq(parts, index => base + if index < remainder then 1 else 0))
  }

  function Sum(xs: seq<int>): int {
    if xs == [] then 0 else Sum(xs[..|xs| - 1]) + xs[|xs| - 1]
  }

  lemma {:induction false} SumOfSteps(xs: seq<int>, base: int, remainder: int)
    requires forall i :: 0 <= i < |xs| ==> xs[i] == base + if i < remainder then 1 else 0
    ensures Sum(xs) == base * |xs| + if remainder < 0 then 0 else if remainder < |xs| then remainder else |xs|
  {
    if xs != [] {
      SumOfSteps(xs[..|xs| - 1], base, remainder);
      assert base * |xs| == base * (|xs| - 1) + base;
    }
  }

  lemma TruncRemainder(minor: int, parts: int)
    requires parts >= 1
    ensures minor >= 0 ==> 0 <= minor - Trunc(minor, parts) * parts < parts
    ensures minor < 0 ==> -parts < minor - Trunc(minor, parts) * parts <= 0
    ensures minor - Trunc(minor, parts) * parts == 0 <==> minor % parts == 0
  {
    var t, q := Trunc(minor, parts), minor / parts;
    assert minor == q * parts + minor % parts;
    if minor < 0 {
      var n: int := -minor;
      assert n == n / parts * parts + n % parts;
      assert t * parts == -(n / parts * parts);
    }
    MultiplesApart(t, q, parts);
    MultiplesApart(q, t, parts);
  }

  /** Any two parts differ by at most one, earlier parts being no smaller, and together they are the total, exactly unless a
      negative total does not divide evenly. */
  lemma SplitConserves(minor: int, parts: int)
    requires parts >= 1
    ensures var shares := SplitEvenly(minor, parts).value;
            && |shares| == parts
            && (forall i, j :: 0 <= i < j < parts ==> shares[j] <= shares[i] <= shares[j] + 1)
            && (Sum(shares) == minor <==> minor >= 0 || minor % parts == 0)
  {
    var base := Trunc(minor, parts);
    TruncRemainder(minor, parts);
    SumOfSteps(SplitEvenly(minor, parts).value, base, minor - base * parts);
  }

  /** -10 in three parts is -9. */
  lemma NegativeSplitLoses()
    ensures SplitEvenly(-10, 3).Some? && Sum(SplitEvenly(-10, 3).value) == -9
  {
    SumOfSteps(SplitEvenly(-10, 3).value, -3, -1);
  }
}
