/** parse_memory and format_memory: sizes as people write them. */
module Memory {
  import opened Common
  import opened Decimals
  import opened Options
  import opened Texts

  const KIB := 1024
  const MIB := 1024 * 1024
  const GIB := 1024 * 1024 * 1024
  const TIB := 1024 * 1024 * 1024 * 1024

  /** Docker's floor. */
  const MIN_MEMORY_BYTES := 6 * 1024 * 1024

  datatype Request = Text(text: string) | Count(bytes: int)

  datatype Answer = Accepted(bytes: int) | Malformed | UnknownUnit | BelowFloor

  // --- parse_memory ---------------------------------------------------------------------------------------------

  predicate IsLetter(c: char) { 'a' <= c <= 'z' || 'A' <= c <= 'Z' }

  function LowerChar(c: char): char {
    if 'A' <= c <= 'Z' then (c as int + 32) as char else c
  }

  function Lower(s: string): (r: string)
    ensures |r| == |s| && forall i :: 0 <= i < |s| ==> r[i] == LowerChar(s[i])
  {
    if s == "" then "" else [LowerChar(s[0])] + Lower(s[1..])
  }

  function Multiplier(unit: string): Option<nat> {
    if unit in {"", "b"} then Some(1)
    else if unit in {"k", "kb", "kib"} then Some(KIB)
    else if unit in {"m", "mb", "mib"} then Some(MIB)
    else if unit in {"g", "gb", "gib"} then Some(GIB)
    else if unit in {"t", "tb", "tib"} then Some(TIB)
    else None
  }

  function DigitRun(s: string): (n: nat)
    ensures n <= |s| && AllDigits(s[..n]) && (n < |s| ==> !IsDigit(s[n]))
  {
    if s == "" || !IsDigit(s[0]) then 0
    else
      var n := 1 + DigitRun(s[1..]);
      assert s[..n] == [s[0]] + s[1..][..n - 1];
      n
  }

  function LetterRun(s: string): (n: nat)
    ensures n <= |s| && (forall i :: 0 <= i < n ==> IsLetter(s[i])) && (n < |s| ==> !IsLetter(s[n]))
  {
    if s == "" || !IsLetter(s[0]) then 0 else 1 + LetterRun(s[1..])
  }

  /** The number group of the pattern: digits, and after a point more digits. */
  datatype Amount = Amount(whole: string, fraction: string, rest: string)

  function ReadAmount(t: string): (r: Option<Amount>)
    ensures r.Some? ==> AllDigits(r.value.whole) && AllDigits(r.value.fraction)
  {
    var w := DigitRun(t);
    if w == 0 then None
    else if w + 1 < |t| && t[w] == '.' && IsDigit(t[w + 1]) then
      var f := DigitRun(t[w + 1..]);
      Some(Amount(t[..w], t[w + 1..][..f], t[w + 1..][f..]))
    else Some(Amount(t[..w], "", t[w..]))
  }

  /** int(float(amount) * multiplier), exactly. */
  function Scaled(amount: Amount, multiplier: nat): int
    requires AllDigits(amount.whole) && AllDigits(amount.fraction)
  {
    Number(amount.whole + amount.fraction) * multiplier / Pow10(|amount.fraction|)
  }

  function ParseText(text: string): Answer {
    match ReadAmount(StripLeft(text))
    case None => Malformed
    case Some(amount) =>
      var rest := StripLeft(amount.rest);
      var letters := LetterRun(rest);
      if !Blank(rest[letters..]) then Malformed
      else
        match Multiplier(Lower(rest[..letters]))
        case None => UnknownUnit
        case Some(multiplier) => AboveFloor(Scaled(amount, multiplier))
  }

  function AboveFloor(bytes: int): Answer {
    if bytes < MIN_MEMORY_BYTES then BelowFloor else Accepted(bytes)
  }

  function Parse(request: Request): Answer {
    match request
    case Count(bytes) => AboveFloor(bytes)
    case Text(text) => ParseText(text)
  }

  // --- format_memory --------------------------------------------------------------------------------------------

  /** a/b to the nearest whole number, ties to even, as the format specifier rounds. */
  function Rounded(a: nat, b: nat): nat
    requires b > 0
  {
    var q, r := a / b, a % b;
    if 2 * r < b || (2 * r == b && q % 2 == 0) then q else q + 1
  }

  function RightStrip(s: string, c: char): string {
    if s != "" && s[|s| - 1] == c then RightStrip(s[..|s| - 1], c) else s
  }

  /** h hundredths with two decimals, less trailing zeros and a trailing point. */
  function Hundredths(h: nat): string {
    RightStrip(RightStrip(Digits(h / 100) + "." + [Numeral(h / 10 % 10), Numeral(h % 10)], '0'), '.')
  }

  /** The unit format_memory picks, for sizes it gives in a unit. */
  function UnitSize(n: int): nat {
    if n >= GIB then GIB else if n >= MIB then MIB else KIB
  }

  function UnitName(n: int): string {
    if n >= GIB then "GB" else if n >= MIB then "MB" else "KB"
  }

  function Format(n: int): string {
    if n >= KIB then Hundredths(Rounded(n * 100, UnitSize(n))) + UnitName(n)
    else (if n < 0 then "-" + Digits(-n) else Digits(n)) + "B"
  }

  // --- The pattern the parser stands for ------------------------------------------------------------------------

  /** `^\s*(\d+(?:\.\d+)?)\s*([a-zA-Z]*)\s*$`, piece by piece. */
  datatype Pieces = Pieces(before: string, whole: string, fraction: string, between: string, unit: string, after: string) {
    predicate Fit() {
      && Blank(before) && Blank(between) && Blank(after)
      && whole != "" && AllDigits(whole) && AllDigits(fraction)
      && forall i :: 0 <= i < |unit| ==> IsLetter(unit[i])
    }

    function Tail(): string { between + (unit + after) }

    function Text(): string {
      before + (whole + if fraction == "" then Tail() else "." + (fraction + Tail()))
    }
  }

  lemma {:induction false} StripBlank(pre: string, rest: string)
    requires Blank(pre) && (rest == "" || !IsSpace(rest[0]))
    ensures StripLeft(pre + rest) == rest
  {
    var s := pre + rest;
    if pre != "" {
      assert s[1..] == pre[1..] + rest && s[0] == pre[0];
      StripBlank(pre[1..], rest);
    } else {
      assert s == rest;
    }
  }

  lemma {:induction false} LetterRunStops(letters: string, rest: string)
    requires (forall i :: 0 <= i < |letters| ==> IsLetter(letters[i])) && (rest == "" || !IsLetter(rest[0]))
    ensures LetterRun(letters + rest) == |letters|
  {
    var s := letters + rest;
    if letters != "" {
      assert s[1..] == letters[1..] + rest && s[0] == letters[0];
      LetterRunStops(letters[1..], rest);
    } else {
      assert s == rest;
    }
  }

  lemma TailEndsAmount(p: Pieces)
    requires p.Fit()
    ensures EndsAmount(p.Tail())
  {
    var t := p.Tail();
    if t != "" {
      assert t[0] == if p.between != "" then p.between[0] else if p.unit != "" then p.unit[0] else p.after[0];
    }
  }

  lemma TailReads(p: Pieces)
    requires p.Fit()
    ensures var rest := StripLeft(p.Tail());
            rest[..LetterRun(rest)] == p.unit && Blank(rest[LetterRun(rest)..])
  {
    if p.unit == "" {
      StripBlank(p.between + p.after, "");
      assert p.Tail() == p.between + p.after + "";
    } else {
      var rest := p.unit + p.after;
      assert rest[0] == p.unit[0];
      StripBlank(p.between, rest);
      LetterRunStops(p.unit, p.after);
      assert rest[..|p.unit|] == p.unit && rest[|p.unit|..] == p.after;
    }
  }

  lemma AmountReads(p: Pieces)
    requires p.Fit()
    ensures ReadAmount(StripLeft(p.Text())) == Some(Amount(p.whole, p.fraction, p.Tail()))
  {
    var body := p.whole + if p.fraction == "" then p.Tail() else "." + (p.fraction + p.Tail());
    assert body[0] == p.whole[0];
    StripBlank(p.before, body);
    TailEndsAmount(p);
    if p.fraction == "" { ReadWhole(p.whole, p.Tail()); } else { ReadDecimal(p.whole, p.fraction, p.Tail()); }
  }

  /** Text that fits the pattern is read as its pieces say. */
  lemma FittingTextReads(p: Pieces)
    requires p.Fit()
    ensures ParseText(p.Text()) ==
            match Multiplier(Lower(p.unit))
            case None => UnknownUnit
            case Some(multiplier) => AboveFloor(Number(p.whole + p.fraction) * multiplier / Pow10(|p.fraction|))
  {
    AmountReads(p);
    TailReads(p);
  }

  lemma {:induction false} StripLeftSplits(s: string) returns (pre: string)
    ensures Blank(pre) && s == pre + StripLeft(s)
  {
    if s != "" && IsSpace(s[0]) {
      var more := StripLeftSplits(s[1..]);
      pre := [s[0]] + more;
    } else {
      pre := "";
    }
  }

  lemma AmountSplits(t: string)
    requires ReadAmount(t).Some?
    ensures var a := ReadAmount(t).value;
            a.whole != "" && t == a.whole + if a.fraction == "" then a.rest else "." + (a.fraction + a.rest)
  {
    var w := DigitRun(t);
    if w + 1 < |t| && t[w] == '.' && IsDigit(t[w + 1]) {
      var tail := t[w + 1..];
      SplitAt(tail, DigitRun(tail));
      SplitAtPoint(t, w);
    } else {
      SplitAt(t, w);
    }
  }

  lemma SplitAt(t: string, n: nat)
    requires n <= |t|
    ensures t == t[..n] + t[n..]
  {
  }

  lemma SplitAtPoint(t: string, n: nat)
    requires n < |t| && t[n] == '.'
    ensures t == t[..n] + ("." + t[n + 1..])
  {
  }

  /** Text is malformed exactly if it does not fit the pattern. */
  lemma MalformedExactly(text: string)
    ensures ParseText(text) == Malformed <==> forall p: Pieces :: p.Fit() ==> p.Text() != text
  {
    forall p: Pieces | p.Fit() && p.Text() == text ensures ParseText(text) != Malformed {
      FittingTextReads(p);
    }
    if ParseText(text) != Malformed {
      var p := PiecesOf(text);
    }
  }

  /** What stands behind the amount, piece by piece. */
  lemma TailSplits(rest: string) returns (between: string, unit: string, after: string)
    requires var t := StripLeft(rest); Blank(t[LetterRun(t)..])
    ensures Blank(between) && Blank(after) && (forall i :: 0 <= i < |unit| ==> IsLetter(unit[i])) && rest == between + (unit + after)
  {
    between := StripLeftSplits(rest);
    var t := StripLeft(rest);
    unit, after := t[..LetterRun(t)], t[LetterRun(t)..];
    SplitAt(t, LetterRun(t));
  }

  lemma PiecesOf(text: string) returns (p: Pieces)
    requires ParseText(text) != Malformed
    ensures p.Fit() && p.Text() == text
  {
    BlankAfterUnit(text);
    var before := StripLeftSplits(text);
    var a := ReadAmount(StripLeft(text)).value;
    AmountSplits(StripLeft(text));
    var between, unit, after := TailSplits(a.rest);
    p := Pieces(before, a.whole, a.fraction, between, unit, after);
    assert p.Tail() == a.rest;
  }

  lemma BlankAfterUnit(text: string)
    requires ParseText(text) != Malformed
    ensures ReadAmount(StripLeft(text)).Some?
    ensures var rest := StripLeft(ReadAmount(StripLeft(text)).value.rest); Blank(rest[LetterRun(rest)..])
  {
  }

  // --- Reading back what was printed ----------------------------------------------------------------------------

  lemma {:induction false} DigitRunStops(digits: string, rest: string)
    requires AllDigits(digits) && (rest == "" || !IsDigit(rest[0]))
    ensures DigitRun(digits + rest) == |digits|
  {
    var s := digits + rest;
    if digits != "" {
      assert s[1..] == digits[1..] + rest && s[0] == digits[0];
      DigitRunStops(digits[1..], rest);
    } else {
      assert s == rest;
    }
  }

  lemma StripOne(s: string, c: char)
    ensures RightStrip(s + [c], c) == RightStrip(s, c)
  {
    assert (s + [c])[..|s|] == s;
  }

  lemma HundredthsText(h: nat)
    ensures Hundredths(h) == RightStrip(RightStrip(Digits(h / 100) + "." + [Numeral(h / 10 % 10)] + [Numeral(h % 10)], '0'), '.')
  {
    assert [Numeral(h / 10 % 10), Numeral(h % 10)] == [Numeral(h / 10 % 10)] + [Numeral(h % 10)];
    assert Digits(h / 100) + "." + [Numeral(h / 10 % 10), Numeral(h % 10)] ==
           Digits(h / 100) + "." + [Numeral(h / 10 % 10)] + [Numeral(h % 10)];
  }

  lemma TrimDecimals(w: string, a: char, b: char)
    requires w != "" && AllDigits(w) && IsDigit(a) && IsDigit(b)
    ensures RightStrip(RightStrip(w + "." + [a] + [b], '0'), '.') ==
            if a == '0' && b == '0' then w else if b == '0' then w + "." + [a] else w + "." + [a, b]
  {
    if b == '0' {
      StripOne(w + "." + [a], '0');
      if a == '0' {
        StripOne(w + ".", '0');
        StripOne(w, '.');
        assert w + "." == w + ['.'];
      }
    } else {
      assert w + "." + [a] + [b] == w + "." + [a, b];
    }
  }

  /** What is left of the two decimals. */
  lemma HundredthsShape(h: nat)
    ensures Hundredths(h) ==
            if h % 100 == 0 then Digits(h / 100)
            else if h % 10 == 0 then Digits(h / 100) + "." + [Numeral(h / 10 % 10)]
            else Digits(h / 100) + "." + [Numeral(h / 10 % 10), Numeral(h % 10)]
  {
    var w, a, b := Digits(h / 100), Numeral(h / 10 % 10), Numeral(h % 10);
    HundredthsText(h);
    DecimalParts(h);
    TrimDecimals(w, a, b);
    assert a == '0' <==> Value(a) == 0;
    assert b == '0' <==> Value(b) == 0;
  }

  lemma OneDigit(c: char)
    requires IsDigit(c)
    ensures AllDigits([c]) && Number([c]) == Value(c)
  {
    assert [c][..0] == "";
  }

  lemma TwoDigits(a: char, b: char)
    requires IsDigit(a) && IsDigit(b)
    ensures AllDigits([a, b]) && Number([a, b]) == 10 * Value(a) + Value(b)
  {
    OneDigit(a);
    assert [a, b][..1] == [a];
  }

  /** Text that cannot go on an amount. */
  predicate EndsAmount(rest: string) {
    rest == "" || (!IsDigit(rest[0]) && rest[0] != '.')
  }

  lemma ReadWhole(w: string, rest: string)
    requires w != "" && AllDigits(w) && EndsAmount(rest)
    ensures ReadAmount(w + rest) == Some(Amount(w, "", rest))
  {
    DigitRunStops(w, rest);
    var t := w + rest;
    assert t[..|w|] == w && t[|w|..] == rest;
    assert |w| < |t| ==> t[|w|] == rest[0];
  }

  lemma ReadDecimal(w: string, f: string, rest: string)
    requires w != "" && AllDigits(w) && f != "" && AllDigits(f) && EndsAmount(rest)
    ensures ReadAmount(w + ("." + (f + rest))) == Some(Amount(w, f, rest))
  {
    var tail := f + rest;
    var t := w + ("." + tail);
    assert t[..|w|] == w && t[|w|] == '.' && t[|w| + 1..] == tail && t[|w| + 1] == tail[0] == f[0];
    DigitRunStops(w, "." + tail);
    DigitRunStops(f, rest);
    assert tail[..|f|] == f && tail[|f|..] == rest;
  }

  /** The decimals that are left. */
  function Fraction(h: nat): string {
    if h % 100 == 0 then ""
    else if h % 10 == 0 then [Numeral(h / 10 % 10)]
    else [Numeral(h / 10 % 10), Numeral(h % 10)]
  }

  function Printed(h: nat, name: string): Pieces {
    Pieces("", Digits(h / 100), Fraction(h), "", name, "")
  }

  lemma PiecesInFull(w: string, f: string, name: string)
    ensures Pieces("", w, f, "", name, "").Text() == w + (if f == "" then "" else "." + f) + name
  {
    var p := Pieces("", w, f, "", name, "");
    assert p.Tail() == name;
    if f == "" {
      assert p.Text() == w + name;
    } else {
      assert p.Text() == w + ("." + (f + name));
      assert w + ("." + (f + name)) == w + ("." + f) + name;
    }
  }

  lemma HundredthsInFull(h: nat)
    ensures Hundredths(h) == Digits(h / 100) + if Fraction(h) == "" then "" else "." + Fraction(h)
  {
    HundredthsShape(h);
    var w, f := Digits(h / 100), Fraction(h);
    assert f != "" ==> w + "." + f == w + ("." + f);
  }

  lemma PrintedText(h: nat, name: string)
    requires forall i :: 0 <= i < |name| ==> IsLetter(name[i])
    ensures Printed(h, name).Fit() && Printed(h, name).Text() == Hundredths(h) + name
  {
    PiecesInFull(Digits(h / 100), Fraction(h), name);
    HundredthsInFull(h);
  }

  /** The printed amount is worth h hundredths. */
  lemma PrintedValue(h: nat, u: nat, name: string)
    ensures AllDigits(Fraction(h)) && Scaled(Amount(Digits(h / 100), Fraction(h), name), u) == h * u / 100
  {
    if h % 100 == 0 { ScaledWhole(h, u, name); } else if h % 10 == 0 { ScaledTenths(h, u, name); } else { ScaledHundredths(h, u, name); }
  }

  lemma ScaledWhole(h: nat, u: nat, name: string)
    requires h % 100 == 0
    ensures Scaled(Amount(Digits(h / 100), "", name), u) == h * u / 100
  {
    var w := Digits(h / 100);
    NumberOfDigits(h / 100);
    assert w + "" == w;
    assert h * u == 100 * (h / 100 * u);
  }

  lemma ScaledTenths(h: nat, u: nat, name: string)
    requires h % 10 == 0
    ensures AllDigits([Numeral(h / 10 % 10)])
    ensures Scaled(Amount(Digits(h / 100), [Numeral(h / 10 % 10)], name), u) == h * u / 100
  {
    var w, a := Digits(h / 100), Numeral(h / 10 % 10);
    NumberOfDigits(h / 100);
    OneDigit(a);
    NumberConcat(w, [a]);
    TenthsScale(h, u);
  }

  lemma DecimalParts(h: nat)
    ensures h / 100 * 100 + (10 * (h / 10 % 10) + h % 10) == h
    ensures h % 100 == 0 <==> h / 10 % 10 == 0 && h % 10 == 0
  {
  }

  lemma ScaledHundredths(h: nat, u: nat, name: string)
    ensures AllDigits([Numeral(h / 10 % 10), Numeral(h % 10)])
    ensures Scaled(Amount(Digits(h / 100), [Numeral(h / 10 % 10), Numeral(h % 10)], name), u) == h * u / 100
  {
    var w, a, b := Digits(h / 100), Numeral(h / 10 % 10), Numeral(h % 10);
    NumberOfDigits(h / 100);
    TwoDigits(a, b);
    NumberConcat(w, [a, b]);
    assert Pow10(2) == 10 * Pow10(1) == 100;
    assert Number(w + [a, b]) == h by { DecimalParts(h); }
  }

  lemma TenthsScale(h: nat, u: nat)
    requires h % 10 == 0
    ensures Pow10(1) == 10 && h / 10 * u / 10 == h * u / 100 && h / 10 == h / 100 * 10 + h / 10 % 10
  {
    var j := h / 10;
    assert h * u == 10 * (j * u);
  }

  lemma NamedUnit(n: int)
    ensures var name := UnitName(n);
            (forall i :: 0 <= i < |name| ==> IsLetter(name[i])) && Multiplier(Lower(name)) == Some(UnitSize(n))
  {
    var name := UnitName(n);
    var l := Lower(name);
    assert l == [LowerChar(name[0]), LowerChar(name[1])];
    assert LowerChar('G') == 'g' && LowerChar('M') == 'm' && LowerChar('K') == 'k' && LowerChar('B') == 'b';
    assert l == if n >= GIB then "gb" else if n >= MIB then "mb" else "kb";
  }

  /** Reading a printed size gives the printed hundredths of its unit. */
  lemma ParseFormat(n: int)
    requires n >= KIB
    ensures ParseText(Format(n)) == AboveFloor(Rounded(n * 100, UnitSize(n)) * UnitSize(n) / 100)
  {
    var h := Rounded(n * 100, UnitSize(n));
    NamedUnit(n);
    PrintedText(h, UnitName(n));
    PrintedValue(h, UnitSize(n), UnitName(n));
    FittingTextReads(Printed(h, UnitName(n)));
  }

  // --- How close the round trip comes ---------------------------------------------------------------------------

  lemma RoundedBounds(a: nat, b: nat)
    requires b > 0
    ensures 2 * a - b <= 2 * (Rounded(a, b) * b) <= 2 * a + b
  {
    var q, r := a / b, a % b;
    assert a == q * b + r;
    assert (q + 1) * b == q * b + b;
  }

  lemma DivideExactly(n: nat, q: nat)
    requires q > 0 && n % q == 0
    ensures n / q * q == n
  {
  }

  lemma RoundedUnique(a: nat, b: nat, h: nat)
    requires b > 0 && 2 * a - b < 2 * (h * b) < 2 * a + b
    ensures Rounded(a, b) == h
  {
    RoundedBounds(a, b);
    MultiplesApart(Rounded(a, b), h, b);
    MultiplesApart(h, Rounded(a, b), b);
  }

  /** What n turns into. */
  function Reread(n: int): nat
    requires n >= KIB
  {
    Rounded(n * 100, UnitSize(n)) * UnitSize(n) / 100
  }

  lemma RereadBounds(n: int)
    requires n >= KIB
    ensures n * 200 - UnitSize(n) - 200 < Reread(n) * 200 <= n * 200 + UnitSize(n)
    ensures Reread(n) >= UnitSize(n)
    ensures n >= MIN_MEMORY_BYTES ==> Reread(n) >= MIN_MEMORY_BYTES
  {
    var u := UnitSize(n);
    RoundedBounds(n * 100, u);
    var h := Rounded(n * 100, u);
    MultiplesApart(100, h, u);
    if n >= MIN_MEMORY_BYTES && u == MIB { MultiplesApart(600, h, u); }
  }

  /** Reading back a printed size is always accepted and lands within half a hundredth of the unit, and a byte. */
  lemma RoundTripBound(n: int)
    requires n >= MIN_MEMORY_BYTES
    ensures ParseText(Format(n)).Accepted?
    ensures var m := ParseText(Format(n)).bytes; 200 * (m - n) <= UnitSize(n) + 200 && 200 * (n - m) <= UnitSize(n) + 200
  {
    ParseFormat(n);
    RereadBounds(n);
  }

  lemma QuartersReread(k: nat, q: nat)
    requires q > 0
    ensures Rounded(k * q * 100, 4 * q) * (4 * q) / 100 == k * q
  {
    var h := 25 * k;
    assert h * (4 * q) == k * q * 100;
    RoundedUnique(k * q * 100, 4 * q, h);
  }

  /** Quarters of the unit come back exactly. */
  lemma QuartersAreExact(n: int)
    requires n >= MIN_MEMORY_BYTES && n % (UnitSize(n) / 4) == 0
    ensures ParseText(Format(n)) == Accepted(n)
  {
    var q := UnitSize(n) / 4;
    assert q > 0 && UnitSize(n) == 4 * q;
    DivideExactly(n, q);
    QuartersReread(n / q, q);
    ParseFormat(n);
  }

  lemma SameUnitReread(n: int)
    requires n >= MIN_MEMORY_BYTES && UnitSize(Reread(n)) == UnitSize(n)
    ensures Reread(Reread(n)) == Reread(n)
  {
    var u, m := UnitSize(n), Reread(n);
    var h := Rounded(n * 100, u);
    RereadBounds(n);
    assert h * u - 100 < m * 100 <= h * u;
    RoundedUnique(m * 100, u, h);
  }

  /** Just below the next unit the printed amount is 1024, which reads as exactly that next unit. */
  lemma NextUnitReread(n: int)
    requires n >= MIN_MEMORY_BYTES && UnitSize(Reread(n)) != UnitSize(n)
    ensures UnitSize(n) == MIB && Reread(n) == GIB && Reread(GIB) == GIB
  {
    RereadBounds(n);
    var h := Rounded(n * 100, MIB);
    assert h <= 102400 by { RoundedBounds(n * 100, MIB); }
    RoundedUnique(GIB * 100, GIB, 100);
  }

  /** Reading, printing and reading again changes nothing more. */
  lemma Idempotent(n: int)
    requires n >= MIN_MEMORY_BYTES
    ensures ParseText(Format(n)).Accepted?
    ensures ParseText(Format(ParseText(Format(n)).bytes)) == ParseText(Format(n))
  {
    ParseFormat(n);
    RereadBounds(n);
    ParseFormat(Reread(n));
    if UnitSize(Reread(n)) == UnitSize(n) { SameUnitReread(n); } else { NextUnitReread(n); }
  }

  /** How far it is from a up to the next multiple of u. */
  function UpTo(a: nat, u: nat): (d: nat)
    requires u > 0
    ensures d < u
  {
    (u - a % u) % u
  }

  lemma NextMultiple(a: nat, u: nat) returns (k: nat)
    requires u > 0
    ensures k * u == a + UpTo(a, u)
  {
    var q, r := a / u, a % u;
    assert a == q * u + r;
    UpToIs(a, u);
    if r == 0 {
      k := q;
    } else {
      k := q + 1;
      assert (q + 1) * u == q * u + u;
    }
  }

  lemma UpToIs(a: nat, u: nat)
    requires u > 0
    ensures UpTo(a, u) == if a % u == 0 then 0 else u - a % u
  {
  }

  /** The next multiple is the least one from a on. */
  lemma NoMultipleBefore(a: nat, u: nat, h: nat)
    requires u > 0 && h * u >= a
    ensures h * u >= a + UpTo(a, u)
  {
    var k := NextMultiple(a, u);
    MultiplesApart(k, h, u);
  }

  /** Exactly the sizes come back unchanged whose hundredfold is less than a hundred short of a multiple of the unit. */
  lemma UnchangedExactly(n: int)
    requires n >= MIN_MEMORY_BYTES
    ensures ParseText(Format(n)) == Accepted(n) <==> (UnitSize(n) - n * 100 % UnitSize(n)) % UnitSize(n) < 100
  {
    var u := UnitSize(n);
    var h, d := Rounded(n * 100, u), UpTo(n * 100, u);
    ParseFormat(n);
    RereadBounds(n);
    if d < 100 {
      var k := NextMultiple(n * 100, u);
      RoundedUnique(n * 100, u, k);
    } else if h * u >= n * 100 {
      NoMultipleBefore(n * 100, u, h);
    }
  }

  /** 1023.999MB prints as 1024MB. */
  lemma JustBelowAGigabyte(n: int)
    requires GIB - MIB / 200 < n < GIB
    ensures Format(n) == Hundredths(102400) + "MB" && ParseText(Format(n)) == Accepted(GIB) && Format(GIB) == Hundredths(100) + "GB"
  {
    RoundedUnique(n * 100, MIB, 102400);
    RoundedUnique(GIB * 100, GIB, 100);
    ParseFormat(n);
  }

  // --- In words -------------------------------------------------------------------------------------------------

  /** Digits with a unit are that many bytes, kilobytes, megabytes, gigabytes or terabytes of 1024 each, in upper or lower case
      and with or without the b or ib; below six megabytes they are refused, and any other unit is unknown. */
  lemma UnitsInWords(digits: string, unit: string)
    requires digits != "" && AllDigits(digits) && forall i :: 0 <= i < |unit| ==> IsLetter(unit[i])
    ensures Lower(unit) in {"", "b"} ==> ParseText(digits + unit) == Floored(Number(digits))
    ensures Lower(unit) in {"k", "kb", "kib"} ==> ParseText(digits + unit) == Floored(Number(digits) * 1024)
    ensures Lower(unit) in {"m", "mb", "mib"} ==> ParseText(digits + unit) == Floored(Number(digits) * 1048576)
    ensures Lower(unit) in {"g", "gb", "gib"} ==> ParseText(digits + unit) == Floored(Number(digits) * 1073741824)
    ensures Lower(unit) in {"t", "tb", "tib"} ==> ParseText(digits + unit) == Floored(Number(digits) * 1099511627776)
    ensures Lower(unit) !in {"", "b", "k", "kb", "kib", "m", "mb", "mib", "g", "gb", "gib", "t", "tb", "tib"} ==>
              ParseText(digits + unit) == UnknownUnit
  {
    UnitReads(digits, unit);
    MultiplierInWords(Lower(unit));
  }

  lemma MultiplierInWords(name: string)
    ensures name in {"", "b"} ==> Multiplier(name) == Some(1)
    ensures name in {"k", "kb", "kib"} ==> Multiplier(name) == Some(1024)
    ensures name in {"m", "mb", "mib"} ==> Multiplier(name) == Some(1048576)
    ensures name in {"g", "gb", "gib"} ==> Multiplier(name) == Some(1073741824)
    ensures name in {"t", "tb", "tib"} ==> Multiplier(name) == Some(1099511627776)
    ensures name !in {"", "b", "k", "kb", "kib", "m", "mb", "mib", "g", "gb", "gib", "t", "tb", "tib"} ==> Multiplier(name) == None
  {
  }

  lemma UnitReads(digits: string, unit: string)
    requires digits != "" && AllDigits(digits) && forall i :: 0 <= i < |unit| ==> IsLetter(unit[i])
    ensures ParseText(digits + unit) ==
            match Multiplier(Lower(unit)) case None => UnknownUnit case Some(multiplier) => AboveFloor(Number(digits) * multiplier)
  {
    var p := Pieces("", digits, "", "", unit, "");
    assert p.Tail() == unit && p.Text() == digits + unit;
    FittingTextReads(p);
    assert digits + "" == digits && Pow10(0) == 1;
  }

  function Floored(bytes: int): Answer {
    if bytes < 6291456 then BelowFloor else Accepted(bytes)
  }

  /** A number is taken as bytes, with the same floor. */
  lemma CountsAreBytes(bytes: int)
    ensures Parse(Count(bytes)) == Floored(bytes)
  {
  }

  /** The printed hundredths are the nearest, and of two equally near ones the even one. */
  lemma RoundedIsNearest(a: nat, b: nat)
    requires b > 0
    ensures var r, d := Rounded(a, b), 2 * (Rounded(a, b) * b - a); 0 - b <= d <= b && (d == b || d == 0 - b ==> r % 2 == 0)
  {
    var q, r := a / b, a % b;
    assert a == q * b + r;
    assert (q + 1) * b == q * b + b;
  }

  /** Gigabytes from one gigabyte on, megabytes from one megabyte on, kilobytes from one kilobyte on, and bytes below, with no
      decimal that is not needed. */
  lemma FormatInWords(n: int)
    ensures n >= 1073741824 ==> Format(n) == Plain(Rounded(n * 100, 1073741824)) + "GB"
    ensures 1048576 <= n < 1073741824 ==> Format(n) == Plain(Rounded(n * 100, 1048576)) + "MB"
    ensures 1024 <= n < 1048576 ==> Format(n) == Plain(Rounded(n * 100, 1024)) + "KB"
    ensures 0 <= n < 1024 ==> Format(n) == Digits(n) + "B"
    ensures n < 0 ==> Format(n) == "-" + Digits(-n) + "B"
  {
    if n >= 1024 { HundredthsShape(Rounded(n * 100, UnitSize(n))); }
  }

  function Plain(h: nat): string {
    Digits(h / 100) + if h % 100 == 0 then "" else if h % 10 == 0 then "." + [Numeral(h / 10 % 10)] else "." + [Numeral(h / 10 % 10), Numeral(h % 10)]
  }
}
