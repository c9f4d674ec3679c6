/** JavaScript numbers as decimals: `String(x)` as section 6.1.6.1.20 of ECMA-262
    (Number::toString) prints a finite number, and the parser that reads such a text back. */
module Decimal {
  import opened Base

  predicate IsDigit(c: char) {
    '0' <= c <= '9'
  }

  predicate AllDigits(s: string) {
    forall i :: 0 <= i < |s| ==> IsDigit(s[i])
  }

  function DigitChar(d: nat): (c: char)
    requires d < 10
    ensures IsDigit(c) && (c as int) - ('0' as int) == d
  {
    (('0' as int) + d) as char
  }

  function DigitValue(c: char): (d: nat)
    requires IsDigit(c)
    ensures d < 10
  {
    (c as int) - ('0' as int)
  }

  function Pow10(n: nat): (p: nat)
    ensures p >= 1
  {
    if n == 0 then 1 else 10 * Pow10(n - 1)
  }

  /** Base-10 digits of `n`, most significant first, with no leading zero. */
  function NatToDecimal(n: nat): (s: string)
    ensures |s| >= 1 && AllDigits(s)
    ensures s[0] == '0' ==> n == 0
    decreases n
  {
    if n < 10 then [DigitChar(n)] else NatToDecimal(n / 10) + [DigitChar(n % 10)]
  }

  /** The value of a string of digits. */
  function DigitsValue(s: string): nat
    requires AllDigits(s)
    decreases |s|
  {
    if |s| == 0 then 0 else DigitsValue(s[..|s| - 1]) * 10 + DigitValue(s[|s| - 1])
  }

  /** `m` zero digits. */
  function Zeros(m: nat): (s: string)
    ensures |s| == m && AllDigits(s)
  {
    seq(m, _ => '0')
  }

  /** The length of the run of digits `s` starts with. */
  function LeadingDigits(s: string): (n: nat)
    ensures n <= |s|
    ensures AllDigits(s[..n])
    ensures n < |s| ==> !IsDigit(s[n])
    decreases |s|
  {
    if |s| == 0 || !IsDigit(s[0]) then 0
    else
      var n := 1 + LeadingDigits(s[1..]);
      assert s[..n] == [s[0]] + s[1..][..n - 1];
      n
  }

  // ---- numbers ----

  /** The finite decimal `±significand × 10^exponent`. */
  datatype Number = Number(negative: bool, significand: nat, exponent: int)

  /** The one decimal among those of equal value that has no trailing zero in its
      significand; zero is unsigned. */
  predicate Shortest(x: Number) {
    if x.significand == 0 then x == Number(false, 0, 0) else x.significand % 10 != 0
  }

  /** A finite JavaScript number, identified with the shortest decimal that denotes it: the
      digits and the exponent position Number::toString starts from. `String` prints `-0` as
      `0`, so the two zeros are one value here. */
  type JsNumber = x: Number | Shortest(x) witness Number(false, 0, 0)

  const Zero: JsNumber := Number(false, 0, 0)

  /** The real number a decimal denotes. */
  ghost function Scale(e: int): real {
    if e >= 0 then Pow10(e) as real else 1.0 / (Pow10(-e) as real)
  }

  ghost function Size(x: Number): real {
    (x.significand as real) * Scale(x.exponent)
  }

  ghost function Value(x: Number): real {
    if x.negative then -Size(x) else Size(x)
  }

  /** The shortest decimal equal to `x`: trailing zeros move into the exponent. */
  function Normal(x: Number): (r: JsNumber)
    ensures Shortest(x) ==> r == x
    ensures x.significand != 0 ==> r.negative == x.negative && r.significand != 0
    decreases x.significand
  {
    if x.significand == 0 then Zero
    else if x.significand % 10 == 0 then Normal(Number(x.negative, x.significand / 10, x.exponent + 1))
    else x
  }

  // ---- Number::toString ----

  /** `e+<digits>` or `e-<digits>`. */
  function ExponentText(e: int): string {
    "e" + (if e >= 0 then "+" else "-") + NatToDecimal(if e >= 0 then e else -e)
  }

  /** The text of a positive number whose digits are those of `significand`: with `k` digits
      and the decimal point `n` places from their start, the five layouts of Number::toString
      (plain with trailing zeros, point inside the digits, `0.` and leading zeros, and the two
      exponent forms). */
  function Magnitude(significand: nat, exponent: int): (s: string)
    requires significand > 0
  {
    var d := NatToDecimal(significand);
    var k := |d|;
    var n := exponent + k;
    if k <= n <= 21 then d + Zeros(n - k)
    else if 0 < n <= 21 then d[..n] + ("." + d[n..])
    else if -6 < n <= 0 then "0" + ("." + (Zeros(-n) + d))
    else if k == 1 then d + ExponentText(n - 1)
    else d[..1] + ("." + (d[1..] + ExponentText(n - 1)))
  }

  /** `String(x)` for a finite number `x`. */
  function NumberText(x: JsNumber): (s: string)
    ensures |s| >= 1
    ensures s[0] == '-' <==> x.negative
  {
    if x.significand == 0 then "0"
    else
      var m := Magnitude(x.significand, x.exponent);
      MagnitudeStartsWithDigit(x.significand, x.exponent);
      if x.negative then "-" + m else m
  }

  lemma MagnitudeStartsWithDigit(significand: nat, exponent: int)
    requires significand > 0
    ensures |Magnitude(significand, exponent)| >= 1 && IsDigit(Magnitude(significand, exponent)[0])
  {
  }

  // ---- reading a number back ----

  /** The parts of an unsigned decimal literal `digits[.digits][e±digits]`: its digits
      with the point removed, how many of them follow the point, and the exponent's sign and
      digits (none when there is no exponent). */
  datatype Literal = Literal(digits: string, fraction: nat, exponentNegative: bool, exponentDigits: string)

  predicate WellFormed(l: Literal) {
    AllDigits(l.digits) && AllDigits(l.exponentDigits)
  }

  function Signed(negative: bool, n: nat): int {
    if negative then -(n as int) else n
  }

  /** The number a literal denotes, with the sign given separately. */
  function LiteralValue(negative: bool, l: Literal): Number
    requires WellFormed(l)
  {
    Number(negative, DigitsValue(l.digits), Signed(l.exponentNegative, DigitsValue(l.exponentDigits)) - l.fraction)
  }

  /** The exponent suffix: nothing, or `e`, a sign and digits; as the sign and the digits. */
  function ParseExponent(s: string): (r: Option<(bool, string)>)
    ensures r.Some? ==> AllDigits(r.value.1)
  {
    if s == [] then Some((false, []))
    else if |s| >= 3 && s[0] == 'e' && (s[1] == '+' || s[1] == '-') && AllDigits(s[2..]) then
      Some((s[1] == '-', s[2..]))
    else None
  }

  /** Splits an unsigned decimal literal into its parts; `None` for any other text. */
  function ParseUnsigned(s: string): (r: Option<Literal>)
    ensures r.Some? ==> WellFormed(r.value)
  {
    var i := LeadingDigits(s);
    if i == 0 then None
    else if i < |s| && s[i] == '.' then ParseFractionPart(s[..i], s[i + 1..])
    else
      match ParseExponent(s[i..])
      case None => None
      case Some((negative, e)) => Some(Literal(s[..i], 0, negative, e))
  }

  /** What follows the point: a non-empty digit run, then the exponent suffix. */
  function ParseFractionPart(whole: string, f: string): (r: Option<Literal>)
    requires AllDigits(whole)
    ensures r.Some? ==> WellFormed(r.value)
  {
    var j := LeadingDigits(f);
    if j == 0 then None
    else
      match ParseExponent(f[j..])
      case None => None
      case Some((negative, e)) =>
        DigitsJoin(whole, f[..j]);
        Some(Literal(whole + f[..j], j, negative, e))
  }

  lemma DigitsJoin(a: string, b: string)
    requires AllDigits(a) && AllDigits(b)
    ensures AllDigits(a + b)
  {
  }

  /** Reads an optionally negative decimal literal as a number; `None` for any other text. */
  function ParseNumber(s: string): (r: Option<JsNumber>)
    ensures r.Some? ==> |s| >= 1
  {
    var negative := s != [] && s[0] == '-';
    match ParseUnsigned(if negative then s[1..] else s)
    case None => None
    case Some(l) => Some(Normal(LiteralValue(negative, l)))
  }

  // ---- properties ----

  lemma {:induction false} DigitsOfNat(n: nat)
    ensures DigitsValue(NatToDecimal(n)) == n
    decreases n
  {
    var s := NatToDecimal(n);
    if n >= 10 {
      DigitsOfNat(n / 10);
      assert s[..|s| - 1] == NatToDecimal(n / 10);
    }
  }

  /** Digits written after others shift them `|b|` places up. */
  lemma {:induction false} DigitsAppend(a: string, b: string)
    requires AllDigits(a) && AllDigits(b)
    ensures DigitsValue(a + b) == DigitsValue(a) * Pow10(|b|) + DigitsValue(b)
    decreases |b|
  {
    if |b| > 0 {
      var b' := b[..|b| - 1];
      assert (a + b)[..|a + b| - 1] == a + b';
      var c := DigitValue(b[|b| - 1]);
      assert (a + b)[|a + b| - 1] == b[|b| - 1];
      assert DigitsValue(a + b) == DigitsValue(a + b') * 10 + c;
      assert DigitsValue(b) == DigitsValue(b') * 10 + c;
      assert Pow10(|b|) == 10 * Pow10(|b'|);
      DigitsAppend(a, b');
      ShiftDigit(DigitsValue(a), Pow10(|b'|), DigitsValue(b'), c);
    } else {
      assert a + b == a;
    }
  }

  lemma ShiftDigit(a: nat, p: nat, b: nat, c: nat)
    ensures (a * p + b) * 10 + c == a * (10 * p) + (b * 10 + c)
  {
  }

  lemma {:induction false} ZerosValue(m: nat)
    ensures DigitsValue(Zeros(m)) == 0
    decreases m
  {
    if m > 0 {
      assert Zeros(m)[..m - 1] == Zeros(m - 1);
      ZerosValue(m - 1);
    }
  }

  lemma ZeroThen(f: string)
    requires AllDigits(f)
    ensures DigitsValue("0" + f) == DigitsValue(f)
  {
    DigitsAppend("0", f);
    var a, p := DigitsValue("0"), Pow10(|f|);
    assert a == 0 by { assert "0"[..0] == []; }
    assert a * p == 0;
  }

  /** Leading zeros add nothing. */
  lemma LeadingZeros(m: nat, d: string)
    requires AllDigits(d)
    ensures DigitsValue(Zeros(m) + d) == DigitsValue(d)
  {
    DigitsAppend(Zeros(m), d);
    ZerosValue(m);
  }

  /** A digit run followed by a non-digit (or nothing) is measured exactly. */
  lemma {:induction false} LeadingDigitsOf(d: string, t: string)
    requires AllDigits(d)
    requires t == [] || !IsDigit(t[0])
    ensures LeadingDigits(d + t) == |d|
    decreases |d|
  {
    if |d| > 0 {
      assert (d + t)[0] == d[0];
      assert (d + t)[1..] == d[1..] + t;
      LeadingDigitsOf(d[1..], t);
    }
  }

  /** Where a digit run followed by a non-digit ends, and what lies on either side. */
  lemma DigitRun(d: string, t: string)
    requires AllDigits(d)
    requires t == [] || !IsDigit(t[0])
    ensures LeadingDigits(d + t) == |d|
    ensures (d + t)[..|d|] == d && (d + t)[|d|..] == t
    ensures |t| > 0 ==> (d + t)[|d|] == t[0] && (d + t)[|d| + 1..] == t[1..]
  {
    LeadingDigitsOf(d, t);
  }

  /** An exponent suffix reads back as its sign and digits, which denote the exponent. */
  lemma ExponentRoundTrip(e: int)
    ensures var a := if e >= 0 then e else -e;
      && ParseExponent(ExponentText(e)) == Some((e < 0, NatToDecimal(a)))
      && Signed(e < 0, DigitsValue(NatToDecimal(a))) == e
  {
    var a := if e >= 0 then e else -e;
    var s := ExponentText(e);
    assert s[2..] == NatToDecimal(a);
    DigitsOfNat(a);
  }

  /** Moving `m` trailing zeros into the exponent does not change the shortest form. */
  lemma {:induction false} NormalScale(negative: bool, significand: nat, exponent: int, m: nat)
    requires significand > 0
    ensures Normal(Number(negative, significand * Pow10(m), exponent - m)) == Normal(Number(negative, significand, exponent))
    decreases m
  {
    if m > 0 {
      var s := significand * Pow10(m - 1);
      assert significand * Pow10(m) == s * 10;
      assert (s * 10) % 10 == 0 && (s * 10) / 10 == s;
      NormalScale(negative, significand, exponent, m - 1);
    }
  }

  /** Raising the exponent by one multiplies the scale by ten. */
  lemma ScaleStep(e: int)
    ensures Scale(e + 1) == 10.0 * Scale(e)
  {
    if e < 0 {
      var p := Pow10(-e - 1) as real;
      assert Pow10(-e) as real == 10.0 * p;
      assert Scale(e + 1) == 1.0 / p;
      TenthOfReciprocal(p);
    }
  }

  lemma TenthOfReciprocal(p: real)
    requires p >= 1.0
    ensures 10.0 * (1.0 / (10.0 * p)) == 1.0 / p
  {
  }

  lemma MoveTen(a: real, b: real)
    ensures (10.0 * a) * b == a * (10.0 * b)
  {
  }

  lemma TenfoldSize(x: Number, y: Number)
    requires x.significand == 10 * y.significand && x.exponent + 1 == y.exponent
    ensures Size(x) == Size(y)
  {
    ScaleStep(x.exponent);
    assert x.significand as real == 10.0 * (y.significand as real);
    MoveTen(y.significand as real, Scale(x.exponent));
  }

  /** The shortest form denotes the same real number. */
  lemma {:induction false} NormalValue(x: Number)
    ensures Value(Normal(x)) == Value(x)
    decreases x.significand
  {
    if x.significand != 0 && x.significand % 10 == 0 {
      var y := Number(x.negative, x.significand / 10, x.exponent + 1);
      NormalValue(y);
      ScaleStep(x.exponent);
      assert Normal(x) == Normal(y);
      TenfoldSize(x, y);
    }
  }

  /** A digit run, then nothing or an exponent. */
  lemma ParseWhole(w: string, t: string, negative: bool, e: string)
    requires |w| > 0 && AllDigits(w)
    requires (t == [] || t[0] == 'e') && ParseExponent(t) == Some((negative, e))
    ensures ParseUnsigned(w + t) == Some(Literal(w, 0, negative, e))
  {
    DigitRun(w, t);
  }

  /** A digit run, a point, a digit run, then nothing or an exponent. */
  lemma ParsePoint(w: string, f: string, t: string, negative: bool, e: string)
    requires |w| > 0 && AllDigits(w) && |f| > 0 && AllDigits(f)
    requires (t == [] || t[0] == 'e') && ParseExponent(t) == Some((negative, e))
    ensures ParseUnsigned(w + ("." + (f + t))) == Some(Literal(w + f, |f|, negative, e))
  {
    var s := w + ("." + (f + t));
    DigitRun(w, "." + (f + t));
    DigitRun(f, t);
    assert s[|w| + 1..][..|f|] == f;
    assert s[|w| + 1..][|f|..] == t;
    ParseUnsignedAt(s, |w|, |f|, negative, e);
  }

  /** A digit run, a point and a digit run, with no exponent. */
  lemma ParseFraction(w: string, f: string)
    requires |w| > 0 && AllDigits(w) && |f| > 0 && AllDigits(f)
    ensures ParseUnsigned(w + ("." + f)) == Some(Literal(w + f, |f|, false, []))
  {
    assert f + [] == f;
    ParsePoint(w, f, [], false, []);
  }

  /** `ParseUnsigned` once the digit runs around the point are known. */
  lemma ParseUnsignedAt(s: string, i: nat, j: nat, negative: bool, e: string)
    requires 0 < i < |s| && LeadingDigits(s) == i && s[i] == '.'
    requires 0 < j && LeadingDigits(s[i + 1..]) == j && ParseExponent(s[i + 1..][j..]) == Some((negative, e))
    ensures ParseUnsigned(s) == Some(Literal(s[..i] + s[i + 1..][..j], j, negative, e))
  {
  }

  /** `ParseUnsigned` reads from `s` a literal denoting `significand` and `exponent`. */
  predicate ReadsAs(s: string, significand: nat, exponent: int) {
    match ParseUnsigned(s)
    case None => false
    case Some(l) => LiteralValue(false, l) == Number(false, significand, exponent)
  }

  /** Each layout of Number::toString reads back as the digits and exponent it was printed
      from. */
  lemma MagnitudeRoundTrip(negative: bool, significand: nat, exponent: int)
    requires Shortest(Number(negative, significand, exponent)) && significand > 0
    ensures var p := ParseUnsigned(Magnitude(significand, exponent));
      p.Some? && Normal(LiteralValue(negative, p.value)) == Number(negative, significand, exponent)
  {
    var k := |NatToDecimal(significand)|;
    var n := exponent + k;
    if k <= n <= 21 {
      PlainLayout(significand, exponent);
      NormalScale(negative, significand, exponent, exponent);
    } else if 0 < n <= 21 {
      PointLayout(significand, exponent);
    } else if -6 < n <= 0 {
      FractionLayout(significand, exponent);
    } else if k == 1 {
      ShortExponentLayout(significand, exponent);
    } else {
      LongExponentLayout(significand, exponent);
    }
  }

  lemma PlainLayout(significand: nat, exponent: int)
    requires significand > 0
    requires exponent >= 0 && exponent + |NatToDecimal(significand)| <= 21
    ensures ReadsAs(Magnitude(significand, exponent), significand * Pow10(exponent), 0)
  {
    var d := NatToDecimal(significand);
    assert Magnitude(significand, exponent) == d + Zeros(exponent);
    PlainReads(d, exponent);
    DigitsOfNat(significand);
  }

  lemma PointLayout(significand: nat, exponent: int)
    requires significand > 0
    requires exponent < 0 && 0 < exponent + |NatToDecimal(significand)| <= 21
    ensures ReadsAs(Magnitude(significand, exponent), significand, exponent)
  {
    var d := NatToDecimal(significand);
    var n := exponent + |d|;
    assert Magnitude(significand, exponent) == d[..n] + ("." + d[n..]);
    PointReads(d, n);
    DigitsOfNat(significand);
  }

  lemma FractionLayout(significand: nat, exponent: int)
    requires significand > 0
    requires -6 < exponent + |NatToDecimal(significand)| <= 0
    ensures ReadsAs(Magnitude(significand, exponent), significand, exponent)
  {
    var d := NatToDecimal(significand);
    var n := exponent + |d|;
    assert Magnitude(significand, exponent) == "0" + ("." + (Zeros(-n) + d));
    FractionReads(d, -n);
    DigitsOfNat(significand);
  }

  lemma ShortExponentLayout(significand: nat, exponent: int)
    requires significand > 0
    requires var k := |NatToDecimal(significand)|; k == 1 && !(-6 < exponent + k <= 21)
    ensures ReadsAs(Magnitude(significand, exponent), significand, exponent)
  {
    var d := NatToDecimal(significand);
    assert Magnitude(significand, exponent) == d + ExponentText(exponent);
    ShortExponentReads(d, exponent);
    DigitsOfNat(significand);
  }

  lemma LongExponentLayout(significand: nat, exponent: int)
    requires significand > 0
    requires var k := |NatToDecimal(significand)|; k > 1 && !(-6 < exponent + k <= 21)
    ensures ReadsAs(Magnitude(significand, exponent), significand, exponent)
  {
    var d := NatToDecimal(significand);
    var e := exponent + |d| - 1;
    assert Magnitude(significand, exponent) == d[..1] + ("." + (d[1..] + ExponentText(e)));
    LongExponentReads(d, e);
    DigitsOfNat(significand);
  }

  /** `D` followed by `z` zeros. */
  lemma PlainReads(d: string, z: nat)
    requires |d| > 0 && AllDigits(d)
    ensures ReadsAs(d + Zeros(z), DigitsValue(d) * Pow10(z), 0)
  {
    var s := d + Zeros(z);
    assert s + [] == s;
    ParseWhole(s, [], false, []);
    DigitsAppend(d, Zeros(z));
    ZerosValue(z);
  }

  /** `D[..n] . D[n..]`. */
  lemma PointReads(d: string, n: nat)
    requires AllDigits(d) && 0 < n < |d|
    ensures ReadsAs(d[..n] + ("." + d[n..]), DigitsValue(d), n - |d|)
  {
    ParseFraction(d[..n], d[n..]);
    assert d[..n] + d[n..] == d;
  }

  /** `0.` then `z` zeros then `D`. */
  lemma FractionReads(d: string, z: nat)
    requires |d| > 0 && AllDigits(d)
    ensures ReadsAs("0" + ("." + (Zeros(z) + d)), DigitsValue(d), -(z + |d|))
  {
    var f := Zeros(z) + d;
    ParseFraction("0", f);
    ZeroThen(f);
    LeadingZeros(z, d);
  }

  /** One digit, then the exponent. */
  lemma ShortExponentReads(d: string, e: int)
    requires |d| == 1 && AllDigits(d)
    ensures ReadsAs(d + ExponentText(e), DigitsValue(d), e)
  {
    ExponentRoundTrip(e);
    ParseWhole(d, ExponentText(e), e < 0, NatToDecimal(if e >= 0 then e else -e));
  }

  /** One digit, the point, the other digits, then the exponent. */
  lemma LongExponentReads(d: string, e: int)
    requires |d| > 1 && AllDigits(d)
    ensures ReadsAs(d[..1] + ("." + (d[1..] + ExponentText(e))), DigitsValue(d), e - (|d| - 1))
  {
    var a := NatToDecimal(if e >= 0 then e else -e);
    LongExponentParse(d, e);
    ExponentRoundTrip(e);
    LiteralOf(d, |d| - 1, e < 0, a, e);
  }

  lemma LongExponentParse(d: string, e: int)
    requires |d| > 1 && AllDigits(d)
    ensures ParseUnsigned(d[..1] + ("." + (d[1..] + ExponentText(e)))) ==
      Some(Literal(d, |d| - 1, e < 0, NatToDecimal(if e >= 0 then e else -e)))
  {
    ExponentRoundTrip(e);
    ParsePoint(d[..1], d[1..], ExponentText(e), e < 0, NatToDecimal(if e >= 0 then e else -e));
    assert d[..1] + d[1..] == d;
  }

  /** The value of a literal whose exponent digits are known to denote `e`. */
  lemma LiteralOf(d: string, fraction: nat, negative: bool, a: string, e: int)
    requires AllDigits(d) && AllDigits(a) && Signed(negative, DigitsValue(a)) == e
    ensures LiteralValue(false, Literal(d, fraction, negative, a)) == Number(false, DigitsValue(d), e - fraction)
  {
  }

  /** `String(x)` reads back as `x`, so two numbers print alike only when they are equal. */
  lemma ParseNumberText(x: JsNumber)
    ensures ParseNumber(NumberText(x)) == Some(x)
  {
    var s := NumberText(x);
    if x.significand == 0 {
      assert s == [] + "0";
      DigitRun("0", []);
    } else {
      var m := Magnitude(x.significand, x.exponent);
      MagnitudeStartsWithDigit(x.significand, x.exponent);
      MagnitudeRoundTrip(x.negative, x.significand, x.exponent);
      if x.negative {
        assert s[1..] == m;
      }
    }
  }
}
