/**
 Decimal numerals as text: what a string of digits denotes, what a printed decimal
 denotes, and the numeral of a natural number.
 */
module Decimals {

  function Pow(b: nat, e: nat): nat {
    if e == 0 then 1 else b * Pow(b, e - 1)
  }

  lemma {:induction false} PowAdd(b: nat, e: nat, f: nat)
    ensures Pow(b, e + f) == Pow(b, e) * Pow(b, f)
  {
    if e > 0 {
      PowAdd(b, e - 1, f);
      MulAssociative(b, Pow(b, e - 1), Pow(b, f));
    }
  }

  lemma MulAssociative(a: int, b: int, c: int)
    ensures a * (b * c) == (a * b) * c
  {
  }

  lemma {:induction false} PowPositive(b: nat, e: nat)
    requires b > 0
    ensures Pow(b, e) > 0
  {
    if e > 0 {
      PowPositive(b, e - 1);
    }
  }

  lemma {:induction false} PowTen(e: nat)
    ensures Pow(10, e) == Pow(2, e) * Pow(5, e)
  {
    if e > 0 {
      PowTen(e - 1);
      var a, b := Pow(2, e - 1), Pow(5, e - 1);
      assert 10 * (a * b) == (2 * a) * (5 * b);
    }
  }

  // ----- digits

  predicate IsDigit(c: char) {
    '0' <= c <= '9'
  }

  predicate AllDigits(s: string) {
    forall i :: 0 <= i < |s| ==> IsDigit(s[i])
  }

  function DigitValue(c: char): nat
    requires IsDigit(c)
  {
    (c as int) - ('0' as int)
  }

  function Digit(d: nat): (c: char)
    requires d < 10
    ensures IsDigit(c) && DigitValue(c) == d
  {
    (('0' as int) + d) as char
  }

  /** The number a string of digits denotes. */
  function Natural(s: string): nat
    requires AllDigits(s)
  {
    if s == "" then 0 else 10 * Natural(s[..|s| - 1]) + DigitValue(s[|s| - 1])
  }

  lemma {:induction false} NaturalAppend(s: string, t: string)
    requires AllDigits(s) && AllDigits(t)
    ensures AllDigits(s + t) && Natural(s + t) == Natural(s) * Pow(10, |t|) + Natural(t)
  {
    if t == "" {
      assert s + t == s;
    } else {
      var init, d := t[..|t| - 1], DigitValue(t[|t| - 1]);
      NaturalAppend(s, init);
      AppendDigit(s, t);
      AppendDigit("", t);
      TenShift(Natural(s), Pow(10, |init|), Natural(init), d);
      assert "" + t == t && "" + init == init;
    }
  }

  lemma AppendDigit(s: string, t: string)
    requires AllDigits(s) && AllDigits(t) && t != ""
    ensures AllDigits(s + t) && AllDigits(s + t[..|t| - 1])
    ensures Natural(s + t) == 10 * Natural(s + t[..|t| - 1]) + DigitValue(t[|t| - 1])
  {
    assert (s + t)[..|s + t| - 1] == s + t[..|t| - 1];
  }

  lemma TenShift(a: int, p: int, m: int, d: int)
    ensures 10 * (a * p + m) + d == a * (10 * p) + (10 * m + d)
  {
  }

  function Zeroes(n: nat): (s: string)
    ensures |s| == n && AllDigits(s) && forall i :: 0 <= i < n ==> s[i] == '0'
  {
    seq(n, _ => '0')
  }

  lemma {:induction false} ZeroesAreZero(s: string)
    requires forall i :: 0 <= i < |s| ==> s[i] == '0'
    ensures AllDigits(s) && Natural(s) == 0
  {
    if s != "" {
      ZeroesAreZero(s[..|s| - 1]);
    }
  }

  lemma PadLeft(n: nat, s: string)
    requires AllDigits(s)
    ensures AllDigits(Zeroes(n) + s) && Natural(Zeroes(n) + s) == Natural(s)
  {
    NaturalAppend(Zeroes(n), s);
    ZeroesAreZero(Zeroes(n));
  }

  lemma PadRight(s: string, n: nat)
    requires AllDigits(s)
    ensures AllDigits(s + Zeroes(n)) && Natural(s + Zeroes(n)) == Natural(s) * Pow(10, n)
  {
    NaturalAppend(s, Zeroes(n));
    ZeroesAreZero(Zeroes(n));
  }

  /** The numeral of a number, without leading zeros. */
  function Numeral(n: nat): (s: string)
    ensures |s| > 0 && AllDigits(s)
  {
    if n < 10 then [Digit(n)] else Numeral(n / 10) + [Digit(n % 10)]
  }

  lemma {:induction false} NumeralDenotes(n: nat)
    ensures Natural(Numeral(n)) == n
  {
    if n >= 10 {
      NumeralDenotes(n / 10);
      var init := Numeral(n / 10);
      assert Numeral(n)[..|init|] == init;
    } else {
      assert Numeral(n)[..0] == "";
    }
  }

  lemma {:induction false} NumeralStartsHigh(n: nat)
    requires n > 0
    ensures Numeral(n)[0] != '0'
  {
    if n >= 10 {
      NumeralStartsHigh(n / 10);
    }
  }

  lemma {:induction false} NotZero(s: string)
    requires AllDigits(s) && s != "" && s[0] != '0'
    ensures Natural(s) > 0
  {
    if |s| > 1 {
      NotZero(s[..|s| - 1]);
    }
  }

  lemma {:induction false} ZeroIsZeroes(s: string)
    requires AllDigits(s) && Natural(s) == 0
    ensures forall i :: 0 <= i < |s| ==> s[i] == '0'
  {
    if s != "" {
      ZeroIsZeroes(s[..|s| - 1]);
      assert DigitValue(s[|s| - 1]) == 0;
    }
  }

  // ----- printed decimals

  function Body(text: string): string {
    if text != "" && text[0] == '-' then text[1..] else text
  }

  predicate Negative(text: string) {
    text != "" && text[0] == '-'
  }

  /** The position of the first point, or the length. */
  function PointAt(s: string): (p: nat)
    ensures p <= |s| && (p < |s| ==> s[p] == '.') && forall i :: 0 <= i < p ==> s[i] != '.'
  {
    if s == "" || s[0] == '.' then 0 else 1 + PointAt(s[1..])
  }

  function Whole(text: string): string {
    Body(text)[..PointAt(Body(text))]
  }

  function Fraction(text: string): string {
    var s, p := Body(text), PointAt(Body(text));
    if p < |s| then s[p + 1..] else ""
  }

  /** An optional sign, digits, and optionally a point with digits behind it. */
  predicate WellFormed(text: string) {
    && |Whole(text)| > 0 && AllDigits(Whole(text)) && AllDigits(Fraction(text))
    && (PointAt(Body(text)) < |Body(text)| ==> |Fraction(text)| > 0)
  }

  /** The printed value is `Coefficient(text) / 10^Places(text)`. */
  function Coefficient(text: string): int
    requires WellFormed(text)
  {
    var n: int := Natural(Whole(text) + Fraction(text));
    if Negative(text) then -n else n
  }

  function Places(text: string): nat {
    |Fraction(text)|
  }

  /** Digits, then a point and more digits when there are any. */
  function Joined(whole: string, fraction: string): string {
    if fraction == "" then whole else whole + "." + fraction
  }

  function Signed(negative: bool, body: string): string {
    if negative then "-" + body else body
  }

  lemma {:induction false} PointAfter(whole: string, rest: string)
    requires AllDigits(whole) && (rest == "" || rest[0] == '.')
    ensures PointAt(whole + rest) == |whole|
  {
    if whole != "" {
      PointAfter(whole[1..], rest);
      assert (whole + rest)[1..] == whole[1..] + rest;
    } else {
      assert whole + rest == rest;
    }
  }

  lemma JoinedParts(whole: string, fraction: string)
    requires AllDigits(whole) && AllDigits(fraction) && |whole| > 0
    ensures var body := Joined(whole, fraction);
            && PointAt(body) == |whole| && body[..|whole|] == whole
            && (if PointAt(body) < |body| then body[PointAt(body) + 1..] else "") == fraction
            && (PointAt(body) < |body| ==> |fraction| > 0)
  {
    if fraction == "" {
      PointAfter(whole, "");
      assert whole + "" == whole;
    } else {
      PointAfter(whole, "." + fraction);
      assert Joined(whole, fraction) == whole + ("." + fraction);
    }
  }

  function Negated(negative: bool, n: nat): int {
    if negative then -(n as int) else n
  }

  /** What a decimal put together from its parts denotes. */
  lemma JoinedDenotes(negative: bool, whole: string, fraction: string)
    requires AllDigits(whole) && AllDigits(fraction) && |whole| > 0
    ensures AllDigits(whole + fraction)
    ensures var text := Signed(negative, Joined(whole, fraction));
            && WellFormed(text) && Places(text) == |fraction| && Coefficient(text) == Negated(negative, Natural(whole + fraction))
            && Whole(text) == whole && Negative(text) == negative
  {
    var body := Joined(whole, fraction);
    var text := Signed(negative, body);
    JoinedParts(whole, fraction);
    assert IsDigit(whole[0]) && body[0] == whole[0];
    assert Body(text) == body && Negative(text) == negative;
    assert Whole(text) == whole && Fraction(text) == fraction;
  }
}
