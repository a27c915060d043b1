/**
 The browser's exact decimal printers. A rendered figure denotes exactly the number it
 was given; a figure that has no exact rendering is refused, never rounded.
 */
module Printing {
  import opened Decimals
  import opened Wrappers

  /** A wire exponent as a browser number: whole, or something else. */
  datatype Exponent = WholeNumber(value: int) | NotWhole

  /** `{coefficient, exponent}` with either part possibly absent. */
  datatype Wire = Wire(coefficient: Option<string>, exponent: Option<Exponent>)

  const MAX_SAFE_EXPONENT := 64
  const MAX_RAT_DIGITS := 128

  /** An optional minus and at least one digit. */
  predicate IsInteger(s: string) {
    |Body(s)| > 0 && AllDigits(Body(s))
  }

  function IntegerOf(s: string): int
    requires IsInteger(s)
  {
    Negated(Negative(s), Natural(Body(s)))
  }

  // ----- sign and leading zeros

  /** Zero, or zero with a fraction of zeros. */
  predicate ZeroBody(body: string) {
    && body != "" && body[0] == '0'
    && (|body| == 1 || (body[1] == '.' && forall i :: 2 <= i < |body| ==> body[i] == '0'))
  }

  /** A minus in front unless the figure is zero. */
  function Sign(negative: bool, body: string): string {
    if !negative || ZeroBody(body) then body else "-" + body
  }

  lemma ZeroBodyIsZero(whole: string, fraction: string)
    requires AllDigits(whole) && AllDigits(fraction) && |whole| > 0 && ZeroBody(Joined(whole, fraction))
    ensures AllDigits(whole + fraction) && Natural(whole + fraction) == 0
  {
    var body := Joined(whole, fraction);
    JoinedParts(whole, fraction);
    assert body[..|whole|] == whole;
    assert forall i :: 0 <= i < |whole| ==> body[i] == whole[i] && IsDigit(body[i]);
    assert |whole| == 1;
    forall i | 0 <= i < |fraction|
      ensures fraction[i] == '0'
    {
      assert fraction[i] == body[i + 2];
    }
    ZeroesAreZero(whole + fraction);
  }

  /** A single zero, or no leading zero at all. */
  predicate Lean(whole: string) {
    whole == "0" || (whole != "" && whole[0] != '0')
  }

  /** Without superfluous zeros before the point, and without a minus in front of zero. */
  ghost predicate Tidy(text: string) {
    WellFormed(text) && Lean(Whole(text)) && (Negative(text) ==> Coefficient(text) != 0)
  }

  lemma ZeroIsZeroBody(whole: string, fraction: string)
    requires AllDigits(whole) && AllDigits(fraction) && Lean(whole) && AllDigits(whole + fraction) && Natural(whole + fraction) == 0
    ensures ZeroBody(Joined(whole, fraction))
  {
    ZeroIsZeroes(whole + fraction);
    assert (whole + fraction)[0] == whole[0];
    forall i | 0 <= i < |fraction|
      ensures fraction[i] == '0'
    {
      assert fraction[i] == (whole + fraction)[|whole| + i];
    }
  }

  lemma SignDenotes(negative: bool, whole: string, fraction: string)
    requires AllDigits(whole) && AllDigits(fraction) && Lean(whole)
    ensures AllDigits(whole + fraction)
    ensures var text := Sign(negative, Joined(whole, fraction));
            && Tidy(text) && Places(text) == |fraction| && Coefficient(text) == Negated(negative, Natural(whole + fraction))
            && |text| == |Joined(whole, fraction)| + if negative && Natural(whole + fraction) > 0 then 1 else 0
  {
    JoinedDenotes(true, whole, fraction);
    JoinedDenotes(false, whole, fraction);
    if ZeroBody(Joined(whole, fraction)) {
      ZeroBodyIsZero(whole, fraction);
    } else if Natural(whole + fraction) == 0 {
      ZeroIsZeroBody(whole, fraction);
    }
  }

  /** `s` without its first `i` characters, or a single zero. */
  function Stripped(s: string, i: nat): string
    requires i <= |s|
  {
    if i == |s| then "0" else s[i..]
  }

  method StripLeadingZeros(s: string) returns (t: string, ghost zeros: nat)
    ensures zeros <= |s| && (forall k :: 0 <= k < zeros ==> s[k] == '0') && t == Stripped(s, zeros)
    ensures t == "0" || (t != "" && t[0] != '0')
  {
    var i := 0;
    while i < |s| && s[i] == '0'
      invariant i <= |s| && forall k :: 0 <= k < i ==> s[k] == '0'
    {
      i := i + 1;
    }
    t, zeros := if i == |s| then "0" else s[i..], i;
  }

  lemma DropZeros(s: string, i: nat)
    requires AllDigits(s) && i <= |s| && forall k :: 0 <= k < i ==> s[k] == '0'
    ensures AllDigits(s[i..]) && Natural(s) == Natural(s[i..])
  {
    assert s == Zeroes(i) + s[i..];
    PadLeft(i, s[i..]);
  }

  lemma StrippedDenotes(s: string, i: nat, rest: string)
    requires AllDigits(s) && AllDigits(rest) && i <= |s| && forall k :: 0 <= k < i ==> s[k] == '0'
    ensures AllDigits(Stripped(s, i)) && |Stripped(s, i)| > 0
    ensures AllDigits(Stripped(s, i) + rest) && AllDigits(s + rest) && Natural(Stripped(s, i) + rest) == Natural(s + rest)
  {
    DropZeros(s + rest, i);
    assert (s + rest)[i..] == s[i..] + rest;
    if i == |s| {
      assert s[i..] + rest == rest;
      DropZeros("0" + rest, 1);
      assert ("0" + rest)[1..] == rest;
    }
  }

  /** The digits padded to leave at least one before the point. */
  function Padded(digits: string, places: nat): (s: string)
    requires AllDigits(digits)
    ensures AllDigits(s) && |s| > places
  {
    if |digits| <= places then Zeroes(places + 1 - |digits|) + digits else digits
  }

  lemma PaddedDenotes(digits: string, places: nat)
    requires AllDigits(digits)
    ensures Natural(Padded(digits, places)) == Natural(digits)
  {
    if |digits| <= places {
      var n := places + 1 - |digits|;
      assert Padded(digits, places) == Zeroes(n) + digits;
      PadLeft(n, digits);
    }
  }

  // ----- coefficient and exponent

  function RawCoefficient(d: Wire): string {
    if d.coefficient.Some? then d.coefficient.value else "0"
  }

  function RawExponent(d: Wire): Exponent {
    if d.exponent.Some? then d.exponent.value else WholeNumber(0)
  }

  predicate Renderable(d: Wire) {
    && IsInteger(RawCoefficient(d))
    && RawExponent(d).WholeNumber? && -MAX_SAFE_EXPONENT <= RawExponent(d).value <= MAX_SAFE_EXPONENT
  }

  /** The text denotes coefficient times ten to the exponent, with one place per negative power. */
  ghost predicate RendersWire(text: string, d: Wire)
    requires Renderable(d)
  {
    var c, e := IntegerOf(RawCoefficient(d)), RawExponent(d).value;
    && Tidy(text)
    && if e >= 0 then Places(text) == 0 && Coefficient(text) == c * Pow(10, e)
       else Places(text) == -e && Coefficient(text) == c
  }

  method FormatDecimal(input: Option<Wire>) returns (text: Option<string>)
    ensures text.Some? <==> input.Some? && Renderable(input.value)
    ensures text.Some? ==> RendersWire(text.value, input.value)
  {
    if input.None? {
      return None;
    }
    var raw, exponent := RawCoefficient(input.value), RawExponent(input.value);
    if !IsInteger(raw) {
      return None;
    }
    if exponent.NotWhole? || exponent.value < -MAX_SAFE_EXPONENT || exponent.value > MAX_SAFE_EXPONENT {
      return None;
    }
    var rendered;
    if exponent.value >= 0 {
      rendered := FormatWhole(raw, exponent.value);
    } else {
      rendered := FormatFraction(raw, -exponent.value);
    }
    text := Some(rendered);
  }

  method FormatWhole(raw: string, exponent: nat) returns (text: string)
    requires IsInteger(raw)
    ensures Tidy(text) && Places(text) == 0 && Coefficient(text) == IntegerOf(raw) * Pow(10, exponent)
  {
    var negative := Negative(raw);
    var digits := Body(raw) + Zeroes(exponent);
    PadRight(Body(raw), exponent);
    var whole, zeros := StripLeadingZeros(digits);
    StrippedDenotes(digits, zeros, "");
    text := Sign(negative, whole);
    assert whole + "" == whole && digits + "" == digits;
    SignDenotes(negative, whole, "");
    NegatedProduct(negative, Natural(Body(raw)), Pow(10, exponent));
  }

  lemma NegatedProduct(negative: bool, a: nat, b: nat)
    ensures a * b >= 0 && Negated(negative, a * b) == Negated(negative, a) * b
  {
  }

  method FormatFraction(raw: string, shift: nat) returns (text: string)
    requires IsInteger(raw) && shift > 0
    ensures Tidy(text) && Places(text) == shift && Coefficient(text) == IntegerOf(raw)
  {
    var negative := Negative(raw);
    var digits := Padded(Body(raw), shift);
    PaddedDenotes(Body(raw), shift);
    var cut := |digits| - shift;
    var whole, zeros := StripLeadingZeros(digits[..cut]);
    var fraction := digits[cut..];
    assert digits[..cut] + fraction == digits;
    StrippedDenotes(digits[..cut], zeros, fraction);
    text := Sign(negative, whole + "." + fraction);
    SignDenotes(negative, whole, fraction);
  }

  // ----- rationals

  /** The position of the first slash, or the length. */
  function SlashAt(s: string): (p: nat)
    ensures p <= |s| && (p < |s| ==> s[p] == '/')
  {
    if s == "" || s[0] == '/' then 0 else 1 + SlashAt(s[1..])
  }

  function Numerator(s: string): string {
    s[..SlashAt(s)]
  }

  function Denominator(s: string): string {
    if SlashAt(s) < |s| then s[SlashAt(s) + 1..] else "1"
  }

  /** A rational within the digit bound with a nonzero denominator. */
  predicate Rational(s: string) {
    && s != "" && IsInteger(Numerator(s)) && Denominator(s) != "" && AllDigits(Denominator(s))
    && |Numerator(s)| <= MAX_RAT_DIGITS && |Denominator(s)| <= MAX_RAT_DIGITS
    && Natural(Denominator(s)) != 0
  }

  ghost predicate PowersOfTwoAndFive(den: nat, i: nat, j: nat) {
    den == Pow(2, i) * Pow(5, j)
  }

  /** The denominator divides a power of ten the printer accepts. */
  ghost predicate Terminating(den: nat) {
    exists i: nat, j: nat :: i <= MAX_SAFE_EXPONENT && j <= MAX_SAFE_EXPONENT && PowersOfTwoAndFive(den, i, j)
  }

  lemma {:induction false} PowFiveOdd(j: nat)
    ensures Pow(5, j) % 2 == 1
  {
    if j > 0 {
      PowFiveOdd(j - 1);
    }
  }

  /** Divides out one prime, counting. */
  method DivideOut(den: nat, p: nat) returns (rest: nat, count: nat)
    requires den > 0 && p >= 2
    ensures rest > 0 && rest % p != 0 && den == rest * Pow(p, count)
  {
    rest, count := den, 0;
    while rest % p == 0
      invariant rest > 0 && den == rest * Pow(p, count)
      decreases rest
    {
      var next := rest / p;
      DivideStep(rest, p, Pow(p, count));
      rest, count := next, count + 1;
    }
  }

  lemma DivideStep(rest: nat, p: nat, power: nat)
    requires rest > 0 && p >= 2 && rest % p == 0
    ensures 0 < rest / p < rest && rest * power == rest / p * (p * power)
  {
    var q := rest / p;
    assert rest == q * p;
    assert q > 0;
    MulAssociative(q, p, power);
    assert q * p >= q * 2;
  }

  lemma CancelFactor(p: nat, x: nat, y: nat)
    requires p >= 2 && p * x == p * y
    ensures x == y
  {
  }

  /** The prime factors of ten. */
  predicate TwoOrFive(p: nat) {
    p == 2 || p == 5
  }

  lemma MultipleOf(p: nat, x: nat)
    requires TwoOrFive(p)
    ensures (p * x) % p == 0
  {
    if p == 2 {
      assert (2 * x) % 2 == 0;
    } else {
      assert (5 * x) % 5 == 0;
    }
  }

  /** Dividing out a factor gives one count and one rest. */
  lemma {:induction false} FactorUnique(p: nat, a: nat, t: nat, b: nat, i: nat)
    requires TwoOrFive(p) && a % p != 0 && b % p != 0 && a * Pow(p, t) == b * Pow(p, i)
    ensures t == i && a == b
  {
    if t == 0 && i > 0 {
      Regroup(b, p, Pow(p, i - 1));
      MultipleOf(p, b * Pow(p, i - 1));
    } else if t > 0 && i == 0 {
      Regroup(a, p, Pow(p, t - 1));
      MultipleOf(p, a * Pow(p, t - 1));
    } else if t > 0 {
      Regroup(a, p, Pow(p, t - 1));
      Regroup(b, p, Pow(p, i - 1));
      CancelFactor(p, a * Pow(p, t - 1), b * Pow(p, i - 1));
      FactorUnique(p, a, t - 1, b, i - 1);
    }
  }

  lemma Regroup(a: nat, p: nat, x: nat)
    ensures a * (p * x) == p * (a * x)
  {
  }

  /** What the two divisions say about every way to write the denominator. */
  lemma DividedOut(den: nat, rest: nat, twos: nat, last: nat, fives: nat, i: nat, j: nat)
    requires den == rest * Pow(2, twos) && rest % 2 != 0 && rest == last * Pow(5, fives) && last % 5 != 0
    requires PowersOfTwoAndFive(den, i, j)
    ensures last == 1 && twos == i && fives == j
  {
    PowFiveOdd(j);
    Commute(Pow(2, i), Pow(5, j));
    FactorUnique(2, rest, twos, Pow(5, j), i);
    FactorUnique(5, last, fives, 1, j);
  }

  lemma Commute(a: nat, b: nat)
    ensures a * b == b * a
  {
  }

  /** Scaling to the common number of places is exact. */
  lemma ExactScale(num: nat, twos: nat, fives: nat, scale: nat)
    requires twos <= scale && fives <= scale
    ensures num * Pow(2, scale - twos) * Pow(5, scale - fives) * (Pow(2, twos) * Pow(5, fives)) == num * Pow(10, scale)
  {
    PowAdd(2, scale - twos, twos);
    PowAdd(5, scale - fives, fives);
    PowTen(scale);
    FourFactors(num, Pow(2, scale - twos), Pow(5, scale - fives), Pow(2, twos), Pow(5, fives));
  }

  lemma FourFactors(n: nat, a: nat, b: nat, c: nat, d: nat)
    ensures n * a * b * (c * d) == n * ((a * c) * (b * d))
  {
  }

  /** The denominator times `q` is the power of ten with `k` zeros. */
  ghost predicate Reaches(den: nat, q: nat, k: nat) {
    q * den == Pow(10, k)
  }

  /** The text denotes exactly the rational, in as few places as the denominator allows. */
  ghost predicate RendersRational(text: string, s: string)
    requires Rational(s)
  {
    && Tidy(text) && Places(text) <= MAX_SAFE_EXPONENT
    && (forall k: nat, q: nat :: Reaches(Natural(Denominator(s)), q, k) ==> Places(text) <= k)
    && Coefficient(text) * Natural(Denominator(s)) == IntegerOf(Numerator(s)) * Pow(10, Places(text))
  }

  lemma NegatedScale(negative: bool, digits: nat, den: nat, num: nat, power: nat)
    requires digits * den == num * power
    ensures Negated(negative, digits) * den == Negated(negative, num) * power
  {
  }

  /** A minus if there is something to be negative, the digits, one before the point at least, and the point. */
  function DecimalLength(negative: bool, value: nat, scale: nat): nat {
    (if negative && value > 0 then 1 else 0)
    + (if scale == 0 then |Numeral(value)| else 1 + if |Numeral(value)| > scale then |Numeral(value)| else scale + 1)
  }

  /** Places the point `scale` digits from the right. */
  method PlacePoint(negative: bool, value: nat, scale: nat) returns (text: string)
    ensures Tidy(text) && Places(text) == scale && Coefficient(text) == Negated(negative, value)
    ensures |text| == DecimalLength(negative, value, scale) && (scale == 0 ==> text == Sign(negative, Numeral(value)))
  {
    NumeralDenotes(value);
    LeanNumeral(value, scale);
    if scale == 0 {
      text := Sign(negative, Numeral(value));
      assert Numeral(value) + "" == Numeral(value);
      SignDenotes(negative, Numeral(value), "");
      return;
    }
    var digits := Padded(Numeral(value), scale);
    PaddedDenotes(Numeral(value), scale);
    text := SplitDigits(negative, digits, scale);
  }

  /** The last `scale` digits behind a point. */
  method SplitDigits(negative: bool, digits: string, scale: nat) returns (text: string)
    requires AllDigits(digits) && 0 < scale < |digits| && Lean(digits[..|digits| - scale])
    ensures Tidy(text) && Places(text) == scale && Coefficient(text) == Negated(negative, Natural(digits))
    ensures |text| == |digits| + 1 + if negative && Natural(digits) > 0 then 1 else 0
  {
    var cut := |digits| - scale;
    text := Sign(negative, digits[..cut] + "." + digits[cut..]);
    assert digits[..cut] + digits[cut..] == digits;
    SignDenotes(negative, digits[..cut], digits[cut..]);
  }

  lemma LeanNumeral(value: nat, scale: nat)
    ensures Lean(Numeral(value))
    ensures scale > 0 ==> Lean(Padded(Numeral(value), scale)[..|Padded(Numeral(value), scale)| - scale])
  {
    var digits := Numeral(value);
    if value > 0 {
      NumeralStartsHigh(value);
    } else {
      assert Numeral(0) == [Digit(0)];
    }
    if scale > 0 {
      var padded := Padded(digits, scale);
      if |digits| <= scale {
        assert |padded| == scale + 1 && padded[0] == '0';
        assert padded[..1] == "0";
      } else {
        assert padded[..|padded| - scale][0] == digits[0];
      }
    }
  }

  method FormatRational(input: Option<string>) returns (text: Option<string>)
    ensures text.Some? <==> input.Some? && Rational(input.value) && Terminating(Natural(Denominator(input.value)))
    ensures text.Some? ==> RendersRational(text.value, input.value)
  {
    if input.None? || input.value == "" {
      return None;
    }
    var s := input.value;
    var numerator, denominator := Numerator(s), Denominator(s);
    if !IsInteger(numerator) || denominator == "" || !AllDigits(denominator) {
      return None;
    }
    if |numerator| > MAX_RAT_DIGITS || |denominator| > MAX_RAT_DIGITS {
      return None;
    }
    var den := Natural(denominator);
    if den == 0 {
      return None;
    }
    var negative, num := Negative(numerator), Natural(Body(numerator));
    var rest, twos := DivideOut(den, 2);
    var last, fives := DivideOut(rest, 5);
    forall i: nat, j: nat | PowersOfTwoAndFive(den, i, j)
      ensures last == 1 && twos == i && fives == j
    {
      DividedOut(den, rest, twos, last, fives, i, j);
    }
    if last != 1 {
      return None;
    }
    Commute(Pow(2, twos), Pow(5, fives));
    assert PowersOfTwoAndFive(den, twos, fives);
    var scale := if twos > fives then twos else fives;
    if scale > MAX_SAFE_EXPONENT {
      return None;
    }
    var value := ScaleUp(num, twos, fives, scale, den);
    NegatedScale(negative, value, den, num, Pow(10, scale));
    FewestPlaces(den, twos, fives, scale);
    var rendered := PlacePoint(negative, value, scale);
    text := Some(rendered);
  }

  method ScaleUp(num: nat, twos: nat, fives: nat, scale: nat, ghost den: nat) returns (value: nat)
    requires twos <= scale && fives <= scale && PowersOfTwoAndFive(den, twos, fives)
    ensures value * den == num * Pow(10, scale)
  {
    value := num * Pow(2, scale - twos) * Pow(5, scale - fives);
    ExactScale(num, twos, fives, scale);
  }

  /** No smaller power of ten is a multiple of the denominator. */
  lemma FewestPlaces(den: nat, twos: nat, fives: nat, scale: nat)
    requires PowersOfTwoAndFive(den, twos, fives) && scale == if twos > fives then twos else fives
    ensures forall k: nat, q: nat :: Reaches(den, q, k) ==> scale <= k
  {
    forall k: nat, q: nat | Reaches(den, q, k)
      ensures scale <= k
    {
      Commute(q, den);
      var i, j := DivisorOfPowerOfTen(den, q, k);
      SameFactors(den, twos, fives, i, j);
    }
  }

  lemma SameFactors(den: nat, twos: nat, fives: nat, i: nat, j: nat)
    requires PowersOfTwoAndFive(den, twos, fives) && PowersOfTwoAndFive(den, i, j)
    ensures twos == i && fives == j
  {
    PowFiveOdd(fives);
    Commute(Pow(2, twos), Pow(5, fives));
    DividedOut(den, Pow(5, fives), twos, 1, fives, i, j);
  }

  // ----- nothing that could be rendered is refused

  /** `u` and `v` witness that `a` and `b` have no common factor. */
  predicate Coprime(a: int, b: int, u: int, v: int) {
    u * a + v * b == 1
  }

  lemma DenominatorDivides(num: int, den: int, u: int, v: int, c: int, power: int)
    requires Coprime(num, den, u, v) && c * den == num * power
    ensures den * (u * c + v * power) == power
  {
    calc {
      den * (u * c + v * power);
      u * (c * den) + v * power * den;
      u * (num * power) + v * power * den;
      (u * num + v * den) * power;
    }
  }

  lemma {:induction false} Factored(n: nat, p: nat) returns (rest: nat, count: nat)
    requires n > 0 && TwoOrFive(p)
    ensures rest > 0 && rest % p != 0 && n == rest * Pow(p, count)
  {
    if n % p != 0 {
      rest, count := n, 0;
    } else {
      DivideStep(n, p, 1);
      rest, count := Factored(n / p, p);
      Regroup(rest, p, Pow(p, count));
      count := count + 1;
    }
  }

  lemma ProductResidue(a: nat, b: nat, p: nat)
    requires TwoOrFive(p) && a % p != 0 && b % p != 0
    ensures (a * b) % p != 0
  {
    var x, r, y, s := a / p, a % p, b / p, b % p;
    assert a == p * x + r && b == p * y + s;
    ResidueOfProduct(p, x, r, y, s);
    if p == 5 {
      assert r == 1 || r == 2 || r == 3 || r == 4;
      assert s == 1 || s == 2 || s == 3 || s == 4;
    }
  }

  lemma ShiftResidue(p: nat, m: nat, n: nat)
    requires TwoOrFive(p)
    ensures (p * m + n) % p == n % p
  {
    if p == 2 {
      assert (2 * m + n) % 2 == n % 2;
    } else {
      assert (5 * m + n) % 5 == n % 5;
    }
  }

  lemma Distribute(a: nat, b: nat, c: nat)
    ensures (a + b) * c == a * c + b * c && c * (a + b) == c * a + c * b
  {
  }

  lemma ResidueOfProduct(p: nat, x: nat, r: nat, y: nat, s: nat)
    requires TwoOrFive(p)
    ensures ((p * x + r) * (p * y + s)) % p == (r * s) % p
  {
    var b := p * y + s;
    Distribute(p * x, r, b);
    MulAssociative(p, x, b);
    Distribute(p * y, s, r);
    Regroup(r, p, y);
    Distribute(x * b, r * y, p);
    assert (p * x + r) * b == p * (x * b + r * y) + r * s;
    ShiftResidue(p, x * b + r * y, r * s);
  }

  lemma CollectPowers(a: nat, b: nat, p: nat, s: nat, t: nat)
    ensures (a * Pow(p, s)) * (b * Pow(p, t)) == (a * b) * Pow(p, s + t)
  {
    PowAdd(p, s, t);
    FourInTwo(a, Pow(p, s), b, Pow(p, t));
  }

  lemma FourInTwo(a: nat, x: nat, b: nat, y: nat)
    ensures (a * x) * (b * y) == (a * b) * (x * y)
  {
  }

  /** Divisors of a power of ten are products of a power of two and a power of five. */
  lemma DivisorOfPowerOfTen(den: nat, q: nat, k: nat) returns (i: nat, j: nat)
    requires den * q == Pow(10, k)
    ensures i <= k && j <= k && PowersOfTwoAndFive(den, i, j)
  {
    PowPositive(10, k);
    assert den > 0 && q > 0;
    var a, s := Factored(den, 2);
    var b, t := Factored(q, 2);
    CollectPowers(a, b, 2, s, t);
    ProductResidue(a, b, 2);
    PowTen(k);
    PowFiveOdd(k);
    Commute(Pow(2, k), Pow(5, k));
    FactorUnique(2, a * b, s + t, Pow(5, k), k);
    var c, m := Factored(a, 5);
    var d, n := Factored(b, 5);
    CollectPowers(c, d, 5, m, n);
    ProductResidue(c, d, 5);
    FactorUnique(5, c * d, m + n, 1, k);
    ProductIsOne(c, d);
    i, j := s, m;
    Commute(Pow(2, s), Pow(5, m));
  }

  lemma ProductIsOne(c: nat, d: nat)
    requires c * d == 1
    ensures c == 1
  {
  }

  /**
   For a fraction in lowest terms the accepted denominators are exactly those with some exact
   rendering of at most 64 places: null never hides a figure that could have been shown.
   */
  lemma TerminatingIffRenderable(num: int, den: nat, u: int, v: int)
    requires den > 0 && Coprime(num, den, u, v)
    ensures Terminating(den) <==> exists c: int, k: nat :: k <= MAX_SAFE_EXPONENT && Exactly(c, k, num, den)
  {
    if Terminating(den) {
      var i: nat, j: nat :| i <= MAX_SAFE_EXPONENT && j <= MAX_SAFE_EXPONENT && PowersOfTwoAndFive(den, i, j);
      var scale := if i > j then i else j;
      ExactScale(1, i, j, scale);
      var f: int := 1 * Pow(2, scale - i) * Pow(5, scale - j);
      MulAssociative(num, f, den);
      assert Exactly(num * f, scale, num, den);
    }
    if c: int, k: nat :| k <= MAX_SAFE_EXPONENT && Exactly(c, k, num, den) {
      DenominatorDivides(num, den, u, v, c, Pow(10, k));
      var q := u * c + v * Pow(10, k);
      PowPositive(10, k);
      PositiveFactor(den, q);
      var i, j := DivisorOfPowerOfTen(den, q, k);
    }
  }

  lemma PositiveFactor(den: nat, q: int)
    requires den * q > 0
    ensures q > 0
  {
  }

  /** `c / 10^k` is the fraction. */
  ghost predicate Exactly(c: int, k: nat, num: int, den: nat) {
    c * den == num * Pow(10, k)
  }
}
