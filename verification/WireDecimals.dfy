/**
 Exact numbers on the wire and as text: a rational becomes a decimal with a 64-bit coefficient
 and a bounded exponent, or bounded text, exactly or not at all.
 */
module WireDecimals {

  import opened Decimals
  import opened Printing
  import opened Wrappers

  datatype Decimal = Decimal(coefficient: int, exponent: int)

  const MAX_EXPONENT := 60
  const MAX_PLACES := 128
  const MAX_TEXT := 256
  const MAX_INPUT := 400
  const MAX_BITS := 512

  predicate IsInt64(c: int) {
    -0x8000_0000_0000_0000 <= c < 0x8000_0000_0000_0000
  }

  predicate Fits(d: Decimal) {
    IsInt64(d.coefficient) && -MAX_EXPONENT <= d.exponent <= MAX_EXPONENT
  }

  function Abs(x: int): nat {
    if x < 0 then -x else x
  }

  /** The powers of ten an exponent puts above and below the line. */
  function Up(e: int): nat {
    if e >= 0 then Pow(10, e) else 1
  }

  function Down(e: int): nat {
    if e >= 0 then 1 else Pow(10, -e)
  }

  /** Coefficient times ten to the exponent is the rational. */
  ghost predicate Denotes(d: Decimal, num: int, den: nat) {
    num * Down(d.exponent) == d.coefficient * Up(d.exponent) * den
  }

  /** No trailing zero, and zero itself has exponent zero. */
  predicate Stripped10(d: Decimal) {
    d.coefficient % 10 != 0 || d == Decimal(0, 0)
  }

  ghost predicate Canonical(d: Decimal, num: int, den: nat) {
    Denotes(d, num, den) && Stripped10(d)
  }

  // ----- canonical forms are unique

  /** With the larger exponent's zeros spelled out, two decimals of one rational agree. */
  lemma Aligned(c: Decimal, d: Decimal, num: int, den: nat)
    requires den > 0 && Denotes(c, num, den) && Denotes(d, num, den) && c.exponent <= d.exponent
    ensures c.coefficient == d.coefficient * Pow(10, d.exponent - c.exponent)
  {
    var gap := Pow(10, d.exponent - c.exponent);
    Cross(num, den, c.coefficient, Up(c.exponent), Down(c.exponent), d.coefficient, Up(d.exponent), Down(d.exponent));
    PowersAlign(c.exponent, d.exponent);
    var common := Up(c.exponent) * Down(d.exponent);
    MulAssociative(c.coefficient, Up(c.exponent), Down(d.exponent));
    MulAssociative(d.coefficient, Up(d.exponent), Down(c.exponent));
    MulAssociative(d.coefficient, gap, common);
    Cancel(c.coefficient, d.coefficient * gap, common);
  }

  lemma Cross(num: int, den: nat, c: int, pc: nat, nc: nat, d: int, pd: nat, nd: nat)
    requires den > 0 && num * nc == c * pc * den && num * nd == d * pd * den
    ensures (c * pc) * nd == (d * pd) * nc
  {
    calc {
      (c * pc) * nd * den;
      (c * pc * den) * nd;
      (num * nc) * nd;
      (num * nd) * nc;
      (d * pd * den) * nc;
      (d * pd) * nc * den;
    }
    Cancel((c * pc) * nd, (d * pd) * nc, den);
  }

  lemma PowersAlign(e: int, f: int)
    requires e <= f
    ensures Up(e) * Down(f) > 0 && Up(f) * Down(e) == Pow(10, f - e) * (Up(e) * Down(f))
  {
    if e >= 0 {
      PowPositive(10, e);
      PowAdd(10, f - e, e);
    } else if f >= 0 {
      PowAdd(10, f, -e);
    } else {
      PowPositive(10, -f);
      PowAdd(10, f - e, -f);
    }
  }

  lemma Cancel(a: int, b: int, x: nat)
    requires x > 0 && a * x == b * x
    ensures a == b
  {
    assert (a - b) * x == 0;
  }

  lemma TenDivides(c: int, k: nat)
    requires k > 0
    ensures (c * Pow(10, k)) % 10 == 0
  {
    assert c * Pow(10, k) == 10 * (c * Pow(10, k - 1));
  }

  lemma CanonicalUnique(c: Decimal, d: Decimal, num: int, den: nat)
    requires den > 0 && Canonical(c, num, den) && Canonical(d, num, den)
    ensures c == d
  {
    if c.exponent <= d.exponent {
      AlignedSame(c, d, num, den);
    } else {
      AlignedSame(d, c, num, den);
    }
  }

  lemma AlignedSame(c: Decimal, d: Decimal, num: int, den: nat)
    requires den > 0 && Canonical(c, num, den) && Canonical(d, num, den) && c.exponent <= d.exponent
    ensures c == d
  {
    Aligned(c, d, num, den);
    if c.exponent < d.exponent {
      TenDivides(d.coefficient, d.exponent - c.exponent);
      assert c.coefficient == 0;
      PowPositive(10, d.exponent - c.exponent);
      ZeroProduct(d.coefficient, Pow(10, d.exponent - c.exponent));
    }
  }

  lemma ZeroProduct(a: int, x: nat)
    requires x > 0 && a * x == 0
    ensures a == 0
  {
  }

  // ----- what fits is far inside the working bounds

  lemma {:induction false} PowMonotone(b: nat, e: nat, f: nat)
    requires b > 0 && e <= f
    ensures Pow(b, e) <= Pow(b, f)
  {
    PowAdd(b, f - e, e);
    PowPositive(b, f - e);
    PowPositive(b, e);
    GrowsBy(Pow(b, f - e), Pow(b, e));
  }

  lemma GrowsBy(a: nat, x: nat)
    requires a > 0
    ensures x <= a * x
  {
  }

  lemma ProductMonotone(a: nat, b: nat, x: nat, y: nat)
    requires a <= b && x <= y
    ensures a * x <= b * y
  {
  }

  /** Four bits hold a decimal digit. */
  lemma {:induction false} TenInBits(n: nat)
    ensures Pow(10, n) <= Pow(2, 4 * n)
  {
    if n > 0 {
      TenInBits(n - 1);
      assert Pow(2, 4 * n) == 2 * Pow(2, 4 * n - 1) && Pow(2, 4 * n - 1) == 2 * Pow(2, 4 * n - 2);
      assert Pow(2, 4 * n - 2) == 2 * Pow(2, 4 * n - 3) && Pow(2, 4 * n - 3) == 2 * Pow(2, 4 * (n - 1));
    }
  }

  /** Four digits hold thirteen bits. */
  lemma {:induction false} BitsInTens(n: nat)
    ensures Pow(2, 13 * n) <= Pow(10, 4 * n)
  {
    if n > 0 {
      BitsInTens(n - 1);
      PowAdd(2, 13, 13 * (n - 1));
      PowAdd(10, 4, 4 * (n - 1));
      assert Pow(2, 13) == 8192 && Pow(10, 4) == 10000;
      ProductMonotone(8192, 10000, Pow(2, 13 * (n - 1)), Pow(10, 4 * (n - 1)));
      assert 13 + 13 * (n - 1) == 13 * n && 4 + 4 * (n - 1) == 4 * n;
    }
  }

  lemma {:induction false} NumeralLength(n: nat, k: nat)
    requires k > 0 && n < Pow(10, k)
    ensures |Numeral(n)| <= k
  {
    if n >= 10 {
      assert Pow(10, 1) == 10;
      NumeralLength(n / 10, k - 1);
    }
  }

  function BitLength(n: nat): nat {
    if n == 0 then 0 else 1 + BitLength(n / 2)
  }

  lemma {:induction false} BitLengthBound(n: nat, k: nat)
    requires n < Pow(2, k)
    ensures BitLength(n) <= k
  {
    if n > 0 {
      BitLengthBound(n / 2, k - 1);
    }
  }

  lemma {:induction false} BelowPower(n: nat)
    ensures n < Pow(2, BitLength(n))
  {
    if n > 0 {
      BelowPower(n / 2);
    }
  }

  predicate InBits(num: int, den: nat) {
    BitLength(Abs(num)) <= MAX_BITS && BitLength(den) <= MAX_BITS
  }

  ghost predicate Short(den: nat) {
    exists i: nat, j: nat :: i <= MAX_EXPONENT && j <= MAX_EXPONENT && PowersOfTwoAndFive(den, i, j)
  }

  /** The numerator and denominator have at most `digits` digits, and the denominator few places. */
  ghost predicate Modest(num: int, den: nat, digits: nat) {
    Abs(num) < Pow(10, digits) && den < Pow(10, digits) && Short(den)
  }

  ghost predicate Representable(num: int, den: nat) {
    exists d :: Canonical(d, num, den) && Fits(d)
  }

  lemma CoefficientBound(c: int, e: int)
    requires Fits(Decimal(c, e))
    ensures Abs(c * Up(e)) < Pow(10, 19 + MAX_EXPONENT)
  {
    AbsProduct(c, Up(e));
    UpBound(e, MAX_EXPONENT);
    Int64Digits(c);
    ScaledBound(Abs(c), 19, Up(e), MAX_EXPONENT);
  }

  lemma Int64Digits(c: int)
    requires IsInt64(c)
    ensures Abs(c) < Pow(10, 19)
  {
    assert Pow(10, 4) == 10_000 && Pow(10, 5) == 100_000;
    PowAdd(10, 5, 5);
    PowAdd(10, 5, 4);
    PowAdd(10, 10, 9);
  }

  lemma UpBound(e: int, m: nat)
    requires e <= m
    ensures Up(e) <= Pow(10, m)
  {
    PowPositive(10, m);
    if e >= 0 {
      PowMonotone(10, e, m);
    }
  }

  lemma ScaledBound(c: nat, a: nat, x: nat, m: nat)
    requires c < Pow(10, a) && x <= Pow(10, m)
    ensures c * x < Pow(10, a + m)
  {
    PowAdd(10, a, m);
    PowPositive(10, m);
    var p, q := Pow(10, a), Pow(10, m);
    ProductMonotone(c, p - 1, x, q);
    assert (p - 1) * q == p * q - q;
  }

  lemma AbsProduct(c: int, x: nat)
    ensures Abs(c * x) == Abs(c) * x
  {
  }

  /** The cofactor of the denominator in the power of ten also divides the scaled coefficient. */
  lemma NumeratorDivides(num: int, den: nat, q: nat, power: nat, c: int)
    requires den > 0 && q > 0 && den * q == power && num * power == c * den
    ensures Abs(num) <= Abs(c)
  {
    assert (num * q) * den == c * den;
    Cancel(num * q, c, den);
    AbsProduct(num, q);
    GrowsBy(q, Abs(num));
  }

  lemma FitsModestly(num: int, den: nat, u: int, v: int, d: Decimal, digits: nat)
    requires den > 0 && Coprime(num, den, u, v) && Denotes(d, num, den) && Fits(d) && digits == 79
    ensures Modest(num, den, digits)
  {
    var c, power := d.coefficient * Up(d.exponent), Down(d.exponent);
    var k := if d.exponent >= 0 then 0 else -d.exponent;
    assert power == Pow(10, k);
    PowPositive(10, k);
    DenominatorDivides(num, den, u, v, c, power);
    PositiveFactor(den, u * c + v * power);
    var q: nat := u * c + v * power;
    var i, j := DivisorOfPowerOfTen(den, q, k);
    assert Short(den);
    NumeratorDivides(num, den, q, power, c);
    CoefficientBound(d.coefficient, d.exponent);
    GrowsBy(q, den);
    Commute(q, den);
    PowMonotone(10, k + 1, digits);
  }

  lemma ModestInBits(num: int, den: nat, digits: nat)
    requires Modest(num, den, digits) && 4 * digits <= MAX_BITS
    ensures InBits(num, den)
  {
    TenInBits(digits);
    BitLengthBound(Abs(num), 4 * digits);
    BitLengthBound(den, 4 * digits);
  }

  /** Every working bound holds for a number that can be represented. */
  lemma RepresentableIsModest(num: int, den: nat, u: int, v: int)
    requires den > 0 && Coprime(num, den, u, v)
    ensures Representable(num, den) ==> InBits(num, den) && Short(den)
  {
    if Representable(num, den) {
      var d :| Canonical(d, num, den) && Fits(d);
      var digits := 79;
      FitsModestly(num, den, u, v, d, digits);
      ModestInBits(num, den, digits);
    }
  }

  // ----- to the wire

  ghost predicate ScaledTo(value: nat, n: nat, count: nat) {
    value == n * Pow(10, count)
  }

  lemma DropZero(value: nat, rest: string, count: nat)
    requires AllDigits(rest) && |rest| > 0 && rest[|rest| - 1] == '0' && ScaledTo(value, Natural(rest), count)
    ensures AllDigits(rest[..|rest| - 1]) && Natural(rest) == 10 * Natural(rest[..|rest| - 1])
    ensures ScaledTo(value, Natural(rest[..|rest| - 1]), count + 1)
  {
    ShiftTen(Natural(rest[..|rest| - 1]), Pow(10, count));
  }

  /** The digits left, and the number removed, after stripping trailing zeros from the signed text. */
  method StripTrailing(negative: bool, digits: string) returns (rest: string, count: nat)
    requires AllDigits(digits) && |digits| > 0 && (negative ==> Natural(digits) > 0)
    ensures AllDigits(rest) && ScaledTo(Natural(digits), Natural(rest), count)
    ensures Natural(rest) % 10 != 0 || Natural(rest) == 0
    ensures digits == "0" ==> count == 0
  {
    rest, count := digits, 0;
    ghost var value := Natural(digits);
    while |Signed(negative, rest)| > 1 && rest[|rest| - 1] == '0'
      invariant Stripping(negative, value, rest, count)
      invariant digits == "0" ==> rest == digits && count == 0
      decreases |rest|
    {
      StripOne(negative, value, rest, count);
      rest, count := rest[..|rest| - 1], count + 1;
    }
    StrippedLast(rest);
  }

  /** Part-way: the digits left, scaled, still make the value. */
  ghost predicate Stripping(negative: bool, value: nat, rest: string, count: nat) {
    AllDigits(rest) && |rest| > 0 && ScaledTo(value, Natural(rest), count) && (negative ==> Natural(rest) > 0)
  }

  lemma StripOne(negative: bool, value: nat, rest: string, count: nat)
    requires Stripping(negative, value, rest, count) && |Signed(negative, rest)| > 1 && rest[|rest| - 1] == '0'
    ensures Stripping(negative, value, rest[..|rest| - 1], count + 1)
  {
    DropZero(value, rest, count);
  }

  /** A last digit other than zero, or the single digit zero. */
  lemma StrippedLast(rest: string)
    requires AllDigits(rest) && |rest| > 0 && (rest[|rest| - 1] != '0' || |rest| == 1)
    ensures Natural(rest) % 10 != 0 || Natural(rest) == 0
  {
    var init, last := Natural(rest[..|rest| - 1]), DigitValue(rest[|rest| - 1]);
    assert Natural(rest) == 10 * init + last;
    LastDigit(init, last, Natural(rest));
    if |rest| == 1 {
      assert rest[..0] == "";
    }
  }

  lemma LastDigit(init: nat, last: nat, n: nat)
    requires last < 10 && n == 10 * init + last
    ensures n % 10 == last
  {
  }

  lemma ShiftTen(n: nat, power: nat)
    ensures (10 * n) * power == n * (10 * power)
  {
  }

  /** Moving the point: the stripped digits with the exponent left over. */
  lemma MovedPoint(num: int, den: nat, c: int, places: nat, count: nat, shifted: nat, scale: nat)
    requires den > 0 && shifted == Pow(10, count) && scale == Pow(10, places) && (c * shifted) * den == num * scale
    ensures Denotes(Decimal(c, count - places), num, den)
  {
    if count >= places {
      MovedWhole(num, den, c, count - places, places, shifted, scale);
    } else {
      MovedFraction(num, den, c, places - count, count, shifted, scale);
    }
  }

  lemma MovedWhole(num: int, den: nat, c: int, e: nat, places: nat, shifted: nat, scale: nat)
    requires den > 0 && shifted == Pow(10, e + places) && scale == Pow(10, places) && (c * shifted) * den == num * scale
    ensures Denotes(Decimal(c, e), num, den)
  {
    PowAdd(10, e, places);
    PowPositive(10, places);
    var x := Pow(10, e);
    MovedUp(num, den, c, x, scale, shifted);
    WholeDenotes(num, den, c, e);
  }

  lemma MovedFraction(num: int, den: nat, c: int, e: nat, count: nat, shifted: nat, scale: nat)
    requires den > 0 && e > 0 && shifted == Pow(10, count) && scale == Pow(10, e + count) && (c * shifted) * den == num * scale
    ensures Denotes(Decimal(c, -(e as int)), num, den)
  {
    PowAdd(10, e, count);
    PowPositive(10, count);
    var x := Pow(10, e);
    MovedDown(num, den, c, x, shifted, scale);
    FractionDenotes(num, den, c, e);
  }

  lemma WholeDenotes(num: int, den: nat, c: int, e: nat)
    requires num == c * Pow(10, e) * den
    ensures Denotes(Decimal(c, e), num, den)
  {
  }

  lemma FractionDenotes(num: int, den: nat, c: int, e: nat)
    requires num * Pow(10, e) == c * den && e > 0
    ensures Denotes(Decimal(c, -(e as int)), num, den)
  {
  }

  lemma MovedUp(num: int, den: nat, c: int, x: nat, y: nat, both: nat)
    requires y > 0 && both == x * y && (c * both) * den == num * y
    ensures num == c * x * den
  {
    assert (c * (x * y)) * den == (c * x * den) * y;
    Cancel(c * x * den, num, y);
  }

  lemma MovedDown(num: int, den: nat, c: int, x: nat, y: nat, both: nat)
    requires y > 0 && both == x * y && (c * y) * den == num * both
    ensures num * x == c * den
  {
    assert (c * y) * den == (c * den) * y;
    assert num * (x * y) == (num * x) * y;
    Cancel(c * den, num * x, y);
  }

  lemma NegatedDenotes(num: int, den: nat, value: nat, n: nat, places: nat, count: nat)
    requires den > 0 && value * den == Abs(num) * Pow(10, places) && ScaledTo(value, n, count)
    ensures Denotes(Decimal(Negated(num < 0, n), count - places), num, den)
  {
    var c := Negated(num < 0, n);
    SignedScale(num, den, value, n, Pow(10, count), Pow(10, places));
    MovedPoint(num, den, c, places, count, Pow(10, count), Pow(10, places));
  }

  lemma SignedScale(num: int, den: nat, value: nat, n: nat, shifted: nat, scale: nat)
    requires value * den == Abs(num) * scale && value == n * shifted
    ensures (Negated(num < 0, n) * shifted) * den == num * scale
  {
    if num < 0 {
      assert (-(n as int) * shifted) * den == -(n * shifted * den);
      assert num * scale == -(Abs(num) * scale);
    }
  }

  /** Zero in lowest terms is zero over one. */
  lemma ZeroIsWhole(den: nat, u: int, v: int)
    requires den > 0 && Coprime(0, den, u, v)
    ensures den == 1
  {
    assert v * den == 1;
    PositiveFactor(den, v);
    ProductIsOne(den, v);
  }

  /** Only the number one has no factor. */
  lemma OneHasNoPlaces(twos: nat, fives: nat)
    requires PowersOfTwoAndFive(1, twos, fives)
    ensures twos == 0 && fives == 0
  {
    assert Pow(5, fives) == 1 * Pow(5, fives);
    DividedOut(1, 1, 0, 1, 0, twos, fives);
  }

  lemma ShortPlaces(den: nat, twos: nat, fives: nat)
    requires PowersOfTwoAndFive(den, twos, fives) && Short(den)
    ensures twos <= MAX_EXPONENT && fives <= MAX_EXPONENT
  {
    var i: nat, j: nat :| i <= MAX_EXPONENT && j <= MAX_EXPONENT && PowersOfTwoAndFive(den, i, j);
    PowFiveOdd(fives);
    Commute(Pow(2, twos), Pow(5, fives));
    DividedOut(den, Pow(5, fives), twos, 1, fives, i, j);
  }

  /** The digits of a modest number are far below the text bound. */
  lemma ShortText(num: int, den: nat, value: nat, places: nat, digits: nat)
    requires den > 0 && Modest(num, den, digits) && value * den == Abs(num) * Pow(10, places) && digits > 0
    ensures |Numeral(value)| <= digits + places
  {
    Commute(value, den);
    GrowsBy(den, value);
    ScaledBound(Abs(num), digits, Pow(10, places), places);
    NumeralLength(value, digits + places);
  }

  lemma RepresentableIsShort(num: int, den: nat, u: int, v: int, value: nat, twos: nat, fives: nat, places: nat)
    requires den > 0 && Coprime(num, den, u, v) && value * den == Abs(num) * Pow(10, places)
    requires PowersOfTwoAndFive(den, twos, fives) && places == if twos > fives then twos else fives
    ensures Representable(num, den) ==> places <= MAX_EXPONENT && |Numeral(value)| <= 79 + places
  {
    if Representable(num, den) {
      var d :| Canonical(d, num, den) && Fits(d);
      var digits := 79;
      FitsModestly(num, den, u, v, d, digits);
      ShortPlaces(den, twos, fives);
      ShortText(num, den, value, places, digits);
    }
  }

  /** The factors of two and five in a denominator, if it has no others. */
  method DecimalPlaces(den: nat) returns (exact: bool, twos: nat, fives: nat)
    requires den > 0
    ensures exact ==> PowersOfTwoAndFive(den, twos, fives)
    ensures !exact ==> forall i: nat, j: nat :: !PowersOfTwoAndFive(den, i, j)
  {
    var rest, last: nat;
    rest, twos := DivideOut(den, 2);
    last, fives := DivideOut(rest, 5);
    exact := last == 1;
    Commute(Pow(2, twos), Pow(5, fives));
    forall i: nat, j: nat ensures PowersOfTwoAndFive(den, i, j) ==> last == 1 {
      if PowersOfTwoAndFive(den, i, j) {
        DividedOut(den, rest, twos, last, fives, i, j);
      }
    }
  }

  /**
   The wire decimal of a rational in lowest terms, of which `u` and `v` are the witness. It is
   given exactly when the form without trailing zeros fits, and then it is that form.
   */
  method ToProtoExact(num: int, den: nat, ghost u: int, ghost v: int) returns (wire: Option<Decimal>)
    requires den > 0 && Coprime(num, den, u, v)
    ensures wire.Some? <==> Representable(num, den)
    ensures wire.Some? ==> Canonical(wire.value, num, den) && Fits(wire.value)
  {
    RepresentableIsModest(num, den, u, v);
    if !InBits(num, den) {
      return None;
    }
    var exact, twos, fives := DecimalPlaces(den);
    if !exact {
      return None;
    }
    var places := if twos > fives then twos else fives;
    var value := ScaleUp(Abs(num), twos, fives, places, den);
    RepresentableIsShort(num, den, u, v, value, twos, fives, places);
    if places > MAX_PLACES {
      return None;
    }
    var text := PlacePoint(num < 0, value, places);
    if |text| > MAX_TEXT {
      return None;
    }
    var d := Compact(text, num, den, value, twos, fives, places, u, v);
    OnlyCandidate(d, num, den);
    return if Fits(d) then Some(d) else None;
  }

  lemma OnlyCandidate(d: Decimal, num: int, den: nat)
    requires den > 0 && Canonical(d, num, den)
    ensures Representable(num, den) <==> Fits(d)
  {
    if Representable(num, den) {
      var e :| Canonical(e, num, den) && Fits(e);
      CanonicalUnique(d, e, num, den);
    }
  }

  /** The printed text with its point and trailing zeros taken out. */
  method Compact(text: string, num: int, den: nat, value: nat, twos: nat, fives: nat, places: nat, ghost u: int, ghost v: int)
      returns (d: Decimal)
    requires den > 0 && Coprime(num, den, u, v) && value * den == Abs(num) * Pow(10, places)
    requires PowersOfTwoAndFive(den, twos, fives) && places == if twos > fives then twos else fives
    requires WellFormed(text) && Places(text) == places && Coefficient(text) == Negated(num < 0, value)
    requires places == 0 ==> text == Sign(num < 0, Numeral(value))
    ensures Canonical(d, num, den)
  {
    var digits := Whole(text) + Fraction(text);
    ZeroTogether(num, den, value, places);
    if num == 0 {
      ZeroIsWhole(den, u, v);
      OneHasNoPlaces(twos, fives);
      ZeroText(text);
    }
    assert Natural(digits) == value;
    var rest, count := StripTrailing(num < 0, digits);
    d := Decimal(Negated(num < 0, Natural(rest)), count - places);
    NegatedDenotes(num, den, value, Natural(rest), places, count);
    StrippedForm(num < 0, value, Natural(rest), count);
  }

  lemma ZeroTogether(num: int, den: nat, value: nat, places: nat)
    requires den > 0 && value * den == Abs(num) * Pow(10, places)
    ensures value == 0 <==> num == 0
  {
    PowPositive(10, places);
    if value == 0 {
      ZeroProduct(Abs(num), Pow(10, places));
    } else if num == 0 {
      ZeroProduct(value, den);
    }
  }

  lemma ZeroText(text: string)
    requires text == Sign(false, Numeral(0))
    ensures Whole(text) + Fraction(text) == "0"
  {
    assert Numeral(0) == [Digit(0)] == "0";
    JoinedParts("0", "");
  }

  lemma StrippedForm(negative: bool, value: nat, n: nat, count: nat)
    requires ScaledTo(value, n, count) && (n % 10 != 0 || n == 0)
    ensures Negated(negative, n) % 10 != 0 || (value == 0 && Negated(negative, n) == 0)
  {
  }

  // ----- exact text

  /** A fraction as text: numerator, slash, denominator without a leading zero. */
  predicate IsFraction(text: string) {
    && SlashAt(text) < |text| && IsInteger(Numerator(text))
    && Denominator(text) != "" && AllDigits(Denominator(text)) && Denominator(text)[0] != '0'
  }

  predicate ExactSyntax(text: string) {
    IsFraction(text) || (SlashAt(text) == |text| && WellFormed(text))
  }

  /** The text denotes this rational. */
  ghost predicate Means(text: string, num: int, den: nat)
    requires ExactSyntax(text)
  {
    if IsFraction(text) then IntegerOf(Numerator(text)) * den == num * Natural(Denominator(text))
    else Coefficient(text) * den == num * Pow(10, Places(text))
  }

  /** Reading the text gives the rational, in lowest terms and within the bounds. */
  ghost predicate ReadsAs(text: string, num: int, den: nat) {
    |text| <= MAX_INPUT && ExactSyntax(text) && Means(text, num, den) && InBits(num, den)
  }

  lemma {:induction false} NoSlash(s: string)
    requires '/' !in s
    ensures SlashAt(s) == |s|
  {
    if s != "" {
      NoSlash(s[1..]);
    }
  }

  lemma {:induction false} SlashAfter(s: string, t: string)
    requires '/' !in s
    ensures SlashAt(s + "/" + t) == |s|
  {
    if s != "" {
      SlashAfter(s[1..], t);
      assert (s + "/" + t)[1..] == s[1..] + "/" + t;
    } else {
      assert s + "/" + t == "/" + t;
    }
  }

  /** Five hundred and twelve bits are at most one hundred and fifty-eight digits. */
  lemma BitsToDigits(n: nat, bits: nat, blocks: nat)
    requires BitLength(n) <= bits <= 13 * blocks && blocks > 0
    ensures |Numeral(n)| <= 4 * blocks
  {
    BelowPower(n);
    PowMonotone(2, BitLength(n), 13 * blocks);
    BitsInTens(blocks);
    NumeralLength(n, 4 * blocks);
  }

  /** A signed numeral. */
  function Integer(num: int): (s: string)
    ensures IsInteger(s) && '/' !in s && '.' !in s
  {
    var digits := Numeral(Abs(num));
    assert Body(Signed(num < 0, digits)) == digits by { assert IsDigit(digits[0]); }
    Signed(num < 0, digits)
  }

  lemma IntegerDenotes(num: int)
    ensures IntegerOf(Integer(num)) == num && |Integer(num)| <= |Numeral(Abs(num))| + 1
  {
    var digits := Numeral(Abs(num));
    assert IsDigit(digits[0]);
    assert Body(Integer(num)) == digits;
    NumeralDenotes(Abs(num));
  }

  /** The text of a rational: the integer, or numerator over denominator. */
  function RatString(num: int, den: nat): string {
    if den == 1 then Integer(num) else Integer(num) + "/" + Numeral(den)
  }

  lemma RatStringReads(num: int, den: nat)
    requires den > 0 && InBits(num, den)
    ensures ReadsAs(RatString(num, den), num, den) && (IsFraction(RatString(num, den)) <==> den != 1)
  {
    IntegerDenotes(num);
    BitsToDigits(Abs(num), MAX_BITS, 40);
    BitsToDigits(den, MAX_BITS, 40);
    if den == 1 {
      IntegerIsDecimal(num);
    } else {
      var text := RatString(num, den);
      SlashAfter(Integer(num), Numeral(den));
      NumeralStartsHigh(den);
      NumeralDenotes(den);
      assert Numerator(text) == Integer(num) && Denominator(text) == Numeral(den);
    }
  }

  lemma IntegerIsDecimal(num: int)
    ensures ExactSyntax(Integer(num)) && !IsFraction(Integer(num))
    ensures Places(Integer(num)) == 0 && Coefficient(Integer(num)) == num
  {
    var digits := Numeral(Abs(num));
    NoSlash(Integer(num));
    JoinedDenotes(num < 0, digits, "");
    assert digits + "" == digits;
    NumeralDenotes(Abs(num));
  }

  lemma DigitsHaveNoSlash(s: string)
    requires AllDigits(s)
    ensures '/' !in s
  {
    assert !IsDigit('/');
  }

  lemma DecimalHasNoSlash(text: string)
    requires WellFormed(text)
    ensures SlashAt(text) == |text|
  {
    var body, whole, fraction := Body(text), Whole(text), Fraction(text);
    DigitsHaveNoSlash(whole);
    DigitsHaveNoSlash(fraction);
    var p := PointAt(body);
    if p < |body| {
      SplitAt(body, p);
      assert body == whole + "." + fraction;
    } else {
      assert body == whole;
    }
    assert '/' !in body;
    assert text == body || text == "-" + body;
    NoSlash(text);
  }

  lemma SplitAt(s: string, p: nat)
    requires p < |s| && s[p] == '.'
    ensures s == s[..p] + "." + s[p + 1..]
  {
  }

  /** Decimal text for a rational with finitely many places, within the bounds on places and length. */
  method DecimalText(num: int, den: nat, twos: nat, fives: nat) returns (text: string, fits: bool)
    requires den > 0 && PowersOfTwoAndFive(den, twos, fives)
    ensures fits ==> |text| <= MAX_TEXT && ExactSyntax(text) && !IsFraction(text) && Tidy(text) && Means(text, num, den)
    ensures fits <==> DecimalFits(num, den)
  {
    text, fits := "", false;
    var places := if twos > fives then twos else fives;
    if places <= MAX_PLACES {
      var value := ScaleUp(Abs(num), twos, fives, places, den);
      text := PlacePoint(num < 0, value, places);
      DecimalHasNoSlash(text);
      NegatedScale(num < 0, value, den, Abs(num), Pow(10, places));
      fits := |text| <= MAX_TEXT;
      DecimalFitsIff(num, den, twos, fives, places, value);
    } else {
      OnlyThesePlaces(num, den, twos, fives, places);
    }
  }

  /** The value in as many places as its denominator needs. */
  ghost predicate InPlaces(num: int, den: nat, i: nat, j: nat, value: nat) {
    PowersOfTwoAndFive(den, i, j) && value * den == Abs(num) * Pow(10, if i > j then i else j)
  }

  /** At most 128 decimal places and 256 characters are enough. */
  ghost predicate DecimalFits(num: int, den: nat) {
    exists i: nat, j: nat, value: nat :: InPlaces(num, den, i, j, value) && FitsText(num, if i > j then i else j, value)
  }

  ghost predicate FitsText(num: int, places: nat, value: nat) {
    places <= 128 && DecimalLength(num < 0, value, places) <= 256
  }

  lemma DecimalFitsIff(num: int, den: nat, twos: nat, fives: nat, places: nat, value: nat)
    requires den > 0 && InPlaces(num, den, twos, fives, value) && places == if twos > fives then twos else fives
    ensures DecimalFits(num, den) <==> FitsText(num, places, value)
  {
    forall i: nat, j: nat, other: nat | InPlaces(num, den, i, j, other)
      ensures i == twos && j == fives && other == value
    {
      SameFactors(den, twos, fives, i, j);
      Cancel(other, value, den);
    }
  }

  lemma OnlyThesePlaces(num: int, den: nat, twos: nat, fives: nat, places: nat)
    requires den > 0 && PowersOfTwoAndFive(den, twos, fives) && places == (if twos > fives then twos else fives) && places > 128
    ensures !DecimalFits(num, den)
  {
    forall i: nat, j: nat, other: nat | InPlaces(num, den, i, j, other)
      ensures !FitsText(num, if i > j then i else j, other)
    {
      SameFactors(den, twos, fives, i, j);
    }
  }

  /** Printing a bounded rational gives bounded text that reads back as the same rational. */
  method ExactFromRat(num: int, den: nat) returns (text: Option<string>)
    requires den > 0
    ensures text.Some? <==> InBits(num, den)
    ensures text.Some? ==> ReadsAs(text.value, num, den)
    ensures text.Some? ==> (IsFraction(text.value) <==> den != 1 && !DecimalFits(num, den))
  {
    if !InBits(num, den) {
      return None;
    }
    var decimal, fits := TryDecimal(num, den);
    RatStringReads(num, den);
    return Some(if fits then decimal else RatString(num, den));
  }

  /** The decimal text, when there is one within the bounds. */
  method TryDecimal(num: int, den: nat) returns (text: string, fits: bool)
    requires den > 0
    ensures fits ==> |text| <= MAX_TEXT && ExactSyntax(text) && !IsFraction(text) && Tidy(text) && Means(text, num, den)
    ensures fits <==> DecimalFits(num, den)
  {
    text, fits := "", false;
    var exact, twos, fives := DecimalPlaces(den);
    if exact {
      text, fits := DecimalText(num, den, twos, fives);
    }
  }

  /** A text reads as one rational in lowest terms. */
  lemma ReadsAsOne(text: string, num: int, den: nat, u: int, v: int, num': int, den': nat, u': int, v': int)
    requires den > 0 && den' > 0 && Coprime(num, den, u, v) && Coprime(num', den', u', v')
    requires ReadsAs(text, num, den) && ReadsAs(text, num', den')
    ensures num == num' && den == den'
  {
    var a: int, b: nat := if IsFraction(text) then IntegerOf(Numerator(text)) else Coefficient(text),
      if IsFraction(text) then Natural(Denominator(text)) else Pow(10, Places(text));
    if IsFraction(text) {
      NotZero(Denominator(text));
    } else {
      PowPositive(10, Places(text));
    }
    SameRatio(a, b, num, den, num', den');
    DenominatorDivides(num, den, u, v, num', den');
    DenominatorDivides(num', den', u', v', num, den);
    MutualDivisors(den, den', u * num' + v * den', u' * num + v' * den);
    Cancel(num, num', den);
  }

  lemma SameRatio(a: int, b: nat, num: int, den: nat, num': int, den': nat)
    requires b > 0 && a * den == num * b && a * den' == num' * b
    ensures num * den' == num' * den
  {
    calc {
      num * den' * b;
      (num * b) * den';
      (a * den) * den';
      (a * den') * den;
      (num' * b) * den;
      num' * den * b;
    }
    Cancel(num * den', num' * den, b);
  }

  lemma MutualDivisors(a: nat, b: nat, x: int, y: int)
    requires a > 0 && b > 0 && a * x == b && b * y == a
    ensures a == b
  {
    PositiveFactor(a, x);
    PositiveFactor(b, y);
    GrowsBy(x, a);
    GrowsBy(y, b);
  }
}
