/**
 The exact margin call: what a collateral holder must receive or return so that it holds the
 required amount, given a threshold, a minimum transfer and a rounding increment.
 */
module Margins {

  import opened Inputs
  import Printing
  import WireDecimals

  datatype Terms = Terms(currency: string, threshold: Exact, minimumTransfer: Exact, independentAmount: Exact, rounding: Exact)

  datatype Margin = Refused | Margin(currency: string, required: real, movement: real)

  /** The seven amounts of a call, in the order they are read. */
  function Amounts(exposure: Exact, held: Exact, initial: Exact, terms: Terms): seq<Exact> {
    [exposure, held, initial, terms.threshold, terms.minimumTransfer, terms.independentAmount, terms.rounding]
  }

  /** Only the exposure may be negative, and nothing may be missing. */
  ghost predicate Admissible(exposure: Exact, held: Exact, initial: Exact, terms: Terms) {
    && |terms.currency| == 3 && (forall i :: 0 <= i < 3 ==> 'A' <= terms.currency[i] <= 'Z') && exposure.Number?
    && held.Number? && held.value >= 0.0 && initial.Number? && initial.value >= 0.0
    && terms.threshold.Number? && terms.threshold.value >= 0.0
    && terms.minimumTransfer.Number? && terms.minimumTransfer.value >= 0.0
    && terms.independentAmount.Number? && terms.independentAmount.value >= 0.0
    && terms.rounding.Number? && terms.rounding.value >= 0.0
  }

  function Multiple(q: int, increment: real): real {
    q as real * increment
  }

  /** The least multiple of the increment at or above an amount; no increment means no rounding. */
  ghost predicate RoundedUp(amount: real, increment: real, rounded: real) {
    if increment == 0.0 then rounded == amount
    else amount <= rounded < amount + increment && exists q: int :: rounded == Multiple(q, increment)
  }

  /** The movement the agreement calls for, said without saying how it is computed. */
  ghost predicate CallsFor(gap: real, minimum: real, increment: real, movement: real) {
    if -minimum < gap < minimum then movement == 0.0 else RoundedUp(gap, increment, movement)
  }

  function Required(exposure: real, threshold: real, independent: real, initial: real): real {
    (if exposure > threshold then exposure - threshold else 0.0) + independent + initial
  }

  /**
   The requirement the agreement names: above the independent amount and the initial margin it
   holds the exposure beyond the threshold, or nothing when there is none.
   */
  ghost predicate Requires(required: real, exposure: real, threshold: real, independent: real, initial: real) {
    && required - independent - initial >= 0.0 && required - independent - initial >= exposure - threshold
    && (required - independent - initial == 0.0 || required - independent - initial == exposure - threshold)
  }

  lemma RequiredIs(required: real, exposure: real, threshold: real, independent: real, initial: real)
    ensures Requires(required, exposure, threshold, independent, initial) <==>
              required == Required(exposure, threshold, independent, initial)
  {
  }

  /** Division of the units by one, towards zero. */
  function Truncated(units: real): (q: int)
    ensures units >= 0.0 ==> q as real <= units < q as real + 1.0
    ensures units <= 0.0 ==> units <= q as real < units + 1.0
  {
    if units >= 0.0 then units.Floor else -((-units).Floor)
  }

  /** In lowest terms, numerator and denominator fit the bit bound of an exact number. */
  ghost predicate Bounded(r: real) {
    exists num: int, den: nat, u: int, v: int :: IsBounded(r, num, den, u, v)
  }

  ghost predicate IsBounded(r: real, num: int, den: nat, u: int, v: int) {
    den > 0 && Printing.Coprime(num, den, u, v) && r == num as real / den as real && WireDecimals.InBits(num, den)
  }

  /** Everything the agreement can call for is a bounded number. */
  ghost predicate CallIsBounded(gap: real, minimum: real, increment: real) {
    forall movement :: CallsFor(gap, minimum, increment, movement) ==> Bounded(movement)
  }

  /** The call; `printable` decides which results fit the bounds of an exact number. */
  method CalculateMargin(exposure: Exact, held: Exact, initial: Exact, terms: Terms, printable: real -> bool) returns (margin: Margin)
    requires forall r :: printable(r) <==> Bounded(r)
    ensures margin.Margin? <==>
      && Admissible(exposure, held, initial, terms)
      && forall required ::
           Requires(required, exposure.value, terms.threshold.value, terms.independentAmount.value, initial.value) ==>
             Bounded(required) && CallIsBounded(required - held.value, terms.minimumTransfer.value, terms.rounding.value)
    ensures margin.Margin? ==>
      && margin.currency == terms.currency
      && Requires(margin.required, exposure.value, terms.threshold.value, terms.independentAmount.value, initial.value)
      && CallsFor(margin.required - held.value, terms.minimumTransfer.value, terms.rounding.value, margin.movement)
  {
    if !ValidCurrency(terms.currency) {
      return Refused;
    }
    var values := Amounts(exposure, held, initial, terms);
    var r: seq<real> := [];
    for i := 0 to |values|
      invariant |r| == i && forall k :: 0 <= k < i ==> values[k] == Number(r[k]) && (k != 0 ==> r[k] >= 0.0)
    {
      if values[i].Unavailable? || (i != 0 && values[i].value < 0.0) {
        return Refused;
      }
      r := r + [values[i].value];
    }
    assert values[0] == Number(r[0]) && values[1] == Number(r[1]) && values[2] == Number(r[2]) && values[3] == Number(r[3]);
    assert values[4] == Number(r[4]) && values[5] == Number(r[5]) && values[6] == Number(r[6]);
    var required := r[0] - r[3];
    if required < 0.0 {
      required := 0.0;
    }
    required := required + r[5] + r[2];
    var movement := Moved(required - r[1], r[4], r[6]);
    OnlyThisCall(required - r[1], r[4], r[6], movement);
    assert Requires(required, r[0], r[3], r[5], r[2]);
    return if printable(required) && printable(movement) then Margin(terms.currency, required, movement) else Refused;
  }

  /** The movement arithmetic. */
  method Moved(gap: real, minimum: real, increment: real) returns (movement: real)
    requires minimum >= 0.0 && increment >= 0.0
    ensures CallsFor(gap, minimum, increment, movement)
  {
    movement := gap;
    if (if movement < 0.0 then -movement else movement) < minimum {
      movement := 0.0;
    }
    if increment > 0.0 {
      var units := movement / increment;
      var q := Truncated(units);
      if units - q as real > 0.0 {
        q := q + 1;
      }
      ScaledUnits(movement, increment, units, q);
      movement := Multiple(q, increment);
    }
  }

  // Rounding

  /** Units rounded up, in terms of the product of units and increment. */
  lemma ScaledUp(units: real, q: real, increment: real, low: real, multiple: real)
    requires increment > 0.0 && units <= q < units + 1.0 && low == units * increment && multiple == q * increment
    ensures low <= multiple < low + increment
  {
    var short, over := q - units, units + 1.0 - q;
    var below, above := short * increment, over * increment;
    assert multiple == low + below;
    assert low + increment == multiple + above;
    NonnegativeProduct(short, increment, below);
    PositiveProduct(over, increment, above);
  }

  lemma NonnegativeProduct(a: real, b: real, product: real)
    requires a >= 0.0 && b >= 0.0 && product == a * b
    ensures product >= 0.0
  {
  }

  lemma PositiveProduct(a: real, b: real, product: real)
    requires a > 0.0 && b > 0.0 && product == a * b
    ensures product > 0.0
  {
  }

  lemma Divided(amount: real, increment: real, units: real)
    requires increment > 0.0 && units == amount / increment
    ensures units * increment == amount
  {
  }

  lemma ScaledUnits(amount: real, increment: real, units: real, q: int)
    requires increment > 0.0 && units == amount / increment && units <= q as real < units + 1.0
    ensures RoundedUp(amount, increment, Multiple(q, increment))
  {
    Divided(amount, increment, units);
    ScaledUp(units, q as real, increment, amount, Multiple(q, increment));
  }

  lemma NextMultiple(p: int, q: int, increment: real)
    requires p < q && increment > 0.0
    ensures Multiple(p, increment) + increment <= Multiple(q, increment)
  {
    var gap := q as real - p as real - 1.0;
    var rest := gap * increment;
    NonnegativeProduct(gap, increment, rest);
    assert Multiple(q, increment) == Multiple(p, increment) + increment + rest;
  }

  lemma RoundedUpMonotone(low: real, high: real, increment: real, lower: real, higher: real)
    requires low <= high && increment >= 0.0 && RoundedUp(low, increment, lower) && RoundedUp(high, increment, higher)
    ensures lower <= higher
  {
    if increment > 0.0 {
      var p: int :| lower == Multiple(p, increment);
      var q: int :| higher == Multiple(q, increment);
      if q < p {
        NextMultiple(q, p, increment);
      }
    }
  }

  /** An amount within an increment below zero rounds to nothing. */
  lemma RoundsToZero(amount: real, increment: real, rounded: real)
    requires increment >= 0.0 && RoundedUp(amount, increment, rounded)
    requires if increment == 0.0 then amount == 0.0 else -increment < amount <= 0.0
    ensures rounded == 0.0
  {
    if increment > 0.0 {
      assert RoundedUp(amount, increment, 0.0) by {
        assert 0.0 == Multiple(0, increment);
      }
      RoundedUpMonotone(amount, amount, increment, rounded, 0.0);
      RoundedUpMonotone(amount, amount, increment, 0.0, rounded);
    }
  }

  /** Returning collateral never overshoots. */
  lemma ReturnsStopAtZero(amount: real, increment: real, rounded: real)
    requires increment >= 0.0 && amount <= 0.0 && RoundedUp(amount, increment, rounded)
    ensures amount <= rounded <= 0.0
  {
    if increment > 0.0 {
      assert RoundedUp(0.0, increment, 0.0) by {
        assert 0.0 == Multiple(0, increment);
      }
      RoundedUpMonotone(amount, 0.0, increment, rounded, 0.0);
    }
  }

  // One call

  /** The agreement determines the movement. */
  lemma OneMovement(gap: real, minimum: real, increment: real, one: real, other: real)
    requires minimum >= 0.0 && increment >= 0.0
    requires CallsFor(gap, minimum, increment, one) && CallsFor(gap, minimum, increment, other)
    ensures one == other
  {
    if !(-minimum < gap < minimum) {
      RoundedUpMonotone(gap, gap, increment, one, other);
      RoundedUpMonotone(gap, gap, increment, other, one);
    }
  }

  lemma OnlyThisCall(gap: real, minimum: real, increment: real, movement: real)
    requires minimum >= 0.0 && increment >= 0.0 && CallsFor(gap, minimum, increment, movement)
    ensures CallIsBounded(gap, minimum, increment) <==> Bounded(movement)
  {
    forall other | CallsFor(gap, minimum, increment, other) ensures other == movement {
      OneMovement(gap, minimum, increment, movement, other);
    }
  }

  /** A wider gap never calls for less. */
  lemma WiderGapMovesMore(low: real, high: real, minimum: real, increment: real, lower: real, higher: real)
    requires low <= high && minimum >= 0.0 && increment >= 0.0
    requires CallsFor(low, minimum, increment, lower) && CallsFor(high, minimum, increment, higher)
    ensures lower <= higher
  {
    if low <= -minimum {
      ReturnsStopAtZero(low, increment, lower);
      if high <= -minimum {
        RoundedUpMonotone(low, high, increment, lower, higher);
      }
    } else if low >= minimum {
      RoundedUpMonotone(low, high, increment, lower, higher);
    }
  }

  /** The movement is monotone in the exposure, all else equal. */
  lemma MovementMonotone(terms: Terms, held: Exact, initial: Exact, less: Exact, more: Exact, lower: real, higher: real)
    requires Admissible(less, held, initial, terms) && Admissible(more, held, initial, terms) && less.value <= more.value
    requires CallsFor(Required(less.value, terms.threshold.value, terms.independentAmount.value, initial.value) - held.value,
                      terms.minimumTransfer.value, terms.rounding.value, lower)
    requires CallsFor(Required(more.value, terms.threshold.value, terms.independentAmount.value, initial.value) - held.value,
                      terms.minimumTransfer.value, terms.rounding.value, higher)
    ensures lower <= higher
  {
    WiderGapMovesMore(Required(less.value, terms.threshold.value, terms.independentAmount.value, initial.value) - held.value,
                      Required(more.value, terms.threshold.value, terms.independentAmount.value, initial.value) - held.value,
                      terms.minimumTransfer.value, terms.rounding.value, lower, higher);
  }

  /** Where a call leaves the holder: covered with less than one increment to spare, or short or over by less than the minimum transfer. */
  ghost predicate Settled(required: real, held: real, minimum: real, increment: real) {
    || (if increment == 0.0 then held == required else required <= held < required + increment)
    || -minimum < required - held < minimum
  }

  lemma CallSettles(required: real, held: real, minimum: real, increment: real, movement: real)
    requires required >= 0.0 && held >= 0.0 && minimum >= 0.0 && increment >= 0.0
    requires CallsFor(required - held, minimum, increment, movement)
    ensures held + movement >= 0.0 && Settled(required, held + movement, minimum, increment)
  {
    if !(-minimum < required - held < minimum) && required < held {
      ReturnsStopAtZero(required - held, increment, movement);
    }
  }

  /** Once settled, a call moves nothing; and only then. */
  lemma MovesNothingIffSettled(required: real, held: real, minimum: real, increment: real, movement: real)
    requires minimum >= 0.0 && increment >= 0.0 && CallsFor(required - held, minimum, increment, movement)
    ensures movement == 0.0 <==> Settled(required, held, minimum, increment)
  {
    if !(-minimum < required - held < minimum) && Settled(required, held, minimum, increment) {
      RoundsToZero(required - held, increment, movement);
    }
  }

  // Whole runs

  /** One call as its amounts, and the movement it gave. */
  datatype Call = Call(exposure: real, threshold: real, independent: real, initial: real, minimum: real, increment: real,
                       movement: real)

  ghost predicate Answered(c: Call, held: real) {
    && c.threshold >= 0.0 && c.independent >= 0.0 && c.initial >= 0.0 && c.minimum >= 0.0 && c.increment >= 0.0
    && CallsFor(Required(c.exposure, c.threshold, c.independent, c.initial) - held, c.minimum, c.increment, c.movement)
  }

  /** What is held after applying every movement. */
  ghost function Held(start: real, calls: seq<Call>): real {
    if |calls| == 0 then start else Held(start, calls[..|calls| - 1]) + calls[|calls| - 1].movement
  }

  ghost predicate IsRun(start: real, calls: seq<Call>) {
    forall i :: 0 <= i < |calls| ==> Answered(calls[i], Held(start, calls[..i]))
  }

  /** Over any run of calls, with exposures and terms changing freely, holdings never go negative and every call settles. */
  lemma {:induction false} RunSettles(start: real, calls: seq<Call>)
    requires start >= 0.0 && IsRun(start, calls)
    ensures Held(start, calls) >= 0.0
    ensures |calls| > 0 ==> var c := calls[|calls| - 1];
      Settled(Required(c.exposure, c.threshold, c.independent, c.initial), Held(start, calls), c.minimum, c.increment)
  {
    if |calls| > 0 {
      var n := |calls| - 1;
      var before, c := calls[..n], calls[n];
      forall i | 0 <= i < n ensures Answered(before[i], Held(start, before[..i])) {
        assert before[..i] == calls[..i];
        assert Answered(calls[i], Held(start, calls[..i]));
      }
      RunSettles(start, before);
      assert Answered(c, Held(start, before));
      CallSettles(Required(c.exposure, c.threshold, c.independent, c.initial), Held(start, before), c.minimum, c.increment, c.movement);
    }
  }

  /** Asking again at once, with nothing changed, moves nothing. */
  lemma SecondCallMovesNothing(start: real, calls: seq<Call>, again: Call)
    requires start >= 0.0 && |calls| > 0 && IsRun(start, calls + [again])
    requires again.(movement := 0.0) == calls[|calls| - 1].(movement := 0.0)
    ensures again.movement == 0.0
  {
    var all := calls + [again];
    forall i | 0 <= i < |calls| ensures Answered(calls[i], Held(start, calls[..i])) {
      assert all[..i] == calls[..i];
      assert Answered(all[i], Held(start, all[..i]));
    }
    RunSettles(start, calls);
    assert all[..|calls|] == calls;
    assert Answered(all[|calls|], Held(start, all[..|calls|]));
    MovesNothingIffSettled(Required(again.exposure, again.threshold, again.independent, again.initial), Held(start, calls),
                           again.minimum, again.increment, again.movement);
  }
}
