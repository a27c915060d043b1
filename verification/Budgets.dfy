/**
 What the work limits make of a solution: how many pivots are left when it ends, or that it is
 refused because the pivots run out or an entry outgrows the bit bound; and the context whose
 cancellation is polled along the way.
 */
module Budgets {
  import opened Vectors
  import opened Inputs
  import opened Tableaus
  import opened Bland
  import opened Minimization
  import opened Programs
  import opened TwoPhase

  const MAX_PIVOTS: nat := 10000

  /** Which numbers are within the bit bound of a pivot. */
  type Fits = real -> bool

  predicate RowFits(fits: Fits, row: Vec) {
    forall j :: 0 <= j < |row| ==> fits(row[j])
  }

  ghost predicate TableauFits(fits: Fits, t: Tableau) {
    forall i :: 0 <= i < |t.rows| ==> RowFits(fits, t.rows[i])
  }

  /** The pivots left of `left` once the run is complete, or -1 when it is refused on the way. */
  ghost function MinimizeBudget(run: Run, cost: Vec, limit: nat, left: nat, fits: Fits): (rest: int)
    requires Started(run, cost, limit)
    ensures -1 <= rest <= left
    decreases Power2(|cost|) - |run.states|
  {
    if Entering(Last(run), cost, limit, 0) == limit then left
    else
      var more := NextRun(run, cost, limit);
      RunIsShort(more, cost, limit);
      if left > 0 && TableauFits(fits, Last(more)) then MinimizeBudget(more, cost, limit, left - 1, fits) else -1
  }

  /** The same for taking the artificial columns out of the basis. */
  ghost function PurgeBudget(p: Program, t: Tableau, i: nat, left: nat, fits: Fits): (rest: int)
    requires WellFormed(p) && Purgeable(p, t, i)
    ensures -1 <= rest <= left
    decreases |t.rows| - i
  {
    if i == |t.rows| then left
    else if t.basis[i] < ArtificialFrom(p) then PurgeBudget(p, t, i + 1, left, fits)
    else
      var c := FirstNonzero(t, i, ArtificialFrom(p), 0);
      if c < ArtificialFrom(p) then
        PurgePivot(p, t, i, c);
        if left > 0 && TableauFits(fits, Pivoted(t, i, c)) then PurgeBudget(p, Pivoted(t, i, c), i + 1, left - 1, fits)
        else -1
      else
        PurgeDelete(p, t, i);
        PurgeBudget(p, WithoutRow(t, i), i, left, fits)
  }

  /** Mentioned where a folded predicate is to be unfolded; elsewhere its body stays out of the proof. */
  ghost predicate Unfold(k: int) {
    true
  }

  /** A minimisation at `t`, bound for `goal` with `budget` pivots to spare or a refusal. */
  ghost predicate Bound(t: Tableau, pivots: nat, run: Run, cost: Vec, limit: nat, fits: Fits, goal: Tableau, budget: int) {
    && Started(run, cost, limit) && Last(run) == t && pivots <= MAX_PIVOTS
    && Last(Completed(run, cost, limit)) == goal && MinimizeBudget(run, cost, limit, MAX_PIVOTS - pivots, fits) == budget
  }

  ghost predicate Underway(t: Tableau, pivots: nat, run: Run, cost: Vec, limit: nat, fits: Fits, goal: Tableau, budget: int) {
    forall k :: Unfold(k) ==> Bound(t, pivots, run, cost, limit, fits, goal, budget)
  }

  /** The tableau can be priced and pivoted. */
  ghost predicate Priceable(t: Tableau, cost: Vec, limit: nat) {
    Shaped(t) && |cost| == t.columns && limit <= t.columns
  }

  lemma UnderwayPriceable(t: Tableau, pivots: nat, run: Run, cost: Vec, limit: nat, fits: Fits, goal: Tableau, budget: int)
    requires Underway(t, pivots, run, cost, limit, fits, goal, budget)
    ensures Priceable(t, cost, limit) && pivots <= MAX_PIVOTS
  {
    assert Unfold(0);
  }

  lemma UnderwayBegins(t: Tableau, pivots: nat, cost: Vec, limit: nat, fits: Fits)
    requires Minimizable(t, cost, limit) && pivots <= MAX_PIVOTS
    ensures Started(Single(t), cost, limit)
    ensures Underway(t, pivots, Single(t), cost, limit, fits, Minimized(t, cost, limit),
                     MinimizeBudget(Single(t), cost, limit, MAX_PIVOTS - pivots, fits))
  {
  }

  lemma UnderwayEnds(t: Tableau, pivots: nat, run: Run, cost: Vec, limit: nat, fits: Fits, goal: Tableau, budget: int)
    requires Underway(t, pivots, run, cost, limit, fits, goal, budget)
    requires Priceable(t, cost, limit) && Entering(t, cost, limit, 0) == limit
    ensures t == goal && budget == MAX_PIVOTS - pivots
  {
    assert Unfold(0);
  }

  /** What the next pivot is, and what its success or refusal means. */
  lemma UnderwayStep(t: Tableau, pivots: nat, run: Run, cost: Vec, limit: nat, fits: Fits, goal: Tableau, budget: int) returns (more: Run)
    requires Underway(t, pivots, run, cost, limit, fits, goal, budget)
    requires Priceable(t, cost, limit) && Entering(t, cost, limit, 0) < limit
    ensures var s := Entering(t, cost, limit, 0);
            var r := Leaving(t, s, |t.rows|);
            && r >= 0
            && if pivots < MAX_PIVOTS && TableauFits(fits, Pivoted(t, r, s))
               then Underway(Pivoted(t, r, s), pivots + 1, more, cost, limit, fits, goal, budget)
               else budget < 0
  {
    assert Unfold(0);
    more := NextRun(run, cost, limit);
    assert Completed(run, cost, limit) == Completed(more, cost, limit);
  }

  /** The purge in progress at row `i`. */
  ghost predicate PurgingAt(p: Program, t: Tableau, i: nat, pivots: nat, fits: Fits, goal: Tableau, budget: int) {
    && WellFormed(p) && Purgeable(p, t, i) && pivots <= MAX_PIVOTS
    && Purged(p, t, i) == goal && PurgeBudget(p, t, i, MAX_PIVOTS - pivots, fits) == budget
  }

  ghost predicate Purging(p: Program, t: Tableau, i: nat, pivots: nat, fits: Fits, goal: Tableau, budget: int) {
    forall k :: Unfold(k) ==> PurgingAt(p, t, i, pivots, fits, goal, budget)
  }

  /** The tableau has its artificial columns and the rows with one in the basis stand at zero. */
  ghost predicate PurgeShape(p: Program, t: Tableau, i: nat) {
    && Shaped(t) && ArtificialFrom(p) <= t.columns && i <= |t.rows|
    && (i < |t.rows| && t.basis[i] >= ArtificialFrom(p) ==> Rhs(t, i) == 0.0)
  }

  lemma PurgingShape(p: Program, t: Tableau, i: nat, pivots: nat, fits: Fits, goal: Tableau, budget: int)
    requires Purging(p, t, i, pivots, fits, goal, budget)
    ensures PurgeShape(p, t, i) && pivots <= MAX_PIVOTS
  {
    assert Unfold(0);
  }

  lemma PurgingEnds(p: Program, t: Tableau, pivots: nat, fits: Fits, goal: Tableau, budget: int)
    requires Purging(p, t, |t.rows|, pivots, fits, goal, budget)
    ensures t == goal && budget == MAX_PIVOTS - pivots
  {
    assert Unfold(0);
  }

  lemma PurgingSkips(p: Program, t: Tableau, i: nat, pivots: nat, fits: Fits, goal: Tableau, budget: int)
    requires Purging(p, t, i, pivots, fits, goal, budget) && PurgeShape(p, t, i) && i < |t.rows| && t.basis[i] < ArtificialFrom(p)
    ensures Purging(p, t, i + 1, pivots, fits, goal, budget)
  {
    assert Unfold(0);
  }

  lemma PurgingPivots(p: Program, t: Tableau, i: nat, pivots: nat, fits: Fits, goal: Tableau, budget: int)
    requires Purging(p, t, i, pivots, fits, goal, budget) && PurgeShape(p, t, i) && i < |t.rows| && t.basis[i] >= ArtificialFrom(p)
    requires FirstNonzero(t, i, ArtificialFrom(p), 0) < ArtificialFrom(p)
    ensures var c := FirstNonzero(t, i, ArtificialFrom(p), 0);
            && t.rows[i][c] != 0.0
            && if pivots < MAX_PIVOTS && TableauFits(fits, Pivoted(t, i, c))
               then Purging(p, Pivoted(t, i, c), i + 1, pivots + 1, fits, goal, budget)
               else budget < 0
  {
    assert Unfold(0);
    PurgePivot(p, t, i, FirstNonzero(t, i, ArtificialFrom(p), 0));
  }

  lemma PurgingDeletes(p: Program, t: Tableau, i: nat, pivots: nat, fits: Fits, goal: Tableau, budget: int)
    requires Purging(p, t, i, pivots, fits, goal, budget) && PurgeShape(p, t, i) && i < |t.rows| && t.basis[i] >= ArtificialFrom(p)
    requires FirstNonzero(t, i, ArtificialFrom(p), 0) == ArtificialFrom(p)
    ensures Purging(p, WithoutRow(t, i), i, pivots, fits, goal, budget)
  {
    assert Unfold(0);
    PurgeDelete(p, t, i);
  }

  ghost function PhaseOneBudget(p: Program, fits: Fits): (rest: int)
    requires WellFormed(p)
    ensures -1 <= rest <= MAX_PIVOTS
  {
    StartProper(p);
    MinimizeBudget(Single(Start(p)), PhaseOneCost(p), Width(p), 10000, fits)
  }

  /** Purge and second phase, from the tableau phase one ends at. */
  ghost function PhaseTwoBudget(p: Program, left: nat, fits: Fits): (rest: int)
    requires WellFormed(p) && PhaseOneZero(p)
    ensures -1 <= rest <= left
  {
    PhaseOnePurgeable(p);
    var purged := PurgeBudget(p, PhaseOne(p), 0, left, fits);
    if purged < 0 then -1
    else MinimizeBudget(Single(Purged(p, PhaseOne(p), 0)), PhaseTwoCost(p), ArtificialFrom(p), purged, fits)
  }

  /** The two phases stay within the pivot cap and the bit bound. */
  ghost predicate Affordable(p: Program, fits: Fits)
    requires WellFormed(p)
  {
    PhaseOneBudget(p, fits) >= 0 && (PhaseOneZero(p) ==> PhaseTwoBudget(p, PhaseOneBudget(p, fits), fits) >= 0)
  }

  /** Phase one starts out bound for its last tableau. */
  lemma PhaseOneBegins(p: Program, fits: Fits)
    requires WellFormed(p)
    ensures Underway(Start(p), 0, Single(Start(p)), PhaseOneCost(p), Width(p), fits, PhaseOne(p), PhaseOneBudget(p, fits))
  {
    StartProper(p);
    UnderwayBegins(Start(p), 0, PhaseOneCost(p), Width(p), fits);
  }

  /** The budget after the purge. */
  ghost function PurgedBudget(p: Program, left: nat, fits: Fits): (rest: int)
    requires WellFormed(p) && PhaseOneZero(p)
    ensures -1 <= rest <= left
  {
    PhaseOnePurgeable(p);
    PurgeBudget(p, PhaseOne(p), 0, left, fits)
  }

  /** The tableau after the purge. */
  ghost function PhasePurged(p: Program): Tableau
    requires WellFormed(p) && PhaseOneZero(p)
  {
    PhaseOnePurgeable(p);
    Purged(p, PhaseOne(p), 0)
  }

  lemma PurgeBegins(p: Program, pivots: nat, fits: Fits)
    requires WellFormed(p) && PhaseOneZero(p) && pivots <= MAX_PIVOTS
    ensures Purging(p, PhaseOne(p), 0, pivots, fits, PhasePurged(p), PurgedBudget(p, MAX_PIVOTS - pivots, fits))
  {
    PhaseOnePurgeable(p);
  }

  lemma PhaseTwoBegins(p: Program, pivots: nat, left: nat, fits: Fits)
    requires WellFormed(p) && PhaseOneZero(p) && pivots <= MAX_PIVOTS && PurgedBudget(p, left, fits) == MAX_PIVOTS - pivots
    ensures Underway(PhasePurged(p), pivots, Single(PhasePurged(p)), PhaseTwoCost(p), ArtificialFrom(p), fits,
                     PhaseTwo(p), PhaseTwoBudget(p, left, fits))
  {
    PhaseOnePurgeable(p);
    MinimizedTracked(p, PhasePurged(p), PhaseTwoCost(p), ArtificialFrom(p));
    UnderwayBegins(PhasePurged(p), pivots, PhaseTwoCost(p), ArtificialFrom(p), fits);
  }

  /** After a purge that leaves `middle` pivots, the second minimisation is bound for `goal`; a refused purge refuses it. */
  ghost predicate Follows(cost: Vec, limit: nat, purged: Tableau, middle: int, fits: Fits, goal: Tableau, budget: int) {
    if middle < 0 then budget < 0
    else middle <= MAX_PIVOTS && Underway(purged, MAX_PIVOTS - middle, Single(purged), cost, limit, fits, goal, budget)
  }

  lemma PhaseTwoFollows(p: Program, left: nat, fits: Fits)
    requires WellFormed(p) && PhaseOneZero(p) && left <= MAX_PIVOTS
    ensures Follows(PhaseTwoCost(p), ArtificialFrom(p), PhasePurged(p), PurgedBudget(p, left, fits), fits, PhaseTwo(p), PhaseTwoBudget(p, left, fits))
  {
    var middle := PurgedBudget(p, left, fits);
    if middle >= 0 {
      PhaseTwoBegins(p, MAX_PIVOTS - middle, left, fits);
    }
  }

  // ----- cancellation

  /** No poll from `from` up to `to` found the context cancelled. */
  ghost predicate Live(cancelled: nat -> bool, from: nat, to: nat) {
    forall i :: from <= i < to ==> !cancelled(i)
  }

  /** The outcome is a cancellation exactly when the last poll found one, and nothing goes on after that. */
  ghost predicate Heeded(err: Error, cancelled: nat -> bool, from: nat, to: nat) {
    && from <= to
    && if err.Cancelled? then from < to && Live(cancelled, from, to - 1) && cancelled(to - 1) else Live(cancelled, from, to)
  }

  lemma HeededAfter(err: Error, cancelled: nat -> bool, from: nat, middle: nat, to: nat)
    requires from <= middle && Live(cancelled, from, middle) && Heeded(err, cancelled, middle, to)
    ensures Heeded(err, cancelled, from, to)
  {
  }

  /** The caller's context: `cancelled` says what each poll finds. */
  class Context {
    const cancelled: nat -> bool
    var polls: nat

    constructor (cancelled: nat -> bool)
      ensures this.cancelled == cancelled && polls == 0
    {
      this.cancelled, polls := cancelled, 0;
    }

    method Done() returns (over: bool)
      modifies this
      ensures over == cancelled(old(polls)) && polls == old(polls) + 1
    {
      over := cancelled(polls);
      polls := polls + 1;
    }
  }
}
