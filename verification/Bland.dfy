/**
 Pricing and Bland's rule: the lowest-index improving column enters, the least ratio
 leaves with ties broken by the lowest basis index. No run of such pivots ever
 revisits a basis, so minimisation always ends, with or without a pivot budget.
 */
module Bland {
  import opened Vectors
  import opened Tableaus

  // ----- pricing

  ghost predicate Priced(t: Tableau, cost: Vec) {
    Canonical(t) && |cost| == t.columns
  }

  /** The combination of rows weighted by the basic costs. */
  ghost function Pricing(t: Tableau, cost: Vec): (w: Vec)
    requires Shaped(t) && |cost| == t.columns
    ensures |w| == t.columns + 1
  {
    Combine(Basics(t, cost), t.rows, t.columns + 1)
  }

  /** The reduced cost of column `j`; at `columns` it is the negated objective. */
  ghost function Reduced(t: Tableau, cost: Vec, j: nat): real
    requires Shaped(t) && |cost| == t.columns && j <= t.columns
  {
    (cost + [0.0])[j] - ColumnTo(Basics(t, cost), t.rows, j, |t.rows|)
  }

  ghost function ReducedRow(t: Tableau, cost: Vec): (w: Vec)
    requires Shaped(t) && |cost| == t.columns
    ensures |w| == t.columns + 1 && forall j :: 0 <= j <= t.columns ==> w[j] == Reduced(t, cost, j)
  {
    seq(t.columns + 1, j requires 0 <= j <= t.columns => Reduced(t, cost, j))
  }

  ghost function Objective(t: Tableau, cost: Vec): real
    requires Shaped(t) && |cost| == t.columns
  {
    ColumnTo(Basics(t, cost), t.rows, t.columns, |t.rows|)
  }

  lemma ReducedIsRayCost(t: Tableau, cost: Vec, s: nat)
    requires Priced(t, cost) && s <= t.columns && s !in t.basis
    ensures Reduced(t, cost, s) == Dot(cost + [0.0], Ray(t, s))
  {
    RayDot(t, cost + [0.0], s);
    assert Basics(t, cost + [0.0]) == Basics(t, cost);
  }

  lemma ReducedBasicZero(t: Tableau, cost: Vec, i: nat)
    requires Priced(t, cost) && i < |t.basis|
    ensures Reduced(t, cost, t.basis[i]) == 0.0
  {
    ColumnSingle(Basics(t, cost), t.rows, t.basis[i], |t.rows|, i);
  }

  /** On the kernel the reduced row and the cost agree: they differ by a combination of rows. */
  lemma ReducedOnKernel(t: Tableau, cost: Vec, z: Vec)
    requires Priced(t, cost) && InKernel(t, z)
    ensures Dot(ReducedRow(t, cost), z) == Dot(cost + [0.0], z)
  {
    var y := Basics(t, cost);
    var w := Pricing(t, cost);
    var image := Image(t.rows, z);
    CombineDot(y, t.rows, z);
    DotZeroTo(y, image, |y|);
    forall j | 0 <= j <= t.columns
      ensures ReducedRow(t, cost)[j] == Axpy(cost + [0.0], -1.0, w)[j]
    {
      CombineAt(y, t.rows, t.columns + 1, |t.rows|, j);
    }
    assert ReducedRow(t, cost) == Axpy(cost + [0.0], -1.0, w);
    DotAxpy(cost + [0.0], -1.0, w, z);
  }

  // ----- Bland's choice

  /** The lowest-index column below `limit` with a negative reduced cost enters. */
  ghost predicate Enters(t: Tableau, cost: Vec, limit: nat, s: nat)
    requires Shaped(t) && |cost| == t.columns && limit <= t.columns
  {
    s < limit && Reduced(t, cost, s) < 0.0 && forall j :: 0 <= j < s ==> Reduced(t, cost, j) >= 0.0
  }

  /** Row `r` has the least ratio and, among ties, the lowest basis index. */
  ghost predicate Leaves(t: Tableau, s: nat, r: nat)
    requires Shaped(t)
  {
    && LeastRatio(t, r, s)
    && (forall i :: 0 <= i < |t.rows| && t.rows[i][s] > 0.0 && Ratio(t, i, s) == Ratio(t, r, s) ==>
          t.basis[r] <= t.basis[i])
  }

  lemma EnteringIsNonbasic(t: Tableau, cost: Vec, s: nat)
    requires Priced(t, cost) && s < t.columns && Reduced(t, cost, s) < 0.0
    ensures s !in t.basis
  {
    if s in t.basis {
      var i :| 0 <= i < |t.basis| && t.basis[i] == s;
      ReducedBasicZero(t, cost, i);
      assert false;
    }
  }

  /** The objective moves by the ratio times the (negative) reduced cost. */
  lemma PivotObjective(t: Tableau, cost: Vec, limit: nat, s: nat, r: nat)
    requires Proper(t) && |cost| == t.columns && limit <= t.columns && Enters(t, cost, limit, s) && Leaves(t, s, r)
    ensures Proper(Pivoted(t, r, s)) && s !in t.basis
    ensures Objective(Pivoted(t, r, s), cost) == Objective(t, cost) + Ratio(t, r, s) * Reduced(t, cost, s)
  {
    var p := Pivoted(t, r, s);
    var n := t.columns;
    EnteringIsNonbasic(t, cost, s);
    PivotProper(t, r, s);
    PivotMovesPoint(t, r, s);
    ReducedIsRayCost(t, cost, n);
    ReducedIsRayCost(p, cost, n);
    ReducedIsRayCost(t, cost, s);
    DotAxpyRight(cost + [0.0], Ray(t, n), -Ratio(t, r, s), Ray(t, s));
  }

  // ----- runs

  /** A run of Bland pivots: the states with the choices made between them. */
  datatype Run = Run(states: seq<Tableau>, entering: seq<nat>, leaving: seq<nat>)

  ghost predicate BlandStep(t: Tableau, cost: Vec, limit: nat, s: nat, r: nat, next: Tableau)
    requires Proper(t) && |cost| == t.columns && limit <= t.columns
  {
    Enters(t, cost, limit, s) && Leaves(t, s, r) && next == Pivoted(t, r, s)
  }

  ghost predicate StepAt(run: Run, cost: Vec, limit: nat, i: nat)
    requires i + 1 < |run.states| == |run.entering| + 1 == |run.leaving| + 1
    requires Proper(run.states[i]) && |cost| == run.states[i].columns && limit <= |cost|
  {
    BlandStep(run.states[i], cost, limit, run.entering[i], run.leaving[i], run.states[i + 1])
  }

  ghost predicate States(states: seq<Tableau>, cost: Vec) {
    forall i :: 0 <= i < |states| ==> Proper(states[i]) && states[i].columns == |cost|
  }

  ghost predicate BlandRun(run: Run, cost: Vec, limit: nat) {
    && |run.states| == |run.entering| + 1 == |run.leaving| + 1
    && limit <= |cost|
    && States(run.states, cost)
    && (forall i :: 0 <= i < |run.entering| ==> StepAt(run, cost, limit, i))
  }

  ghost function BasisSet(t: Tableau): set<nat> {
    set j | j in t.basis
  }

  /** One step of a run: what it keeps and what it moves. */
  lemma RunStep(run: Run, cost: Vec, limit: nat, i: nat)
    requires BlandRun(run, cost, limit) && i < |run.entering|
    ensures StepAt(run, cost, limit, i)
    ensures SameKernel(run.states[i], run.states[i + 1])
    ensures run.entering[i] !in run.states[i].basis && run.entering[i] in run.states[i + 1].basis
    ensures run.states[i + 1].basis == run.states[i].basis[run.leaving[i] := run.entering[i]]
    ensures Objective(run.states[i + 1], cost) <= Objective(run.states[i], cost)
    ensures Objective(run.states[i + 1], cost) == Objective(run.states[i], cost) ==>
              Ratio(run.states[i], run.leaving[i], run.entering[i]) == 0.0
  {
    var t, s, r := run.states[i], run.entering[i], run.leaving[i];
    assert StepAt(run, cost, limit, i);
    PivotSameKernel(t, r, s);
    PivotObjective(t, cost, limit, s, r);
    assert run.states[i + 1].basis[r] == s;
    var theta, d := Ratio(t, r, s), Reduced(t, cost, s);
    assert theta >= 0.0 && d < 0.0;
    if theta > 0.0 {
      assert theta * d < 0.0;
    }
  }

  lemma {:induction false} RunKernel(run: Run, cost: Vec, limit: nat, i: nat, k: nat)
    requires BlandRun(run, cost, limit) && i <= k < |run.states|
    ensures SameKernel(run.states[i], run.states[k])
  {
    if i < k {
      RunKernel(run, cost, limit, i, k - 1);
      RunStep(run, cost, limit, k - 1);
    }
  }

  lemma {:induction false} RunObjective(run: Run, cost: Vec, limit: nat, i: nat, k: nat)
    requires BlandRun(run, cost, limit) && i <= k < |run.states|
    ensures Objective(run.states[k], cost) <= Objective(run.states[i], cost)
  {
    if i < k {
      RunObjective(run, cost, limit, i, k - 1);
      RunStep(run, cost, limit, k - 1);
    }
  }

  // ----- a run that returns to a basis

  ghost predicate Cycle(run: Run, cost: Vec, limit: nat) {
    && BlandRun(run, cost, limit)
    && |run.entering| > 0
    && BasisSet(run.states[0]) == BasisSet(run.states[|run.entering|])
  }

  /** Tableaus with one kernel and one basis have one basic point, hence one objective. */
  lemma SameBasisSamePoint(t: Tableau, s: Tableau)
    requires Canonical(t) && Canonical(s) && SameKernel(t, s) && BasisSet(t) == BasisSet(s)
    ensures Ray(t, t.columns) == Ray(s, s.columns)
  {
    var z := Ray(t, t.columns);
    RayInKernel(t, t.columns);
    RayEntries(t, t.columns);
    assert InKernel(s, z);
    forall j | 0 <= j <= s.columns && j !in s.basis && j != s.columns
      ensures z[j] == 0.0
    {
      assert j !in BasisSet(s);
      assert j !in t.basis;
    }
    RayUnique(s, z, s.columns);
  }

  /** In a cycle no pivot moves the objective, so every ratio is zero. */
  lemma CycleIsDegenerate(run: Run, cost: Vec, limit: nat, i: nat)
    requires Cycle(run, cost, limit) && i < |run.entering|
    ensures StepAt(run, cost, limit, i)
    ensures Ratio(run.states[i], run.leaving[i], run.entering[i]) == 0.0
  {
    var last := |run.entering|;
    var a, b := run.states[0], run.states[last];
    RunKernel(run, cost, limit, 0, last);
    SameBasisSamePoint(a, b);
    ReducedIsRayCost(a, cost, a.columns);
    ReducedIsRayCost(b, cost, b.columns);
    RunObjective(run, cost, limit, 0, i);
    RunObjective(run, cost, limit, i + 1, last);
    RunStep(run, cost, limit, i);
  }

  /** In a cycle all states share one basic point. */
  lemma {:induction false} CyclePoint(run: Run, cost: Vec, limit: nat, i: nat)
    requires Cycle(run, cost, limit) && i <= |run.entering|
    ensures Ray(run.states[i], |cost|) == Ray(run.states[0], |cost|)
  {
    if i > 0 {
      CyclePoint(run, cost, limit, i - 1);
      CycleIsDegenerate(run, cost, limit, i - 1);
      RunStep(run, cost, limit, i - 1);
      ZeroRatioStays(run.states[i - 1], run.leaving[i - 1], run.entering[i - 1]);
    }
  }

  /** A pivot with ratio zero does not move the point. */
  lemma ZeroRatioStays(t: Tableau, r: nat, s: nat)
    requires Canonical(t) && r < |t.rows| && s < t.columns && s !in t.basis && t.rows[r][s] > 0.0 && Ratio(t, r, s) == 0.0
    ensures Canonical(Pivoted(t, r, s)) && Ray(Pivoted(t, r, s), t.columns) == Ray(t, t.columns)
  {
    PivotMovesPoint(t, r, s);
    NothingAdded(Ray(t, t.columns), Ray(t, s), -Ratio(t, r, s));
  }

  lemma NothingAdded(u: Vec, v: Vec, c: real)
    requires |u| == |v| && c == 0.0
    ensures Axpy(u, c, v) == u
  {
  }

  /** Fickle columns are basic in one state and nonbasic in another. */
  ghost predicate Fickle(run: Run, j: nat) {
    && (exists i :: 0 <= i < |run.states| && j in run.states[i].basis)
    && (exists i :: 0 <= i < |run.states| && j !in run.states[i].basis)
  }

  /** A column basic at `i` and nonbasic at `k` leaves somewhere between. */
  lemma {:induction false} LeavesBetween(run: Run, cost: Vec, limit: nat, j: nat, i: nat, k: nat) returns (at: nat)
    requires BlandRun(run, cost, limit) && i <= k < |run.states|
    requires j in run.states[i].basis && j !in run.states[k].basis
    ensures i <= at < k && j in run.states[at].basis && j !in run.states[at + 1].basis
  {
    if j in run.states[k - 1].basis {
      at := k - 1;
    } else {
      at := LeavesBetween(run, cost, limit, j, i, k - 1);
    }
  }

  /** A column nonbasic at `i` and basic at `k` enters somewhere between. */
  lemma {:induction false} EntersBetween(run: Run, cost: Vec, limit: nat, j: nat, i: nat, k: nat) returns (at: nat)
    requires BlandRun(run, cost, limit) && i <= k < |run.states|
    requires j !in run.states[i].basis && j in run.states[k].basis
    ensures i <= at < k && j !in run.states[at].basis && j in run.states[at + 1].basis
  {
    if j !in run.states[k - 1].basis {
      at := k - 1;
    } else {
      at := EntersBetween(run, cost, limit, j, i, k - 1);
    }
  }

  /** In a cycle every fickle column both enters and leaves. */
  lemma FickleMoves(run: Run, cost: Vec, limit: nat, j: nat) returns (out: nat, back: nat)
    requires Cycle(run, cost, limit) && Fickle(run, j)
    ensures out < |run.entering| && j in run.states[out].basis && j !in run.states[out + 1].basis
    ensures back < |run.entering| && j !in run.states[back].basis && j in run.states[back + 1].basis
  {
    var last := |run.entering|;
    var i :| 0 <= i < |run.states| && j in run.states[i].basis;
    var k :| 0 <= k < |run.states| && j !in run.states[k].basis;
    if j in run.states[0].basis {
      assert j in BasisSet(run.states[last]);
      out := LeavesBetween(run, cost, limit, j, 0, k);
      back := EntersBetween(run, cost, limit, j, k, last);
    } else {
      assert j !in BasisSet(run.states[last]);
      back := EntersBetween(run, cost, limit, j, 0, i);
      out := LeavesBetween(run, cost, limit, j, i, last);
    }
  }

  /** The step at which `j` enters is Bland's choice of `j`. */
  lemma EnteringStep(run: Run, cost: Vec, limit: nat, j: nat, at: nat)
    requires BlandRun(run, cost, limit) && at < |run.entering|
    requires j !in run.states[at].basis && j in run.states[at + 1].basis
    ensures run.entering[at] == j && Enters(run.states[at], cost, limit, j)
  {
    RunStep(run, cost, limit, at);
    var k :| 0 <= k < |run.states[at + 1].basis| && run.states[at + 1].basis[k] == j;
  }

  lemma LeavingStep(run: Run, cost: Vec, limit: nat, j: nat, at: nat)
    requires BlandRun(run, cost, limit) && at < |run.entering|
    requires j in run.states[at].basis && j !in run.states[at + 1].basis
    ensures Enters(run.states[at], cost, limit, run.entering[at])
    ensures Leaves(run.states[at], run.entering[at], run.leaving[at])
    ensures run.states[at].basis[run.leaving[at]] == j
  {
    RunStep(run, cost, limit, at);
    var t, next := run.states[at], run.states[at + 1];
    forall k | 0 <= k < |t.basis| && k != run.leaving[at]
      ensures t.basis[k] in next.basis
    {
      assert next.basis[k] == t.basis[k];
    }
    var k :| 0 <= k < |t.basis| && t.basis[k] == j;
  }

  lemma FickleBelowLimit(run: Run, cost: Vec, limit: nat, j: nat)
    requires Cycle(run, cost, limit) && Fickle(run, j)
    ensures j < limit
  {
    var out, back := FickleMoves(run, cost, limit, j);
    EnteringStep(run, cost, limit, j, back);
  }

  /** A fickle column has value zero in every state of a cycle. */
  lemma FickleIsZero(run: Run, cost: Vec, limit: nat, j: nat, i: nat, k: nat)
    requires Cycle(run, cost, limit) && Fickle(run, j)
    requires i < |run.states| && k < |run.states[i].basis| && run.states[i].basis[k] == j
    ensures Rhs(run.states[i], k) == 0.0
  {
    var at :| 0 <= at < |run.states| && j !in run.states[at].basis;
    CyclePoint(run, cost, limit, i);
    CyclePoint(run, cost, limit, at);
    RayEntries(run.states[i], |cost|);
    RayEntries(run.states[at], |cost|);
  }

  lemma {:induction false} LargestFickle(run: Run, bound: nat, seed: nat) returns (q: nat)
    requires Fickle(run, seed) && seed < bound
    ensures Fickle(run, q) && seed <= q < bound
    ensures forall j :: q < j < bound ==> !Fickle(run, j)
    decreases bound - seed
  {
    if j :| seed < j < bound && Fickle(run, j) {
      q := LargestFickle(run, bound, j);
    } else {
      q := seed;
    }
  }

  lemma {:induction false} PositiveTerm(y: Vec, rows: seq<Vec>, j: nat, k: nat) returns (i: nat)
    requires k <= |y| && k <= |rows|
    requires forall i :: 0 <= i < k ==> j < |rows[i]|
    requires ColumnTo(y, rows, j, k) > 0.0
    ensures i < k && y[i] * rows[i][j] > 0.0
  {
    if y[k - 1] * rows[k - 1][j] > 0.0 {
      i := k - 1;
    } else {
      i := PositiveTerm(y, rows, j, k - 1);
    }
  }

  /**
   Where the largest fickle column `q` leaves (`t`, entering `s`) compared with where it
   enters (`u`): some basic column of `t` prices against `s` in the reduced row of `u`.
   */
  lemma WitnessRow(t: Tableau, u: Tableau, cost: Vec, limit: nat, s: nat, q: nat) returns (i: nat)
    requires Priced(t, cost) && Priced(u, cost) && SameKernel(t, u) && limit <= |cost|
    requires Enters(t, cost, limit, s) && Enters(u, cost, limit, q) && s < q
    ensures i < |t.rows| && Reduced(u, cost, t.basis[i]) * t.rows[i][s] > 0.0
  {
    var v := ReducedRow(u, cost);
    EnteringIsNonbasic(t, cost, s);
    RayInKernel(t, s);
    ReducedIsRayCost(t, cost, s);
    ReducedOnKernel(u, cost, Ray(t, s));
    RayDot(t, v, s);
    i := PositiveTerm(Basics(t, v), t.rows, s, |t.rows|);
  }

  /** The largest fickle column leaves at `out` and enters at `back`. */
  ghost predicate Pinned(run: Run, cost: Vec, limit: nat, q: nat, out: nat, back: nat)
    requires Cycle(run, cost, limit)
  {
    && Fickle(run, q) && out < |run.entering| && back < |run.entering|
    && (forall j :: q < j < |cost| ==> !Fickle(run, j))
    && Enters(run.states[back], cost, limit, q)
    && StepAt(run, cost, limit, out) && run.states[out].basis[run.leaving[out]] == q
  }

  /** Where `q` leaves, a fickle row with a positive entry ties the zero ratio, so the tie-break orders it after `q`. */
  lemma TieBreakOrder(run: Run, cost: Vec, limit: nat, q: nat, out: nat, back: nat, i: nat)
    requires Cycle(run, cost, limit) && Pinned(run, cost, limit, q, out, back)
    requires i < |run.states[out].rows| && Fickle(run, run.states[out].basis[i])
    requires run.states[out].rows[i][run.entering[out]] > 0.0
    ensures q <= run.states[out].basis[i]
  {
    FickleIsZero(run, cost, limit, run.states[out].basis[i], out, i);
    CycleIsDegenerate(run, cost, limit, out);
  }

  lemma FickleRowSigns(run: Run, cost: Vec, limit: nat, q: nat, out: nat, back: nat, i: nat)
    requires Cycle(run, cost, limit) && Pinned(run, cost, limit, q, out, back)
    requires i < |run.states[out].rows| && Fickle(run, run.states[out].basis[i])
    ensures if i == run.leaving[out]
            then Reduced(run.states[back], cost, q) < 0.0 && run.states[out].rows[i][run.entering[out]] > 0.0
            else Reduced(run.states[back], cost, run.states[out].basis[i]) >= 0.0
                 && run.states[out].rows[i][run.entering[out]] <= 0.0
  {
    var t := run.states[out];
    if i != run.leaving[out] {
      BasisDistinct(t, i, run.leaving[out]);
      if t.rows[i][run.entering[out]] > 0.0 {
        TieBreakOrder(run, cost, limit, q, out, back, i);
      }
    }
  }

  lemma NothingTimes(a: real, b: real)
    requires a == 0.0
    ensures a * b <= 0.0
  {
  }

  lemma OppositeSigns(a: real, b: real)
    requires (a <= 0.0 && b >= 0.0) || (a >= 0.0 && b <= 0.0)
    ensures a * b <= 0.0
  {
  }

  /** No row of the leaving state prices against the entering column in the state where `q` enters. */
  lemma SignsAgree(run: Run, cost: Vec, limit: nat, q: nat, out: nat, back: nat, i: nat)
    requires Cycle(run, cost, limit) && Pinned(run, cost, limit, q, out, back)
    requires i < |run.states[out].rows|
    ensures Reduced(run.states[back], cost, run.states[out].basis[i]) * run.states[out].rows[i][run.entering[out]] <= 0.0
  {
    var t, u := run.states[out], run.states[back];
    var b := t.basis[i];
    var reduced, entry := Reduced(u, cost, b), t.rows[i][run.entering[out]];
    if b in u.basis {
      BasicIsFree(u, cost, b);
      NothingTimes(reduced, entry);
    } else {
      assert b in t.basis;
      assert Fickle(run, b);
      FickleRowSigns(run, cost, limit, q, out, back, i);
      OppositeSigns(reduced, entry);
    }
  }

  lemma BasicIsFree(u: Tableau, cost: Vec, b: nat)
    requires Canonical(u) && |cost| == u.columns && b in u.basis
    ensures b < u.columns && Reduced(u, cost, b) == 0.0
  {
    var k :| 0 <= k < |u.basis| && u.basis[k] == b;
    ReducedBasicZero(u, cost, k);
  }

  lemma EnteringIsFickle(run: Run, cost: Vec, limit: nat, i: nat)
    requires BlandRun(run, cost, limit) && i < |run.entering|
    ensures StepAt(run, cost, limit, i) && Fickle(run, run.entering[i]) && run.entering[i] !in run.states[i].basis
  {
    RunStep(run, cost, limit, i);
    assert run.entering[i] in run.states[i + 1].basis;
  }

  lemma PinLargest(run: Run, cost: Vec, limit: nat) returns (q: nat, out: nat, back: nat)
    requires Cycle(run, cost, limit)
    ensures Pinned(run, cost, limit, q, out, back)
    ensures Enters(run.states[out], cost, limit, run.entering[out]) && run.entering[out] < q
    ensures SameKernel(run.states[out], run.states[back])
  {
    EnteringIsFickle(run, cost, limit, 0);
    FickleBelowLimit(run, cost, limit, run.entering[0]);
    q := LargestFickle(run, |cost|, run.entering[0]);
    out, back := FickleMoves(run, cost, limit, q);
    EnteringStep(run, cost, limit, q, back);
    LeavingStep(run, cost, limit, q, out);
    EnteringIsFickle(run, cost, limit, out);
    if out <= back {
      RunKernel(run, cost, limit, out, back);
    } else {
      RunKernel(run, cost, limit, back, out);
    }
  }

  lemma NoCycle(run: Run, cost: Vec, limit: nat)
    ensures !Cycle(run, cost, limit)
  {
    if Cycle(run, cost, limit) {
      var q, out, back := PinLargest(run, cost, limit);
      var i := WitnessRow(run.states[out], run.states[back], cost, limit, run.entering[out], q);
      SignsAgree(run, cost, limit, q, out, back, i);
      assert false;
    }
  }

  ghost function Segment(run: Run, i: nat, k: nat): Run
    requires i <= k < |run.states| == |run.entering| + 1 == |run.leaving| + 1
  {
    Run(run.states[i..k + 1], run.entering[i..k], run.leaving[i..k])
  }

  lemma SegmentIsRun(run: Run, cost: Vec, limit: nat, i: nat, k: nat)
    requires BlandRun(run, cost, limit) && i <= k < |run.states|
    ensures BlandRun(Segment(run, i, k), cost, limit)
  {
    var part := Segment(run, i, k);
    forall n | 0 <= n < |part.states|
      ensures Proper(part.states[n]) && part.states[n].columns == |cost|
    {
      assert part.states[n] == run.states[i + n];
    }
    forall n | 0 <= n < |part.entering|
      ensures StepAt(part, cost, limit, n)
    {
      assert StepAt(run, cost, limit, i + n);
      assert part.states[n] == run.states[i + n] && part.states[n + 1] == run.states[i + n + 1];
    }
  }

  /** Anti-cycling: two different states of a run of Bland pivots never have the same basis. */
  lemma BlandNeverRevisits(run: Run, cost: Vec, limit: nat, i: nat, k: nat)
    requires BlandRun(run, cost, limit) && i < k < |run.states|
    ensures BasisSet(run.states[i]) != BasisSet(run.states[k])
  {
    if BasisSet(run.states[i]) == BasisSet(run.states[k]) {
      SegmentIsRun(run, cost, limit, i, k);
      NoCycle(Segment(run, i, k), cost, limit);
    }
  }
}
