/**
 The two-phase method on a program: the starting tableau, the link every later row
 keeps to the original rows through the retained identity columns, removal of
 redundant rows, and what the final tableau yields as primal and dual answers.
 */
module TwoPhase {
  import opened Vectors
  import opened Tableaus
  import opened Bland
  import opened Minimization
  import opened Programs

  /** Edges, then one identity column per row. */
  function Width(p: Program): nat {
    |p.cost| + |p.rows|
  }

  /** Columns from here on are artificial. */
  function ArtificialFrom(p: Program): nat {
    |p.cost| + p.slacks
  }

  ghost function StartRow(p: Program, i: nat): (row: Vec)
    requires WellFormed(p) && i < |p.rows|
    ensures |row| == Width(p) + 1
  {
    p.rows[i] + Unit(|p.rows|, i) + [p.rhs[i]]
  }

  ghost function StartRows(p: Program): (rows: seq<Vec>)
    requires WellFormed(p)
    ensures |rows| == |p.rows| && Matrix(rows, Width(p) + 1)
    ensures forall i :: 0 <= i < |rows| ==> rows[i] == StartRow(p, i)
  {
    seq(|p.rows|, i requires 0 <= i < |p.rows| => StartRow(p, i))
  }

  ghost function Start(p: Program): Tableau
    requires WellFormed(p)
  {
    Tableau(StartRows(p), seq(|p.rows|, i requires 0 <= i < |p.rows| => |p.cost| + i), Width(p))
  }

  lemma StartProper(p: Program)
    requires WellFormed(p)
    ensures Proper(Start(p))
  {
  }

  // ----- the link to the original rows

  /** `v` is the combination of the starting rows whose weights stand in its identity block. */
  ghost predicate FromOriginal(p: Program, v: Vec)
    requires WellFormed(p)
  {
    && |v| == Width(p) + 1
    && (forall j :: 0 <= j < |v| ==> v[j] == ColumnTo(v[|p.cost|..Width(p)], StartRows(p), j, |p.rows|))
  }

  ghost predicate Linked(p: Program, t: Tableau)
    requires WellFormed(p)
  {
    && Shaped(t) && t.columns == Width(p)
    && (forall i :: 0 <= i < |t.rows| ==> FromOriginal(p, t.rows[i]))
  }

  lemma {:induction false} ColumnAxpy(y: Vec, c: real, z: Vec, rows: seq<Vec>, j: nat, k: nat)
    requires |y| == |z| && k <= |y| && k <= |rows|
    requires forall i :: 0 <= i < k ==> j < |rows[i]|
    ensures ColumnTo(Axpy(y, c, z), rows, j, k) == ColumnTo(y, rows, j, k) + c * ColumnTo(z, rows, j, k)
  {
    if k > 0 {
      ColumnAxpy(y, c, z, rows, j, k - 1);
      var a := rows[k - 1][j];
      assert (y[k - 1] + c * z[k - 1]) * a == y[k - 1] * a + c * (z[k - 1] * a);
    }
  }

  lemma {:induction false} ColumnQuotient(y: Vec, q: real, rows: seq<Vec>, j: nat, k: nat)
    requires q != 0.0 && k <= |y| && k <= |rows|
    requires forall i :: 0 <= i < k ==> j < |rows[i]|
    ensures ColumnTo(Quotient(y, q), rows, j, k) == ColumnTo(y, rows, j, k) / q
  {
    if k > 0 {
      ColumnQuotient(y, q, rows, j, k - 1);
      assert y[k - 1] / q * rows[k - 1][j] == y[k - 1] * rows[k - 1][j] / q;
    }
  }

  lemma FromOriginalAxpy(p: Program, u: Vec, c: real, v: Vec)
    requires WellFormed(p) && FromOriginal(p, u) && FromOriginal(p, v)
    ensures FromOriginal(p, Axpy(u, c, v))
  {
    var n, w := |p.cost|, Width(p);
    var z := Axpy(u, c, v);
    SliceAxpy(u, c, v, n, w);
    forall j | 0 <= j < |z|
      ensures z[j] == ColumnTo(z[n..w], StartRows(p), j, |p.rows|)
    {
      OriginalEntry(p, u, c, v, j);
    }
  }

  lemma OriginalEntry(p: Program, u: Vec, c: real, v: Vec, j: nat)
    requires WellFormed(p) && FromOriginal(p, u) && FromOriginal(p, v) && j <= Width(p)
    ensures Axpy(u, c, v)[j] == ColumnTo(Axpy(u[|p.cost|..Width(p)], c, v[|p.cost|..Width(p)]), StartRows(p), j, |p.rows|)
  {
    var y, z := u[|p.cost|..Width(p)], v[|p.cost|..Width(p)];
    EntryAxpy(u, c, v, y, z, StartRows(p), j, |p.rows|);
  }

  lemma EntryAxpy(u: Vec, c: real, v: Vec, y: Vec, z: Vec, rows: seq<Vec>, j: nat, k: nat)
    requires |u| == |v| && j < |u| && |y| == |z| && k <= |y| && k <= |rows| && forall i :: 0 <= i < k ==> j < |rows[i]|
    requires u[j] == ColumnTo(y, rows, j, k) && v[j] == ColumnTo(z, rows, j, k)
    ensures Axpy(u, c, v)[j] == ColumnTo(Axpy(y, c, z), rows, j, k)
  {
    ColumnAxpy(y, c, z, rows, j, k);
    Mixed(u[j], v[j], ColumnTo(y, rows, j, k), ColumnTo(z, rows, j, k), c);
  }

  lemma Mixed(a: real, b: real, a': real, b': real, c: real)
    requires a == a' && b == b'
    ensures a + c * b == a' + c * b'
  {
  }

  lemma FromOriginalQuotient(p: Program, v: Vec, q: real)
    requires WellFormed(p) && FromOriginal(p, v) && q != 0.0
    ensures FromOriginal(p, Quotient(v, q))
  {
    var n, w := |p.cost|, Width(p);
    var z := Quotient(v, q);
    assert z[n..w] == Quotient(v[n..w], q);
    forall j | 0 <= j < |z|
      ensures z[j] == ColumnTo(z[n..w], StartRows(p), j, |p.rows|)
    {
      ColumnQuotient(v[n..w], q, StartRows(p), j, |p.rows|);
    }
  }

  lemma StartLinked(p: Program)
    requires WellFormed(p)
    ensures Linked(p, Start(p))
  {
    var n, w := |p.cost|, Width(p);
    forall i | 0 <= i < |p.rows|
      ensures FromOriginal(p, StartRow(p, i))
    {
      var v := StartRow(p, i);
      assert v[n..w] == Unit(|p.rows|, i);
      forall j | 0 <= j < |v|
        ensures v[j] == ColumnTo(v[n..w], StartRows(p), j, |p.rows|)
      {
        ColumnUnitWeights(v[n..w], StartRows(p), j, |p.rows|, i);
      }
    }
  }

  lemma PivotLinked(p: Program, t: Tableau, r: nat, c: nat)
    requires WellFormed(p) && Linked(p, t) && r < |t.rows| && c < t.columns && t.rows[r][c] != 0.0
    ensures Linked(p, Pivoted(t, r, c))
  {
    var scaled := Quotient(t.rows[r], t.rows[r][c]);
    FromOriginalQuotient(p, t.rows[r], t.rows[r][c]);
    forall i | 0 <= i < |t.rows|
      ensures FromOriginal(p, PivotedRow(t, r, c, i))
    {
      if i != r {
        FromOriginalAxpy(p, t.rows[i], -t.rows[i][c], scaled);
      }
    }
  }

  lemma {:induction false} ZeroWeights(y: Vec, rows: seq<Vec>, j: nat, k: nat)
    requires k <= |y| && k <= |rows|
    requires forall i :: 0 <= i < k ==> j < |rows[i]| && y[i] == 0.0
    ensures ColumnTo(y, rows, j, k) == 0.0
  {
    if k > 0 {
      ZeroWeights(y, rows, j, k - 1);
    }
  }

  lemma {:induction false} CombinationFromOriginal(p: Program, t: Tableau, y: Vec, k: nat)
    requires WellFormed(p) && Linked(p, t) && k <= |y| && k <= |t.rows|
    ensures FromOriginal(p, CombineTo(y, t.rows, Width(p) + 1, k))
  {
    if k == 0 {
      var z := Zeros(Width(p) + 1);
      forall j | 0 <= j < |z|
        ensures ColumnTo(z[|p.cost|..Width(p)], StartRows(p), j, |p.rows|) == 0.0
      {
        ZeroWeights(z[|p.cost|..Width(p)], StartRows(p), j, |p.rows|);
      }
    } else {
      CombinationFromOriginal(p, t, y, k - 1);
      FromOriginalAxpy(p, CombineTo(y, t.rows, Width(p) + 1, k - 1), y[k - 1], t.rows[k - 1]);
    }
  }

  // ----- dual multipliers

  /** The multipliers read off the identity block. */
  ghost function Duals(p: Program, t: Tableau, cost: Vec): (y: Vec)
    requires WellFormed(p) && Linked(p, t) && |cost| == t.columns
    ensures |y| == |p.rows|
    ensures forall k :: 0 <= k < |y| ==> y[k] == ColumnTo(Basics(t, cost), t.rows, |p.cost| + k, |t.rows|)
  {
    seq(|p.rows|, k requires 0 <= k < |p.rows| => ColumnTo(Basics(t, cost), t.rows, |p.cost| + k, |t.rows|))
  }

  /** The multipliers reproduce the basic cost row from the starting rows, column by column. */
  lemma DualsReproduce(p: Program, t: Tableau, cost: Vec, j: nat)
    requires WellFormed(p) && Linked(p, t) && |cost| == t.columns && j <= t.columns
    ensures ColumnTo(Basics(t, cost), t.rows, j, |t.rows|) == ColumnTo(Duals(p, t, cost), StartRows(p), j, |p.rows|)
  {
    var y := Basics(t, cost);
    var w := CombineTo(y, t.rows, Width(p) + 1, |t.rows|);
    CombinationFromOriginal(p, t, y, |t.rows|);
    CombineAt(y, t.rows, Width(p) + 1, |t.rows|, j);
    DualsAreCombined(p, t, cost, y, w);
  }

  /** The multipliers are the identity-block entries of the combined rows. */
  lemma DualsAreCombined(p: Program, t: Tableau, cost: Vec, y: Vec, w: Vec)
    requires WellFormed(p) && Linked(p, t) && |cost| == t.columns && y == Basics(t, cost)
    requires w == CombineTo(y, t.rows, Width(p) + 1, |t.rows|)
    ensures w[|p.cost|..Width(p)] == Duals(p, t, cost)
  {
    CombinedSlice(y, t.rows, Width(p) + 1, |p.cost|, Duals(p, t, cost), w);
  }

  /** A slice of the combined rows, entry by entry. */
  lemma CombinedSlice(y: Vec, rows: seq<Vec>, width: nat, from: nat, d: Vec, w: Vec)
    requires |y| == |rows| && Matrix(rows, width) && from + |d| <= width && w == CombineTo(y, rows, width, |rows|)
    requires forall k :: 0 <= k < |d| ==> d[k] == ColumnTo(y, rows, from + k, |rows|)
    ensures w[from..from + |d|] == d
  {
    forall k | 0 <= k < |d|
      ensures w[from + k] == d[k]
    {
      CombineAt(y, rows, width, |rows|, from + k);
    }
    SliceIs(w, from, d);
  }

  lemma SliceIs(w: Vec, from: nat, d: Vec)
    requires from + |d| <= |w| && forall k :: 0 <= k < |d| ==> w[from + k] == d[k]
    ensures w[from..from + |d|] == d
  {
  }

  lemma {:induction false} ColumnSameEntries(y: Vec, a: seq<Vec>, b: seq<Vec>, j: nat, l: nat, k: nat)
    requires k <= |y| && k <= |a| && k <= |b|
    requires forall i :: 0 <= i < k ==> j < |a[i]| && l < |b[i]| && a[i][j] == b[i][l]
    ensures ColumnTo(y, a, j, k) == ColumnTo(y, b, l, k)
  {
    if k > 0 {
      ColumnSameEntries(y, a, b, j, l, k - 1);
    }
  }

  /** `y·b` is the objective. */
  lemma DualValue(p: Program, t: Tableau, cost: Vec)
    requires WellFormed(p) && Linked(p, t) && |cost| == t.columns
    ensures Dot(Duals(p, t, cost), p.rhs) == Objective(t, cost)
  {
    DualsReproduce(p, t, cost, t.columns);
    ColumnIsDot(Duals(p, t, cost), StartRows(p), t.columns, p.rhs, |p.rows|);
  }

  /** `y·A` is the basic cost row. */
  lemma DualColumn(p: Program, t: Tableau, cost: Vec, j: nat)
    requires WellFormed(p) && Linked(p, t) && |cost| == t.columns && j < |p.cost|
    ensures ColumnTo(Duals(p, t, cost), p.rows, j, |p.rows|) == cost[j] - Reduced(t, cost, j)
  {
    DualsReproduce(p, t, cost, j);
    ColumnSameEntries(Duals(p, t, cost), StartRows(p), p.rows, j, j, |p.rows|);
  }

  /** At an optimal tableau whose slack columns are free, the multipliers are dual feasible. */
  lemma OptimalDuals(p: Program, t: Tableau, cost: Vec, limit: nat)
    requires WellFormed(p) && Linked(p, t) && |cost| == t.columns
    requires ArtificialFrom(p) <= limit <= t.columns && Optimal(t, cost, limit)
    requires forall j :: |p.cost| <= j < ArtificialFrom(p) ==> cost[j] == 0.0
    ensures DualFeasible(p, Duals(p, t, cost), cost[..|p.cost|])
  {
    var y := Duals(p, t, cost);
    forall k | 0 <= k < p.slacks
      ensures y[k] <= 0.0
    {
      assert Reduced(t, cost, |p.cost| + k) >= 0.0;
    }
    forall j | 0 <= j < |p.cost|
      ensures ColumnTo(y, p.rows, j, |p.rows|) <= cost[j]
    {
      DualColumn(p, t, cost, j);
      assert Reduced(t, cost, j) >= 0.0;
    }
  }

  // ----- solutions

  /** No artificial column is used. */
  ghost predicate ArtificialsZero(p: Program, z: Vec) {
    |z| == Width(p) + 1 && forall j :: ArtificialFrom(p) <= j < Width(p) ==> z[j] == 0.0
  }

  /** With artificials at zero, `t` and the starting tableau have the same solutions. */
  ghost predicate SameSolutions(p: Program, t: Tableau)
    requires WellFormed(p) && Shaped(t)
  {
    forall z :: ArtificialsZero(p, z) ==> (InKernel(t, z) <==> InKernel(Start(p), z))
  }

  lemma {:induction false} RunLinked(p: Program, run: Run, cost: Vec, limit: nat, i: nat)
    requires WellFormed(p) && BlandRun(run, cost, limit) && i < |run.states| && Linked(p, run.states[0])
    ensures Linked(p, run.states[i])
  {
    if i > 0 {
      RunLinked(p, run, cost, limit, i - 1);
      assert StepAt(run, cost, limit, i - 1);
      PivotLinked(p, run.states[i - 1], run.leaving[i - 1], run.entering[i - 1]);
    }
  }

  ghost predicate BasisBelow(t: Tableau, limit: nat) {
    forall i :: 0 <= i < |t.basis| ==> t.basis[i] < limit
  }

  lemma {:induction false} RunBasisBelow(run: Run, cost: Vec, limit: nat, i: nat)
    requires BlandRun(run, cost, limit) && i < |run.states| && BasisBelow(run.states[0], limit)
    ensures BasisBelow(run.states[i], limit)
  {
    if i > 0 {
      RunBasisBelow(run, cost, limit, i - 1);
      assert StepAt(run, cost, limit, i - 1);
    }
  }

  /** What the two-phase method maintains throughout. */
  ghost predicate Tracked(p: Program, t: Tableau)
    requires WellFormed(p)
  {
    Proper(t) && Linked(p, t) && SameSolutions(p, t)
  }

  lemma MinimizedTracked(p: Program, t: Tableau, cost: Vec, limit: nat)
    requires WellFormed(p) && Tracked(p, t) && Minimizable(t, cost, limit)
    ensures Tracked(p, Minimized(t, cost, limit))
    ensures BasisBelow(t, limit) ==> BasisBelow(Minimized(t, cost, limit), limit)
  {
    var run := Completed(Single(t), cost, limit);
    var last := |run.states| - 1;
    RunLinked(p, run, cost, limit, last);
    RunKernel(run, cost, limit, 0, last);
    if BasisBelow(t, limit) {
      RunBasisBelow(run, cost, limit, last);
    }
  }

  // ----- removing artificial columns from the basis

  function WithoutRow(t: Tableau, i: nat): Tableau
    requires i < |t.rows| == |t.basis|
  {
    Tableau(t.rows[..i] + t.rows[i + 1..], t.basis[..i] + t.basis[i + 1..], t.columns)
  }

  lemma WithoutRowProper(t: Tableau, i: nat)
    requires Proper(t) && i < |t.rows|
    ensures Proper(WithoutRow(t, i))
  {
    var u := WithoutRow(t, i);
    forall k | 0 <= k < |u.rows|
      ensures Rhs(u, k) >= 0.0
    {
      assert u.rows[k] == t.rows[if k < i then k else k + 1];
      assert Rhs(t, if k < i then k else k + 1) >= 0.0;
    }
  }

  lemma WithoutRowLinked(p: Program, t: Tableau, i: nat)
    requires WellFormed(p) && Linked(p, t) && i < |t.rows|
    ensures Linked(p, WithoutRow(t, i))
  {
  }

  /** The first column from `j` on below `limit` with a nonzero entry in row `i`, or `limit`. */
  ghost function FirstNonzero(t: Tableau, i: nat, limit: nat, j: nat): (c: nat)
    requires Shaped(t) && i < |t.rows| && j <= limit <= t.columns
    ensures j <= c <= limit && (c < limit ==> t.rows[i][c] != 0.0)
    ensures forall k :: j <= k < c ==> t.rows[i][k] == 0.0
    decreases limit - j
  {
    if j == limit || t.rows[i][j] != 0.0 then j else FirstNonzero(t, i, limit, j + 1)
  }

  lemma RedundantRowDot(p: Program, t: Tableau, i: nat, z: Vec)
    requires Shaped(t) && t.columns == Width(p) && i < |t.rows| && ArtificialsZero(p, z) && p.slacks <= |p.rows|
    requires Rhs(t, i) == 0.0 && forall k :: 0 <= k < ArtificialFrom(p) ==> t.rows[i][k] == 0.0
    ensures Dot(t.rows[i], z) == 0.0
  {
    DotZeroTo(t.rows[i], z, |z|);
  }

  lemma WithoutRowKernel(t: Tableau, i: nat, z: Vec)
    requires Proper(t) && i < |t.rows| && |z| == t.columns + 1 && Dot(t.rows[i], z) == 0.0
    ensures Shaped(WithoutRow(t, i)) && (InKernel(WithoutRow(t, i), z) <==> InKernel(t, z))
  {
    var u := WithoutRow(t, i);
    WithoutRowProper(t, i);
    forall k | 0 <= k < |u.rows|
      ensures u.rows[k] == t.rows[if k < i then k else k + 1]
    {
    }
    forall k | 0 <= k < |t.rows| && k != i
      ensures t.rows[k] == u.rows[if k < i then k else k - 1]
    {
    }
  }

  /** Deleting a row that vanishes off the artificial columns loses no solution. */
  lemma WithoutRowSolutions(p: Program, t: Tableau, i: nat)
    requires WellFormed(p) && Tracked(p, t) && i < |t.rows|
    requires Rhs(t, i) == 0.0 && forall k :: 0 <= k < ArtificialFrom(p) ==> t.rows[i][k] == 0.0
    ensures Shaped(WithoutRow(t, i)) && SameSolutions(p, WithoutRow(t, i))
  {
    var u := WithoutRow(t, i);
    WithoutRowProper(t, i);
    forall z | ArtificialsZero(p, z)
      ensures InKernel(u, z) <==> InKernel(Start(p), z)
    {
      RedundantRowDot(p, t, i, z);
      WithoutRowKernel(t, i, z);
    }
  }

  /** Rows whose basis column is artificial have right-hand side zero. */
  ghost predicate ArtificialsAtZero(t: Tableau, limit: nat)
    requires Shaped(t)
  {
    forall i :: 0 <= i < |t.rows| && t.basis[i] >= limit ==> Rhs(t, i) == 0.0
  }

  ghost predicate Purgeable(p: Program, t: Tableau, i: nat)
    requires WellFormed(p)
  {
    && Tracked(p, t) && ArtificialsAtZero(t, ArtificialFrom(p)) && i <= |t.rows|
    && (forall k :: 0 <= k < i ==> t.basis[k] < ArtificialFrom(p))
  }

  lemma PurgePivot(p: Program, t: Tableau, i: nat, c: nat)
    requires WellFormed(p) && Purgeable(p, t, i) && i < |t.rows| && t.basis[i] >= ArtificialFrom(p)
    requires c < ArtificialFrom(p) && t.rows[i][c] != 0.0
    ensures Purgeable(p, Pivoted(t, i, c), i + 1)
  {
    DegeneratePivotProper(t, i, c);
    PivotLinked(p, t, i, c);
    PivotSameKernel(t, i, c);
  }

  lemma PurgeDelete(p: Program, t: Tableau, i: nat)
    requires WellFormed(p) && Purgeable(p, t, i) && i < |t.rows| && t.basis[i] >= ArtificialFrom(p)
    requires forall k :: 0 <= k < ArtificialFrom(p) ==> t.rows[i][k] == 0.0
    ensures Purgeable(p, WithoutRow(t, i), i)
  {
    WithoutRowProper(t, i);
    WithoutRowLinked(p, t, i);
    WithoutRowSolutions(p, t, i);
  }

  /** Rows from `i` on either pivot their artificial column out or, being redundant, are deleted. */
  ghost function Purged(p: Program, t: Tableau, i: nat): (u: Tableau)
    requires WellFormed(p) && Purgeable(p, t, i)
    ensures Tracked(p, u) && BasisBelow(u, ArtificialFrom(p))
    decreases |t.rows| - i
  {
    if i == |t.rows| then t
    else if t.basis[i] < ArtificialFrom(p) then Purged(p, t, i + 1)
    else
      var c := FirstNonzero(t, i, ArtificialFrom(p), 0);
      if c < ArtificialFrom(p) then
        PurgePivot(p, t, i, c);
        Purged(p, Pivoted(t, i, c), i + 1)
      else
        PurgeDelete(p, t, i);
        Purged(p, WithoutRow(t, i), i)
  }

  // ----- the phases

  function PhaseOneCost(p: Program): (c: Vec)
    ensures |c| == Width(p) && Nonnegative(c)
    ensures forall j :: 0 <= j < |c| ==> c[j] == if j < ArtificialFrom(p) then 0.0 else 1.0
  {
    seq(Width(p), j => if j < ArtificialFrom(p) then 0.0 else 1.0)
  }

  function PhaseTwoCost(p: Program): (c: Vec)
    ensures |c| == Width(p)
  {
    p.cost + Zeros(|p.rows|)
  }

  ghost function PhaseOne(p: Program): (t: Tableau)
    requires WellFormed(p)
    ensures Tracked(p, t) && Optimal(t, PhaseOneCost(p), Width(p))
  {
    StartProper(p);
    StartLinked(p);
    MinimizedTracked(p, Start(p), PhaseOneCost(p), Width(p));
    Minimized(Start(p), PhaseOneCost(p), Width(p))
  }

  ghost predicate PhaseOneZero(p: Program)
    requires WellFormed(p)
  {
    Objective(PhaseOne(p), PhaseOneCost(p)) == 0.0
  }

  lemma {:induction false} NonnegativeColumn(y: Vec, rows: seq<Vec>, j: nat, k: nat)
    requires k <= |y| && k <= |rows|
    requires forall i :: 0 <= i < k ==> j < |rows[i]| && y[i] >= 0.0 && rows[i][j] >= 0.0
    ensures ColumnTo(y, rows, j, k) >= 0.0
    ensures ColumnTo(y, rows, j, k) == 0.0 ==> forall i :: 0 <= i < k ==> y[i] * rows[i][j] == 0.0
  {
    if k > 0 {
      NonnegativeColumn(y, rows, j, k - 1);
    }
  }

  lemma ObjectiveNonnegative(t: Tableau, cost: Vec)
    requires Proper(t) && |cost| == t.columns && Nonnegative(cost)
    ensures Objective(t, cost) >= 0.0
    ensures Objective(t, cost) == 0.0 ==>
              forall i :: 0 <= i < |t.rows| ==> Basics(t, cost)[i] * Rhs(t, i) == 0.0
  {
    forall i | 0 <= i < |t.rows|
      ensures t.rows[i][t.columns] >= 0.0
    {
      assert Rhs(t, i) >= 0.0;
    }
    NonnegativeColumn(Basics(t, cost), t.rows, t.columns, |t.rows|);
  }

  lemma UnitTimes(a: real, b: real)
    requires a == 1.0 && a * b == 0.0
    ensures b == 0.0
  {
  }

  lemma ZeroObjectivePurgeable(p: Program, t: Tableau)
    requires WellFormed(p) && Tracked(p, t) && Objective(t, PhaseOneCost(p)) == 0.0
    ensures Purgeable(p, t, 0)
  {
    var c := PhaseOneCost(p);
    ObjectiveNonnegative(t, c);
    forall i | 0 <= i < |t.rows| && t.basis[i] >= ArtificialFrom(p)
      ensures Rhs(t, i) == 0.0
    {
      assert Basics(t, c)[i] == 1.0;
      UnitTimes(Basics(t, c)[i], Rhs(t, i));
    }
  }

  lemma PhaseOnePurgeable(p: Program)
    requires WellFormed(p) && PhaseOneZero(p)
    ensures Purgeable(p, PhaseOne(p), 0)
  {
    ZeroObjectivePurgeable(p, PhaseOne(p));
  }

  ghost function PhaseTwo(p: Program): (t: Tableau)
    requires WellFormed(p) && PhaseOneZero(p)
    ensures Tracked(p, t) && BasisBelow(t, ArtificialFrom(p)) && Optimal(t, PhaseTwoCost(p), ArtificialFrom(p))
  {
    PhaseOnePurgeable(p);
    var u := Purged(p, PhaseOne(p), 0);
    MinimizedTracked(p, u, PhaseTwoCost(p), ArtificialFrom(p));
    Minimized(u, PhaseTwoCost(p), ArtificialFrom(p))
  }

  // ----- the primal answer

  ghost function Solution(t: Tableau, n: nat): (x: Vec)
    requires Shaped(t) && n <= t.columns
    ensures |x| == n
  {
    Axpy(Zeros(n), -1.0, Ray(t, t.columns)[..n])
  }

  lemma SolutionDot(t: Tableau, n: nat, v: Vec)
    requires Shaped(t) && n <= t.columns && |v| == n
    ensures Dot(v, Solution(t, n)) == -Dot(v, Ray(t, t.columns)[..n])
  {
    DotAxpyRight(v, Zeros(n), -1.0, Ray(t, t.columns)[..n]);
    DotZeroTo(v, Zeros(n), n);
  }

  lemma StartRowDot(p: Program, i: nat, z: Vec)
    requires WellFormed(p) && i < |p.rows| && |z| == Width(p) + 1
    ensures Dot(StartRow(p, i), z) == Dot(p.rows[i], z[..|p.cost|]) + z[|p.cost| + i] + p.rhs[i] * z[Width(p)]
  {
    var n, w := |p.cost|, Width(p);
    var u := Unit(|p.rows|, i);
    assert z == z[..n] + z[n..w] + z[w..];
    assert z[w..] == [z[w]];
    DotAppend(p.rows[i] + u, z[..n] + z[n..w], [p.rhs[i]], z[w..]);
    DotAppend(p.rows[i], z[..n], u, z[n..w]);
    DotSymmetricTo(u, z[n..w], |u|);
    DotUnit(z[n..w], i);
    assert Dot([p.rhs[i]], z[w..]) == DotTo([p.rhs[i]], z[w..], 0) + p.rhs[i] * z[w];
  }

  /** The negated basic point is nonpositive except for its homogeneous entry. */
  lemma PointSigns(t: Tableau, j: nat)
    requires Proper(t) && j < t.columns
    ensures Ray(t, t.columns)[j] <= 0.0
    ensures j !in t.basis ==> Ray(t, t.columns)[j] == 0.0
    ensures Ray(t, t.columns)[t.columns] == 1.0
  {
    RayEntries(t, t.columns);
    if j in t.basis {
      var i :| 0 <= i < |t.basis| && t.basis[i] == j;
      assert Rhs(t, i) >= 0.0;
    }
  }

  /** Each original row at the solution falls short of its right-hand side by its identity column's value. */
  lemma SolutionRow(p: Program, t: Tableau, i: nat)
    requires WellFormed(p) && Tracked(p, t) && BasisBelow(t, ArtificialFrom(p)) && i < |p.rows|
    ensures Dot(p.rows[i], Solution(t, |p.cost|)) == p.rhs[i] + Ray(t, t.columns)[|p.cost| + i]
  {
    var z := Ray(t, t.columns);
    RayInKernel(t, t.columns);
    forall j | ArtificialFrom(p) <= j < Width(p)
      ensures z[j] == 0.0
    {
      PointSigns(t, j);
    }
    assert ArtificialsZero(p, z);
    assert InKernel(Start(p), z);
    assert Dot(StartRows(p)[i], z) == 0.0;
    StartRowDot(p, i, z);
    PointSigns(t, |p.cost| + i);
    SolutionDot(t, |p.cost|, p.rows[i]);
  }

  lemma SolutionNonnegative(t: Tableau, n: nat)
    requires Proper(t) && n <= t.columns
    ensures Nonnegative(Solution(t, n))
  {
    forall j | 0 <= j < n
      ensures Solution(t, n)[j] >= 0.0
    {
      PointSigns(t, j);
    }
  }

  lemma SolutionFeasible(p: Program, t: Tableau)
    requires WellFormed(p) && Tracked(p, t) && BasisBelow(t, ArtificialFrom(p))
    ensures Feasible(p, Solution(t, |p.cost|))
  {
    SolutionNonnegative(t, |p.cost|);
    forall i | 0 <= i < |p.rows|
      ensures if i < p.slacks then Dot(p.rows[i], Solution(t, |p.cost|)) <= p.rhs[i]
              else Dot(p.rows[i], Solution(t, |p.cost|)) == p.rhs[i]
    {
      SolutionRow(p, t, i);
      PointSigns(t, |p.cost| + i);
    }
  }

  lemma SolutionCost(p: Program, t: Tableau)
    requires WellFormed(p) && Proper(t) && t.columns == Width(p)
    ensures Dot(p.cost, Solution(t, |p.cost|)) == Objective(t, PhaseTwoCost(p))
  {
    var n, w := |p.cost|, Width(p);
    var z := Ray(t, w);
    var tail := Zeros(|p.rows|) + [0.0];
    SolutionDot(t, n, p.cost);
    ReducedIsRayCost(t, PhaseTwoCost(p), w);
    assert z == z[..n] + z[n..];
    assert PhaseTwoCost(p) + [0.0] == p.cost + tail;
    DotAppend(p.cost, z[..n], tail, z[n..]);
    DotZeroTo(tail, z[n..], |tail|);
  }

  // ----- what the two phases decide

  /** Phase two ends at a feasible point whose cost equals its multipliers' value. */
  lemma PhaseTwoCertified(p: Program)
    requires WellFormed(p) && PhaseOneZero(p)
    ensures var t := PhaseTwo(p);
            var x, y := Solution(t, |p.cost|), Duals(p, t, PhaseTwoCost(p));
            && Feasible(p, x) && DualFeasible(p, y, p.cost)
            && Dot(p.cost, x) == Dot(y, p.rhs) == Objective(t, PhaseTwoCost(p))
            && Objective(t, PhaseTwoCost(p)) >= 0.0
  {
    var t, c := PhaseTwo(p), PhaseTwoCost(p);
    SolutionFeasible(p, t);
    SolutionCost(p, t);
    OptimalDuals(p, t, c, ArtificialFrom(p));
    assert c[..|p.cost|] == p.cost;
    DualValue(p, t, c);
    ObjectiveNonnegative(t, c);
  }

  /** When phase one ends above zero its multipliers are a Farkas witness. */
  lemma PhaseOneCertified(p: Program)
    requires WellFormed(p) && !PhaseOneZero(p)
    ensures var y := Duals(p, PhaseOne(p), PhaseOneCost(p));
            DualFeasible(p, y, Zeros(|p.cost|)) && Dot(y, p.rhs) > 0.0
  {
    PositiveCertified(p, PhaseOne(p));
  }

  /** Where phase one is optimal at a value other than zero, its multipliers are a Farkas witness. */
  lemma PositiveCertified(p: Program, t: Tableau)
    requires WellFormed(p) && Tracked(p, t) && Optimal(t, PhaseOneCost(p), Width(p)) && Objective(t, PhaseOneCost(p)) != 0.0
    ensures DualFeasible(p, Duals(p, t, PhaseOneCost(p)), Zeros(|p.cost|)) && Dot(Duals(p, t, PhaseOneCost(p)), p.rhs) > 0.0
  {
    var c := PhaseOneCost(p);
    OptimalDuals(p, t, c, Width(p));
    assert c[..|p.cost|] == Zeros(|p.cost|);
    DualValue(p, t, c);
    ObjectiveNonnegative(t, c);
  }

  /** Phase one decides feasibility, and phase two ends at a least-cost feasible point. */
  lemma TwoPhaseDecides(p: Program)
    requires WellFormed(p)
    ensures PhaseOneZero(p) <==> exists x :: Feasible(p, x)
    ensures PhaseOneZero(p) ==>
              var best := Solution(PhaseTwo(p), |p.cost|);
              Feasible(p, best) && forall x :: Feasible(p, x) ==> Dot(p.cost, best) <= Dot(p.cost, x)
  {
    if PhaseOneZero(p) {
      PhaseTwoCertified(p);
      var t := PhaseTwo(p);
      var best, y := Solution(t, |p.cost|), Duals(p, t, PhaseTwoCost(p));
      forall x | Feasible(p, x)
        ensures Dot(p.cost, best) <= Dot(p.cost, x)
      {
        CertifiedOptimum(p, y, best, x);
      }
    } else {
      PhaseOneCertified(p);
      forall x: Vec
        ensures !Feasible(p, x)
      {
        CertifiedInfeasible(p, Duals(p, PhaseOne(p), PhaseOneCost(p)), x);
      }
    }
  }
}
