/**
 The mutable tableau and its operations. Each operation is tied to the value-level
 tableau it computes; work limits and cancellation can refuse at any pivot, and a
 refusal promises nothing about the program.
 */
module Simplex {
  import opened Vectors
  import opened Inputs
  import opened Tableaus
  import opened Bland
  import opened Minimization
  import opened Programs
  import opened Models
  import opened TwoPhase
  import opened Budgets

  /** Whether some entry of the row has outgrown the bit bound. */
  method Oversized(row: Vec, fits: Fits) returns (refused: bool)
    ensures refused <==> !RowFits(fits, row)
  {
    for j := 0 to |row|
      invariant forall k :: 0 <= k < j ==> fits(row[k])
    {
      if !fits(row[j]) {
        return true;
      }
    }
    return false;
  }

  method DivideRow(row: Vec, pivot: real) returns (out: Vec)
    requires pivot != 0.0
    ensures out == Quotient(row, pivot)
  {
    out := row;
    for j := 0 to |row|
      invariant |out| == |row|
      invariant forall k :: 0 <= k < |row| ==> out[k] == if k < j then row[k] / pivot else row[k]
    {
      out := out[j := out[j] / pivot];
    }
  }

  method SubtractRow(row: Vec, factor: real, source: Vec) returns (out: Vec)
    requires |row| == |source|
    ensures out == Axpy(row, -factor, source)
  {
    out := row;
    for j := 0 to |row|
      invariant |out| == |row|
      invariant forall k :: 0 <= k < |row| ==> out[k] == if k < j then row[k] + -factor * source[k] else row[k]
    {
      out := out[j := out[j] - factor * source[j]];
    }
  }

  /** Row `i` of the pivoted tableau, from the row itself and the scaled pivot row. */
  method EliminateRow(row: Vec, scaled: Vec, column: nat, i: nat, pivot: nat, ghost before: Tableau) returns (out: Vec)
    requires Shaped(before) && pivot < |before.rows| && column < before.columns && before.rows[pivot][column] != 0.0
    requires i < |before.rows| && scaled == Quotient(before.rows[pivot], before.rows[pivot][column])
    requires row == if i == pivot then scaled else before.rows[i]
    ensures out == PivotedRow(before, pivot, column, i)
  {
    out := row;
    if i != pivot {
      var factor := row[column];
      if factor != 0.0 {
        out := SubtractRow(row, factor, scaled);
      } else {
        assert Axpy(row, -factor, scaled) == row;
      }
    }
  }

  /** The rows before `i` are those of the pivoted tableau and fit; the others are still as given. */
  ghost predicate EliminatedTo(before: Tableau, row: nat, column: nat, fits: Fits, rows: seq<Vec>, out: seq<Vec>, i: nat)
    requires Shaped(before) && row < |before.rows| && column < before.columns && before.rows[row][column] != 0.0
  {
    && |out| == |rows| == |before.rows| && i <= |rows|
    && (forall k :: 0 <= k < i ==> out[k] == PivotedRow(before, row, column, k) && RowFits(fits, out[k]))
    && (forall k :: i <= k < |rows| ==> out[k] == rows[k])
  }

  lemma EliminatedNext(before: Tableau, row: nat, column: nat, fits: Fits, rows: seq<Vec>, out: seq<Vec>, i: nat, reduced: Vec)
    requires Shaped(before) && row < |before.rows| && column < before.columns && before.rows[row][column] != 0.0
    requires EliminatedTo(before, row, column, fits, rows, out, i) && i < |rows|
    requires reduced == PivotedRow(before, row, column, i) && RowFits(fits, reduced)
    ensures EliminatedTo(before, row, column, fits, rows, out[i := reduced], i + 1)
  {
  }

  /** Clears the column in every other row. A refusal returns the rows as far as they were changed. */
  method Eliminate(ctx: Context, fits: Fits, rows: seq<Vec>, row: nat, column: nat, ghost before: Tableau)
    returns (err: Error, out: seq<Vec>)
    requires Shaped(before) && row < |before.rows| && column < before.columns && before.rows[row][column] != 0.0
    requires rows == before.rows[row := Quotient(before.rows[row], before.rows[row][column])]
    modifies ctx
    ensures err.NoError? || err.Cancelled? || err.LimitExceeded?
    ensures Heeded(err, ctx.cancelled, old(ctx.polls), ctx.polls)
    ensures err.NoError? ==> EliminatedTo(before, row, column, fits, rows, out, |rows|)
    ensures err.LimitExceeded? ==> !TableauFits(fits, Pivoted(before, row, column))
  {
    out := rows;
    for i := 0 to |rows|
      invariant EliminatedTo(before, row, column, fits, rows, out, i)
      invariant old(ctx.polls) <= ctx.polls && Live(ctx.cancelled, old(ctx.polls), ctx.polls)
    {
      var cancelled := ctx.Done();
      if cancelled {
        return Cancelled, out;
      }
      var reduced := EliminateRow(out[i], rows[row], column, i, row, before);
      var refused := Oversized(reduced, fits);
      if refused {
        assert Pivoted(before, row, column).rows[i] == reduced;
        return LimitExceeded, out[i := reduced];
      }
      EliminatedNext(before, row, column, fits, rows, out, i, reduced);
      out := out[i := reduced];
    }
    err := NoError;
  }

  // ----- the starting tableau

  /** Row `i` of the starting tableau before its edge entries are set. */
  ghost function BlankRow(p: Program, i: nat): (row: Vec)
    requires WellFormed(p) && i < |p.rows|
    ensures |row| == Width(p) + 1
  {
    Zeros(Width(p) + 1)[|p.cost| + i := 1.0][Width(p) := p.rhs[i]]
  }

  /** Row `i` with its first `j` edge entries set. */
  ghost predicate FilledTo(p: Program, row: Vec, i: nat, j: nat)
    requires WellFormed(p) && i < |p.rows| && j <= |p.cost|
  {
    && |row| == Width(p) + 1
    && (forall c :: 0 <= c <= Width(p) ==> row[c] == if c < j then p.rows[i][c] else BlankRow(p, i)[c])
  }

  lemma FilledIsStart(p: Program, rows: seq<Vec>, basis: seq<nat>)
    requires WellFormed(p) && |rows| == |p.rows| == |basis|
    requires forall i :: 0 <= i < |rows| ==> FilledTo(p, rows[i], i, |p.cost|) && basis[i] == |p.cost| + i
    ensures Tableau(rows, basis, Width(p)) == Start(p)
  {
    forall i | 0 <= i < |rows|
      ensures rows[i] == StartRow(p, i)
    {
    }
    assert rows == Start(p).rows && basis == Start(p).basis;
  }

  lemma FillStep(p: Program, row: Vec, i: nat, j: nat)
    requires WellFormed(p) && i < |p.rows| && j < |p.cost| && FilledTo(p, row, i, j)
    ensures FilledTo(p, row[j := p.rows[i][j]], i, j + 1)
    ensures p.rows[i][j] == 0.0 ==> FilledTo(p, row, i, j + 1)
  {
  }

  /** Every row is filled to column `j`. */
  ghost predicate GridFilled(p: Program, grid: seq<Vec>, j: nat)
    requires WellFormed(p) && j <= |p.cost|
  {
    |grid| == |p.rows| && forall i :: 0 <= i < |grid| ==> FilledTo(p, grid[i], i, j)
  }

  /** Row `i` once the asset's and the agreement's entry of edge `j` are set. */
  ghost function PlacedRow(m: Model, row: Vec, i: nat, j: nat): Vec
    requires j < |m.edges| && j < |row|
  {
    if i == m.edges[j].asset then row[j := 1.0]
    else if i == Slacks(m) + m.edges[j].requirement then row[j := m.edges[j].coverage]
    else row
  }

  /** Setting an asset's and an agreement's entry completes column `j` outside the limit rows. */
  lemma EdgeEntriesFill(m: Model, row: Vec, i: nat, j: nat, p: Program)
    requires Programmed(m, p) && Sized(m, p) && j < |m.edges| && i < Slacks(m) + |m.requirements|
    requires FilledTo(p, row, i, j) && (i < |m.assets| || Slacks(m) <= i)
    ensures FilledTo(p, PlacedRow(m, row, i, j), i, j + 1)
  {
    assert Unfold(0);
    assert ValidEdge(m, m.edges[j]);
    EntryOf(m, i, j);
    FillStep(p, row, i, j);
  }

  /** Rows `lo..hi` are filled to column `j`. */
  ghost predicate SpanFilled(p: Program, grid: seq<Vec>, lo: nat, hi: nat, j: nat)
    requires WellFormed(p) && j <= |p.cost| && lo <= hi <= |p.rows|
  {
    hi <= |grid| && forall i :: lo <= i < hi ==> FilledTo(p, grid[i], i, j)
  }

  /** Copies column `j` of the limit weights into the rows from `a` on. */
  method FillLimits(weights: seq<Vec>, a: nat, grid: seq<Vec>, j: nat, ghost p: Program) returns (out: seq<Vec>)
    requires WellFormed(p) && j < |p.cost| && a + |weights| <= |p.rows| == |grid|
    requires forall k :: 0 <= k < |weights| ==> weights[k] == p.rows[a + k]
    requires SpanFilled(p, grid, a, a + |weights|, j)
    ensures |out| == |grid| && SpanFilled(p, out, a, a + |weights|, j + 1)
    ensures forall i :: 0 <= i < |grid| && !(a <= i < a + |weights|) ==> out[i] == grid[i]
  {
    out := grid;
    for k := 0 to |weights|
      invariant |out| == |grid| && SpanFilled(p, out, a, a + k, j + 1)
      invariant forall i :: 0 <= i < |grid| && !(a <= i < a + k) ==> out[i] == grid[i]
    {
      assert FilledTo(p, grid[a + k], a + k, j);
      FillStep(p, grid[a + k], a + k, j);
      out := out[a + k := out[a + k][j := weights[k][j]]];
    }
  }

  method PlaceEdge(grid: seq<Vec>, asset: nat, agreement: nat, j: nat, coverage: real) returns (placed: seq<Vec>)
    requires asset < |grid| && agreement < |grid| && asset != agreement
    requires forall i :: 0 <= i < |grid| ==> j < |grid[i]|
    ensures |placed| == |grid|
    ensures forall i :: 0 <= i < |grid| ==>
              placed[i] == if i == asset then grid[i][j := 1.0]
                           else if i == agreement then grid[i][j := coverage] else grid[i]
  {
    placed := grid[asset := grid[asset][j := 1.0]];
    placed := placed[agreement := placed[agreement][j := coverage]];
  }

  /** `p` is the program of the model, folded. */
  ghost predicate Programmed(m: Model, p: Program) {
    forall k :: Unfold(k) ==> ValidModel(m) && p == ProgramOf(m)
  }

  /** The sizes of the model and its program. */
  ghost predicate Sized(m: Model, p: Program) {
    && WellFormed(p) && |p.cost| == |m.edges| && |p.rows| == Slacks(m) + |m.requirements| && |m.limitWeights| == |m.limits|
  }

  lemma ProgramSizes(m: Model, p: Program)
    requires Programmed(m, p)
    ensures Sized(m, p)
  {
    assert Unfold(0);
  }

  lemma LimitRows(m: Model, p: Program)
    requires Programmed(m, p) && Sized(m, p)
    ensures forall k :: 0 <= k < |m.limitWeights| ==> m.limitWeights[k] == p.rows[|m.assets| + k]
  {
    assert Unfold(0);
    forall k | 0 <= k < |m.limitWeights|
      ensures m.limitWeights[k] == p.rows[|m.assets| + k]
    {
      assert p.rows[|m.assets| + k] == ProgramRow(m, |m.assets| + k);
    }
  }

  /** Sets the entries of edge `j`: one for its asset, its weight in every limit, its coverage for its agreement. */
  method FillColumn(m: Model, grid: seq<Vec>, j: nat, ghost p: Program) returns (out: seq<Vec>)
    requires Programmed(m, p) && Sized(m, p) && j < |m.edges| && GridFilled(p, grid, j)
    ensures GridFilled(p, out, j + 1)
  {
    var placed := PlaceEdgeOf(m, grid, j, p);
    LimitRows(m, p);
    out := FillLimits(m.limitWeights, |m.assets|, placed, j, p);
    SpansFill(p, placed, out, |m.assets|, Slacks(m), j + 1);
  }

  /** Sets the asset's and the agreement's entry; the rows of the limits are still to come. */
  method PlaceEdgeOf(m: Model, grid: seq<Vec>, j: nat, ghost p: Program) returns (placed: seq<Vec>)
    requires Programmed(m, p) && Sized(m, p) && j < |m.edges| && GridFilled(p, grid, j)
    ensures |placed| == |grid| && SpanFilled(p, placed, 0, |m.assets|, j + 1)
    ensures SpanFilled(p, placed, |m.assets|, Slacks(m), j) && SpanFilled(p, placed, Slacks(m), |grid|, j + 1)
  {
    var e, slacks := m.edges[j], |m.assets| + |m.limits|;
    EdgeInRange(m, p, j);
    assert forall i :: 0 <= i < |grid| ==> FilledTo(p, grid[i], i, j);
    placed := PlaceEdge(grid, e.asset, slacks + e.requirement, j, e.coverage);
    EdgeEntriesFillAll(m, grid, j, placed, p);
  }

  lemma EdgeInRange(m: Model, p: Program, j: nat)
    requires Programmed(m, p) && j < |m.edges|
    ensures m.edges[j].asset < |m.assets| && m.edges[j].requirement < |m.requirements|
  {
    assert Unfold(0);
    assert ValidEdge(m, m.edges[j]);
  }

  lemma SpansFill(p: Program, placed: seq<Vec>, out: seq<Vec>, lo: nat, hi: nat, j: nat)
    requires WellFormed(p) && j <= |p.cost| && lo <= hi <= |p.rows| == |placed| == |out|
    requires SpanFilled(p, placed, 0, lo, j) && SpanFilled(p, out, lo, hi, j) && SpanFilled(p, placed, hi, |p.rows|, j)
    requires forall i :: 0 <= i < |out| && !(lo <= i < hi) ==> out[i] == placed[i]
    ensures GridFilled(p, out, j)
  {
  }

  lemma EdgeEntriesFillAll(m: Model, grid: seq<Vec>, j: nat, placed: seq<Vec>, p: Program)
    requires Programmed(m, p) && Sized(m, p) && j < |m.edges| && GridFilled(p, grid, j) && |placed| == |grid|
    requires forall i :: 0 <= i < |grid| ==> j < |grid[i]| && placed[i] == PlacedRow(m, grid[i], i, j)
    ensures SpanFilled(p, placed, 0, |m.assets|, j + 1)
    ensures SpanFilled(p, placed, |m.assets|, Slacks(m), j)
    ensures SpanFilled(p, placed, Slacks(m), |grid|, j + 1)
  {
    EdgeInRange(m, p, j);
    forall i | 0 <= i < |grid| && (i < |m.assets| || Slacks(m) <= i)
      ensures FilledTo(p, placed[i], i, j + 1)
    {
      EdgeEntriesFill(m, grid[i], i, j, p);
    }
  }

  class AllocationTableau {
    var rows: seq<Vec>
    var basis: seq<nat>
    var columns: nat
    var pivots: nat

    function View(): Tableau
      reads this
    {
      Tableau(rows, basis, columns)
    }

    /** The starting tableau: one identity column per row, then the edge columns filled in. */
    constructor (m: Model)
      requires ValidModel(m)
      ensures View() == Start(ProgramOf(m)) && pivots == 0
    {
      var n, a, slacks, r := |m.edges|, |m.assets|, |m.assets| + |m.limits|, |m.requirements|;
      var grid: seq<Vec> := [];
      var starting: seq<nat> := [];
      for i := 0 to slacks + r
        invariant |grid| == i && |starting| == i
        invariant forall k :: 0 <= k < i ==> starting[k] == n + k && grid[k] == BlankRow(ProgramOf(m), k)
      {
        var rhs := if i < a then m.available[i] else if i < slacks then m.limitValues[i - a] else m.need[i - slacks];
        grid := grid + [Zeros(n + slacks + r + 1)[n + i := 1.0][n + slacks + r := rhs]];
        starting := starting + [n + i];
      }
      ghost var p := ProgramOf(m);
      ProgramSizes(m, p);
      for j := 0 to n
        invariant GridFilled(p, grid, j)
      {
        grid := FillColumn(m, grid, j, p);
      }
      rows, basis, columns, pivots := grid, starting, n + slacks + r, 0;
      new;
      FilledIsStart(ProgramOf(m), rows, basis);
    }

    /** The sum of basic costs times right-hand sides. */
    method ObjectiveValue(cost: Vec) returns (sum: real)
      requires Shaped(View()) && |cost| == columns
      ensures sum == Objective(View(), cost)
    {
      sum := 0.0;
      for i := 0 to |basis|
        invariant sum == ColumnTo(Basics(View(), cost), rows, columns, i)
      {
        sum := sum + cost[basis[i]] * rows[i][columns];
      }
    }

    /** Basic costs against `count` columns from `offset` on. */
    method Dual(cost: Vec, offset: nat, count: nat) returns (dual: Vec)
      requires Shaped(View()) && |cost| == columns && offset + count <= columns
      ensures |dual| == count
      ensures forall k :: 0 <= k < count ==> dual[k] == ColumnTo(Basics(View(), cost), rows, offset + k, |rows|)
    {
      dual := Zeros(count);
      for j := 0 to count
        invariant |dual| == count
        invariant forall k :: 0 <= k < count ==>
                    dual[k] == if k < j then ColumnTo(Basics(View(), cost), rows, offset + k, |rows|) else 0.0
      {
        var sum := 0.0;
        for i := 0 to |basis|
          invariant sum == ColumnTo(Basics(View(), cost), rows, offset + j, i)
        {
          sum := sum + cost[basis[i]] * rows[i][offset + j];
        }
        dual := dual[j := sum];
      }
    }

    /** The values of the first `n` columns at the basic point. */
    method SolutionValues(n: nat) returns (values: Vec)
      requires Canonical(View()) && n <= columns
      ensures values == Solution(View(), n)
    {
      values := Zeros(n);
      for i := 0 to |basis|
        invariant |values| == n
        invariant forall j :: 0 <= j < n ==> values[j] == -RayTo(View(), columns, i)[j]
      {
        if basis[i] < n {
          values := values[basis[i] := rows[i][columns]];
        }
      }
    }

    method ReducedCost(cost: Vec, j: nat) returns (reduced: real)
      requires Shaped(View()) && |cost| == columns && j < columns
      ensures reduced == Reduced(View(), cost, j)
    {
      reduced := cost[j];
      for i := 0 to |basis|
        invariant reduced == cost[j] - ColumnTo(Basics(View(), cost), rows, j, i)
      {
        reduced := reduced - cost[basis[i]] * rows[i][j];
      }
    }

    method FindEntering(cost: Vec, limit: nat) returns (entering: int)
      requires Shaped(View()) && |cost| == columns && limit <= columns
      ensures entering == if Entering(View(), cost, limit, 0) < limit then Entering(View(), cost, limit, 0) else -1
    {
      for j := 0 to limit
        invariant Entering(View(), cost, limit, 0) == Entering(View(), cost, limit, j)
      {
        var reduced := ReducedCost(cost, j);
        if reduced < 0.0 {
          return j;
        }
      }
      return -1;
    }

    method FindLeaving(entering: nat) returns (leaving: int)
      requires Shaped(View()) && entering < columns
      ensures leaving == Leaving(View(), entering, |rows|)
    {
      leaving := -1;
      var ratio := 0.0;
      for i := 0 to |rows|
        invariant leaving == Leaving(View(), entering, i)
        invariant leaving >= 0 ==> ratio == Ratio(View(), leaving, entering)
      {
        if rows[i][entering] > 0.0 {
          var candidate := rows[i][columns] / rows[i][entering];
          if leaving < 0 || candidate < ratio || (candidate == ratio && basis[i] < basis[leaving]) {
            leaving, ratio := i, candidate;
          }
        }
      }
    }

    /** One pivot in place. On refusal the tableau is abandoned half-way. */
    method Pivot(ctx: Context, fits: Fits, row: nat, column: nat) returns (err: Error)
      requires Shaped(View()) && row < |rows| && column < columns && rows[row][column] != 0.0
      requires pivots <= MAX_PIVOTS
      modifies this, ctx
      ensures Heeded(err, ctx.cancelled, old(ctx.polls), ctx.polls)
      ensures err.LimitExceeded? ==> old(pivots) == 10000 || !TableauFits(fits, Pivoted(old(View()), row, column))
      ensures err.NoError? ==> TableauFits(fits, Pivoted(old(View()), row, column))
      ensures columns == old(columns)
      ensures err.NoError? || err.Cancelled? || err.LimitExceeded?
      ensures old(pivots) == MAX_PIVOTS ==> err.LimitExceeded? && View() == old(View()) && pivots == old(pivots)
      ensures old(pivots) < MAX_PIVOTS ==> pivots == old(pivots) + 1
      ensures err.NoError? ==> old(pivots) < MAX_PIVOTS && View() == Pivoted(old(View()), row, column)
    {
      if pivots >= MAX_PIVOTS {
        return LimitExceeded;
      }
      pivots := pivots + 1;
      ghost var before := View();
      var scaled := DivideRow(rows[row], rows[row][column]);
      rows := rows[row := scaled];
      err, rows := Eliminate(ctx, fits, rows, row, column, before);
      if err.NoError? {
        basis := basis[row := column];
        assert rows == Pivoted(before, row, column).rows;
      }
    }

    /** Bland pivots until no column below `limit` improves, or refusal. */
    method Minimize(ctx: Context, fits: Fits, cost: Vec, limit: nat, ghost goal: Tableau, ghost budget: int,
                    ghost from: nat)
      returns (err: Error)
      requires Underway(View(), pivots, Single(View()), cost, limit, fits, goal, budget)
      requires from <= ctx.polls && Live(ctx.cancelled, from, ctx.polls)
      modifies this, ctx
      ensures columns == old(columns) && pivots <= MAX_PIVOTS
      ensures err.NoError? || err.Cancelled? || err.LimitExceeded?
      ensures Heeded(err, ctx.cancelled, from, ctx.polls)
      ensures err.LimitExceeded? ==> budget < 0
      ensures err.NoError? ==> View() == goal && budget == MAX_PIVOTS - pivots
    {
      ghost var run := Single(View());
      UnderwayPriceable(View(), pivots, run, cost, limit, fits, goal, budget);
      var done := false;
      err := NoError;
      while !done
        invariant err.NoError? && columns == old(columns) && pivots <= MAX_PIVOTS
        invariant Underway(View(), pivots, run, cost, limit, fits, goal, budget)
        invariant done ==> Priceable(View(), cost, limit) && Entering(View(), cost, limit, 0) == limit
        invariant from <= ctx.polls && Live(ctx.cancelled, from, ctx.polls)
        decreases !done, MAX_PIVOTS - pivots
      {
        ghost var polled := ctx.polls;
        err, done, run := Improve(ctx, fits, cost, limit, run, goal, budget);
        HeededAfter(err, ctx.cancelled, from, polled, ctx.polls);
        if !err.NoError? {
          return;
        }
      }
      UnderwayEnds(View(), pivots, run, cost, limit, fits, goal, budget);
    }

    /** One Bland pivot, or the end when no column improves. */
    method Improve(ctx: Context, fits: Fits, cost: Vec, limit: nat, ghost run: Run, ghost goal: Tableau, ghost budget: int)
      returns (err: Error, done: bool, ghost more: Run)
      requires Underway(View(), pivots, run, cost, limit, fits, goal, budget)
      modifies this, ctx
      ensures columns == old(columns) && pivots <= MAX_PIVOTS
      ensures err.NoError? || err.Cancelled? || err.LimitExceeded?
      ensures Heeded(err, ctx.cancelled, old(ctx.polls), ctx.polls)
      ensures err.LimitExceeded? ==> budget < 0
      ensures err.NoError? && done ==>
                && View() == old(View()) && pivots == old(pivots) && more == run
                && Priceable(View(), cost, limit) && Entering(View(), cost, limit, 0) == limit
      ensures err.NoError? && !done ==>
                pivots == old(pivots) + 1 && Underway(View(), pivots, more, cost, limit, fits, goal, budget)
    {
      more, done := run, false;
      UnderwayPriceable(View(), pivots, run, cost, limit, fits, goal, budget);
      var cancelled := ctx.Done();
      if cancelled {
        return Cancelled, done, more;
      }
      var entering := FindEntering(cost, limit);
      if entering < 0 {
        return NoError, true, more;
      }
      ghost var polled := ctx.polls;
      err, more := Advance(ctx, fits, cost, limit, entering, run, goal, budget);
      HeededAfter(err, ctx.cancelled, old(ctx.polls), polled, ctx.polls);
    }

    /** The pivot on the entering column and its leaving row. */
    method Advance(ctx: Context, fits: Fits, cost: Vec, limit: nat, entering: nat, ghost run: Run, ghost goal: Tableau,
                   ghost budget: int)
      returns (err: Error, ghost more: Run)
      requires Underway(View(), pivots, run, cost, limit, fits, goal, budget)
      requires Priceable(View(), cost, limit) && entering == Entering(View(), cost, limit, 0) < limit
      modifies this, ctx
      ensures columns == old(columns) && pivots <= MAX_PIVOTS
      ensures err.NoError? || err.Cancelled? || err.LimitExceeded?
      ensures Heeded(err, ctx.cancelled, old(ctx.polls), ctx.polls)
      ensures err.LimitExceeded? ==> budget < 0
      ensures err.NoError? ==> pivots == old(pivots) + 1 && Underway(View(), pivots, more, cost, limit, fits, goal, budget)
    {
      UnderwayPriceable(View(), pivots, run, cost, limit, fits, goal, budget);
      more := UnderwayStep(View(), pivots, run, cost, limit, fits, goal, budget);
      var leaving := FindLeaving(entering);
      if leaving < 0 {
        assert false; // costs are nonnegative, so no improving direction is unbounded
        return InvalidCertificate, more;
      }
      err := Pivot(ctx, fits, leaving, entering);
    }

    /** Takes artificial columns out of the basis; rows that cannot pivot are redundant and deleted. */
    method RemoveArtificial(ctx: Context, fits: Fits, limit: nat, ghost p: Program, ghost goal: Tableau, ghost budget: int,
                            ghost from: nat)
      returns (err: Error)
      requires Purging(p, View(), 0, pivots, fits, goal, budget) && limit == ArtificialFrom(p)
      requires from <= ctx.polls && Live(ctx.cancelled, from, ctx.polls)
      modifies this, ctx
      ensures columns == old(columns) && pivots <= MAX_PIVOTS
      ensures err.NoError? || err.Cancelled? || err.LimitExceeded?
      ensures Heeded(err, ctx.cancelled, from, ctx.polls)
      ensures err.LimitExceeded? ==> budget < 0
      ensures err.NoError? ==> View() == goal && budget == MAX_PIVOTS - pivots
    {
      var i: nat := 0;
      PurgingShape(p, View(), 0, pivots, fits, goal, budget);
      while i < |rows|
        invariant columns == old(columns) && i <= |rows| && pivots <= MAX_PIVOTS
        invariant Purging(p, View(), i, pivots, fits, goal, budget)
        invariant from <= ctx.polls && Live(ctx.cancelled, from, ctx.polls)
        decreases |rows| - i
      {
        ghost var polled := ctx.polls;
        err, i := RemoveNext(ctx, fits, i, limit, p, goal, budget);
        HeededAfter(err, ctx.cancelled, from, polled, ctx.polls);
        if !err.NoError? {
          return;
        }
      }
      PurgingEnds(p, View(), pivots, fits, goal, budget);
      err := NoError;
    }

    /** Polls, and deals with row `i`. */
    method RemoveNext(ctx: Context, fits: Fits, i: nat, limit: nat, ghost p: Program, ghost goal: Tableau, ghost budget: int)
      returns (err: Error, next: nat)
      requires Purging(p, View(), i, pivots, fits, goal, budget) && limit == ArtificialFrom(p) && i < |rows|
      modifies this, ctx
      ensures columns == old(columns) && pivots <= MAX_PIVOTS
      ensures err.NoError? || err.Cancelled? || err.LimitExceeded?
      ensures Heeded(err, ctx.cancelled, old(ctx.polls), ctx.polls)
      ensures err.LimitExceeded? ==> budget < 0
      ensures err.NoError? ==> next <= |rows| && Purging(p, View(), next, pivots, fits, goal, budget)
      ensures err.NoError? ==> |rows| - next < old(|rows|) - i
    {
      next := i;
      PurgingShape(p, View(), i, pivots, fits, goal, budget);
      var cancelled := ctx.Done();
      if cancelled {
        return Cancelled, next;
      }
      if basis[i] < limit {
        PurgingSkips(p, View(), i, pivots, fits, goal, budget);
        return NoError, i + 1;
      }
      ghost var polled := ctx.polls;
      err, next := RemoveAt(ctx, fits, i, limit, p, goal, budget);
      HeededAfter(err, ctx.cancelled, old(ctx.polls), polled, ctx.polls);
    }

    /** Takes the artificial column of row `i` out of the basis, or deletes the row; returns the next row to look at. */
    method RemoveAt(ctx: Context, fits: Fits, i: nat, limit: nat, ghost p: Program, ghost goal: Tableau, ghost budget: int)
      returns (err: Error, next: nat)
      requires Purging(p, View(), i, pivots, fits, goal, budget)
      requires PurgeShape(p, View(), i) && limit == ArtificialFrom(p) && i < |rows| && basis[i] >= limit
      modifies this, ctx
      ensures columns == old(columns) && pivots <= MAX_PIVOTS
      ensures err.NoError? || err.Cancelled? || err.LimitExceeded?
      ensures Heeded(err, ctx.cancelled, old(ctx.polls), ctx.polls)
      ensures err.LimitExceeded? ==> budget < 0
      ensures err.NoError? ==> next <= |rows| && Purging(p, View(), next, pivots, fits, goal, budget)
      ensures err.NoError? ==> |rows| - next < old(|rows|) - i
    {
      PurgingShape(p, View(), i, pivots, fits, goal, budget);
      if rows[i][columns] != 0.0 {
        assert false; // phase one ended at zero, so every artificial column is at zero
        return InvalidCertificate, i;
      }
      var entering := FindNonzero(i, limit);
      if entering >= 0 {
        PurgingPivots(p, View(), i, pivots, fits, goal, budget);
        err := Pivot(ctx, fits, i, entering);
        next := i + 1;
      } else {
        PurgingDeletes(p, View(), i, pivots, fits, goal, budget);
        rows, basis := rows[..i] + rows[i + 1..], basis[..i] + basis[i + 1..];
        err, next := NoError, i;
      }
    }

    method FindNonzero(i: nat, limit: nat) returns (entering: int)
      requires Shaped(View()) && i < |rows| && limit <= columns
      ensures entering == if FirstNonzero(View(), i, limit, 0) < limit then FirstNonzero(View(), i, limit, 0) else -1
    {
      for j := 0 to limit
        invariant FirstNonzero(View(), i, limit, 0) == FirstNonzero(View(), i, limit, j)
      {
        if rows[i][j] != 0.0 {
          return j;
        }
      }
      return -1;
    }
  }
}
