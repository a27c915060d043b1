/**
 Ordinary least squares by the normal equations, over the reals. The design matrix is
 kept by columns: the intercept, then the factor series in name order.
 */
module Calibration {
  import opened Vectors
  import opened Inputs
  import opened Gaussian
  import opened Models

  // ----- least squares

  /** Columns of equal length, the first of them the intercept. */
  ghost predicate Design(columns: seq<Vec>, n: nat) {
    && Matrix(columns, n) && |columns| > 0
    && (forall t :: 0 <= t < n ==> columns[0][t] == 1.0)
  }

  /** The values the coefficients fit. */
  ghost function Fitted(columns: seq<Vec>, beta: Vec, n: nat): (v: Vec)
    requires Matrix(columns, n) && |beta| == |columns|
    ensures |v| == n
  {
    Combine(beta, columns, n)
  }

  ghost function Residual(columns: seq<Vec>, beta: Vec, y: Vec): (v: Vec)
    requires Matrix(columns, |y|) && |beta| == |columns|
    ensures |v| == |y|
  {
    Axpy(y, -1.0, Fitted(columns, beta, |y|))
  }

  /** The sum of squared residuals. */
  ghost function Loss(columns: seq<Vec>, beta: Vec, y: Vec): real
    requires Matrix(columns, |y|) && |beta| == |columns|
  {
    Dot(Residual(columns, beta, y), Residual(columns, beta, y))
  }

  ghost predicate LeastSquares(columns: seq<Vec>, beta: Vec, y: Vec)
    requires Matrix(columns, |y|)
  {
    && |beta| == |columns|
    && (forall gamma :: |gamma| == |columns| ==> Loss(columns, beta, y) <= Loss(columns, gamma, y))
  }

  /** The matrix of the normal equations. */
  ghost function Gram(columns: seq<Vec>, n: nat): (g: seq<Vec>)
    requires Matrix(columns, n)
    ensures |g| == |columns| && Matrix(g, |columns|)
    ensures forall i, j :: 0 <= i < |g| && 0 <= j < |g| ==> g[i][j] == Dot(columns[i], columns[j])
  {
    seq(|columns|, i requires 0 <= i < |columns| =>
      seq(|columns|, j requires 0 <= j < |columns| => Dot(columns[i], columns[j])))
  }

  lemma {:induction false} SquareNonnegative(v: Vec, k: nat)
    requires k <= |v|
    ensures DotTo(v, v, k) >= 0.0
  {
    if k > 0 {
      SquareNonnegative(v, k - 1);
      assert v[k - 1] * v[k - 1] >= 0.0;
    }
  }

  /** How far the coefficients are from the normal equations is the residual against the column. */
  lemma ResidualAgainst(columns: seq<Vec>, beta: Vec, y: Vec, i: nat)
    requires Matrix(columns, |y|) && |beta| == |columns| && i < |columns|
    ensures Dot(columns[i], Residual(columns, beta, y)) == Image(columns, y)[i] - Dot(Gram(columns, |y|)[i], beta)
  {
    var n := |y|;
    var fitted := Fitted(columns, beta, n);
    CombineDot(beta, columns, columns[i]);
    DotSymmetricTo(columns[i], fitted, n);
    var row := Gram(columns, n)[i];
    var image := Image(columns, columns[i]);
    forall j | 0 <= j < |columns|
      ensures row[j] == image[j]
    {
      DotSymmetricTo(columns[i], columns[j], n);
    }
    assert row == image;
    DotSymmetricTo(beta, image, |beta|);
    DotAxpyRight(columns[i], y, -1.0, fitted);
  }

  /** A solution of the normal equations leaves a residual orthogonal to every column. */
  lemma NormalResidual(columns: seq<Vec>, beta: Vec, y: Vec, i: nat)
    requires Matrix(columns, |y|) && |beta| == |columns| && i < |columns|
    requires Solves(Gram(columns, |y|), Image(columns, y), beta)
    ensures Dot(columns[i], Residual(columns, beta, y)) == 0.0
  {
    ResidualAgainst(columns, beta, y, i);
    assert Dot(Gram(columns, |y|)[i], beta) == Image(columns, y)[i];
  }

  /** Changing the coefficients moves the residual by a combination of columns. */
  lemma ResidualMoves(columns: seq<Vec>, beta: Vec, gamma: Vec, y: Vec)
    requires Matrix(columns, |y|) && |beta| == |columns| == |gamma|
    ensures Residual(columns, gamma, y)
            == Axpy(Residual(columns, beta, y), 1.0, Combine(Axpy(beta, -1.0, gamma), columns, |y|))
  {
    var n := |y|;
    var moved := Combine(Axpy(beta, -1.0, gamma), columns, n);
    forall t | 0 <= t < n
      ensures Residual(columns, gamma, y)[t] == Residual(columns, beta, y)[t] + moved[t]
    {
      CombineAt(beta, columns, n, |columns|, t);
      CombineAt(gamma, columns, n, |columns|, t);
      CombineAt(Axpy(beta, -1.0, gamma), columns, n, |columns|, t);
      ColumnMoves(beta, gamma, columns, t, |columns|);
    }
  }

  lemma {:induction false} ColumnMoves(beta: Vec, gamma: Vec, columns: seq<Vec>, t: nat, k: nat)
    requires |beta| == |gamma| && k <= |beta| && k <= |columns| && forall i :: 0 <= i < k ==> t < |columns[i]|
    ensures ColumnTo(Axpy(beta, -1.0, gamma), columns, t, k) == ColumnTo(beta, columns, t, k) - ColumnTo(gamma, columns, t, k)
  {
    if k > 0 {
      ColumnMoves(beta, gamma, columns, t, k - 1);
    }
  }

  lemma NormalIsLeast(columns: seq<Vec>, beta: Vec, gamma: Vec, y: Vec)
    requires Matrix(columns, |y|) && |beta| == |columns| == |gamma|
    requires Solves(Gram(columns, |y|), Image(columns, y), beta)
    ensures Loss(columns, beta, y) <= Loss(columns, gamma, y)
  {
    var r := Residual(columns, beta, y);
    var delta := Axpy(beta, -1.0, gamma);
    var d := Combine(delta, columns, |y|);
    ResidualMoves(columns, beta, gamma, y);
    CombineDot(delta, columns, r);
    forall i | 0 <= i < |columns|
      ensures Image(columns, r)[i] == 0.0
    {
      NormalResidual(columns, beta, y, i);
    }
    DotZeroTo(delta, Image(columns, r), |delta|);
    SquareExpanded(r, d);
    SquareNonnegative(d, |d|);
  }

  /** The coefficients with `t` added to one of them. */
  ghost function Nudged(beta: Vec, i: nat, t: real): (gamma: Vec)
    requires i < |beta|
    ensures |gamma| == |beta|
  {
    beta[i := beta[i] + t]
  }

  function Slide(p: real, t: real): real {
    p * -t
  }

  lemma NudgedDot(columns: seq<Vec>, beta: Vec, i: nat, t: real, n: nat, x: Vec)
    requires Matrix(columns, n) && |beta| == |columns| && i < |columns| && |x| == n
    ensures Dot(Combine(Axpy(beta, -1.0, Nudged(beta, i, t)), columns, n), x) == Slide(Dot(columns[i], x), t)
  {
    var delta := Axpy(beta, -1.0, Nudged(beta, i, t));
    assert delta == Zeros(|beta|)[i := -t];
    CombineDot(delta, columns, x);
    DotSymmetricTo(delta, Image(columns, x), |delta|);
    DotSingle(Image(columns, x), i, -t);
  }

  /** The loss along one coefficient is a parabola. */
  lemma NudgedLoss(columns: seq<Vec>, beta: Vec, y: Vec, i: nat, t: real)
    requires Matrix(columns, |y|) && |beta| == |columns| && i < |columns|
    ensures Loss(columns, Nudged(beta, i, t), y) ==
            Parabola(Loss(columns, beta, y), Dot(columns[i], Residual(columns, beta, y)), Dot(columns[i], columns[i]), t)
  {
    var r, c := Residual(columns, beta, y), columns[i];
    var d := Combine(Axpy(beta, -1.0, Nudged(beta, i, t)), columns, |y|);
    assert Loss(columns, Nudged(beta, i, t), y) == Dot(r, r) + 2.0 * Dot(d, r) + Dot(d, d) by {
      ResidualMoves(columns, beta, Nudged(beta, i, t), y);
      SquareExpanded(r, d);
    }
    NudgedDot(columns, beta, i, t, |y|, r);
    NudgedDot(columns, beta, i, t, |y|, d);
    NudgedDot(columns, beta, i, t, |y|, c);
    DotSymmetricTo(d, c, |y|);
    ParabolaIs(Dot(r, r), Dot(c, r), Dot(c, c), t, Dot(d, r), Dot(d, d), Dot(c, d));
  }

  function Parabola(loss: real, p: real, q: real, t: real): real {
    loss - 2.0 * (p * t) + q * t * t
  }

  lemma ParabolaIs(loss: real, p: real, q: real, t: real, dr: real, dd: real, cd: real)
    requires dr == Slide(p, t) && dd == Slide(cd, t) && cd == Slide(q, t)
    ensures loss + 2.0 * dr + dd == Parabola(loss, p, q, t)
  {
    assert (q * -t) * -t == q * t * t;
  }

  lemma SquareExpanded(u: Vec, d: Vec)
    requires |u| == |d|
    ensures Dot(Axpy(u, 1.0, d), Axpy(u, 1.0, d)) == Dot(u, u) + 2.0 * Dot(d, u) + Dot(d, d)
  {
    var s := Axpy(u, 1.0, d);
    DotAxpy(u, 1.0, d, s);
    DotAxpyRight(u, u, 1.0, d);
    DotAxpyRight(d, u, 1.0, d);
    DotSymmetricTo(d, u, |u|);
  }

  /** A parabola that is lowest at zero has no slope there. */
  lemma LowestAtZero(loss: real, p: real, q: real)
    requires q >= 0.0 && forall t :: loss <= Parabola(loss, p, q, t)
    ensures p == 0.0
  {
    if q > 0.0 {
      assert loss <= Parabola(loss, p, q, p / q);
      SteepParabola(loss, p, q);
    } else {
      assert loss <= Parabola(loss, p, 0.0, p);
      FlatParabola(loss, p);
    }
  }

  lemma SteepParabola(loss: real, p: real, q: real)
    requires q > 0.0 && loss <= Parabola(loss, p, q, p / q)
    ensures p == 0.0
  {
    var t := p / q;
    assert q * t == p;
    assert q * t * t == p * t;
    assert p * t <= 0.0;
    assert p * t == q * (t * t);
    var square := t * t;
    SquarePositive(t, square);
    ProductPositive(q, square, q * square);
  }

  lemma FlatParabola(loss: real, p: real)
    requires loss <= Parabola(loss, p, 0.0, p)
    ensures p == 0.0
  {
    var square := p * p;
    assert 0.0 * p * p == 0.0;
    assert square <= 0.0;
    SquarePositive(p, square);
  }

  lemma SquarePositive(t: real, square: real)
    requires square == t * t
    ensures t == 0.0 || square > 0.0
  {
    if t > 0.0 {
      ProductPositive(t, t, square);
    } else if t < 0.0 {
      var u := -t;
      ProductPositive(u, u, square);
    }
  }

  lemma ProductPositive(a: real, b: real, product: real)
    requires product == a * b
    ensures a > 0.0 && b > 0.0 ==> product > 0.0
  {
  }

  lemma LeastIsNormal(columns: seq<Vec>, beta: Vec, y: Vec)
    requires Matrix(columns, |y|) && LeastSquares(columns, beta, y)
    ensures Solves(Gram(columns, |y|), Image(columns, y), beta)
  {
    forall i | 0 <= i < |columns|
      ensures Dot(Gram(columns, |y|)[i], beta) == Image(columns, y)[i]
    {
      var loss, p, q := Loss(columns, beta, y), Dot(columns[i], Residual(columns, beta, y)), Dot(columns[i], columns[i]);
      forall t: real ensures loss <= Parabola(loss, p, q, t) {
        NudgedLoss(columns, beta, y, i, t);
      }
      SquareNonnegative(columns[i], |y|);
      LowestAtZero(loss, p, q);
      ResidualAgainst(columns, beta, y, i);
    }
  }

  /** The normal equations hold exactly where the squared residual is least among all coefficients. */
  lemma NormalEquationsFit(columns: seq<Vec>, beta: Vec, y: Vec)
    requires Matrix(columns, |y|)
    ensures Solves(Gram(columns, |y|), Image(columns, y), beta) <==> LeastSquares(columns, beta, y)
  {
    if Solves(Gram(columns, |y|), Image(columns, y), beta) {
      forall gamma: Vec | |gamma| == |columns|
        ensures Loss(columns, beta, y) <= Loss(columns, gamma, y)
      {
        NormalIsLeast(columns, beta, gamma, y);
      }
    }
    if LeastSquares(columns, beta, y) {
      LeastIsNormal(columns, beta, y);
    }
  }

  /** Columns with a nontrivial dependence leave the normal equations without a unique solution. */
  lemma DependentIsNotUnique(columns: seq<Vec>, y: Vec, beta: Vec, gamma: Vec)
    requires Matrix(columns, |y|) && |gamma| == |columns|
    requires Solves(Gram(columns, |y|), Image(columns, y), beta)
    requires Combine(gamma, columns, |y|) == Zeros(|y|)
    ensures Solves(Gram(columns, |y|), Image(columns, y), Axpy(beta, 1.0, gamma))
  {
    var n := |y|;
    var g := Gram(columns, n);
    forall i | 0 <= i < |columns|
      ensures Dot(g[i], Axpy(beta, 1.0, gamma)) == Image(columns, y)[i]
    {
      CombineDot(gamma, columns, columns[i]);
      DotZeroTo(Zeros(n), columns[i], n);
      var image := Image(columns, columns[i]);
      forall j | 0 <= j < |columns|
        ensures g[i][j] == image[j]
      {
        DotSymmetricTo(columns[i], columns[j], n);
      }
      assert g[i] == image;
      DotSymmetricTo(gamma, image, |gamma|);
      DotAxpyRight(g[i], beta, 1.0, gamma);
    }
  }

  // ----- the mean model

  /** The constant model: an intercept and nothing else. */
  ghost function MeanModel(columns: seq<Vec>, mean: real): (gamma: Vec)
    requires |columns| > 0
    ensures |gamma| == |columns|
  {
    Zeros(|columns|)[0 := mean]
  }

  lemma {:induction false} MeanModelColumn(columns: seq<Vec>, mean: real, n: nat, t: nat, k: nat)
    requires Design(columns, n) && t < n && k <= |columns|
    ensures ColumnTo(MeanModel(columns, mean), columns, t, k) == if k > 0 then mean else 0.0
  {
    if k > 0 {
      MeanModelColumn(columns, mean, n, t, k - 1);
    }
  }

  lemma MeanModelResidual(columns: seq<Vec>, mean: real, y: Vec, t: nat)
    requires Design(columns, |y|) && t < |y|
    ensures Residual(columns, MeanModel(columns, mean), y)[t] == y[t] - mean
  {
    CombineAt(MeanModel(columns, mean), columns, |y|, |columns|, t);
    MeanModelColumn(columns, mean, |y|, t, |columns|);
  }

  // ----- accumulating the normal equations

  /** The design: a column of ones, then the factor series in name order. */
  ghost function DesignOf(factors: map<string, Vec>, names: seq<string>, n: nat): (columns: seq<Vec>)
    requires forall f :: f in names ==> f in factors
    ensures |columns| == |names| + 1
    ensures columns[0] == Ones(n)
    ensures forall j :: 0 <= j < |names| ==> columns[j + 1] == factors[names[j]]
  {
    [Ones(n)] + seq(|names|, j requires 0 <= j < |names| => factors[names[j]])
  }

  ghost predicate RowOf(columns: seq<Vec>, n: nat, t: nat, row: Vec)
    requires Matrix(columns, n) && t < n
  {
    |row| == |columns| && forall i :: 0 <= i < |row| ==> row[i] == columns[i][t]
  }

  method BuildRow(factors: map<string, Vec>, names: seq<string>, t: nat, n: nat) returns (row: Vec)
    requires forall f :: f in names ==> f in factors && |factors[f]| == n
    requires t < n
    ensures Matrix(DesignOf(factors, names, n), n) && RowOf(DesignOf(factors, names, n), n, t, row)
  {
    row := [1.0];
    for j := 0 to |names|
      invariant |row| == j + 1 && row[0] == 1.0
      invariant forall i :: 0 <= i < j ==> row[i + 1] == factors[names[i]][t]
    {
      assert names[j] in names;
      row := row + [factors[names[j]][t]];
    }
    ghost var columns := DesignOf(factors, names, n);
    forall i | 0 <= i < |columns|
      ensures |columns[i]| == n && row[i] == columns[i][t]
    {
      if i > 0 {
        assert names[i - 1] in names && columns[i - 1 + 1] == factors[names[i - 1]];
      }
    }
  }

  /** Partial sums of the normal equations over the first `t` observations. */
  ghost predicate Summed(columns: seq<Vec>, y: Vec, t: nat, xtx: seq<Vec>, xty: Vec)
    requires Matrix(columns, |y|) && t <= |y|
  {
    && |xtx| == |columns| && Matrix(xtx, |columns|) && |xty| == |columns|
    && (forall i, j :: 0 <= i < |xtx| && 0 <= j < |xtx| ==> xtx[i][j] == DotTo(columns[i], columns[j], t))
    && (forall i :: 0 <= i < |xty| ==> xty[i] == DotTo(columns[i], y, t))
  }

  method AddProducts(sums: Vec, row: Vec, i: nat) returns (out: Vec)
    requires |sums| == |row| && i < |row|
    ensures |out| == |sums| && forall j :: 0 <= j < |out| ==> out[j] == sums[j] + row[i] * row[j]
  {
    out := sums;
    for j := 0 to |sums|
      invariant |out| == |sums|
      invariant forall k :: 0 <= k < |sums| ==> out[k] == if k < j then sums[k] + row[i] * row[k] else sums[k]
    {
      out := out[j := out[j] + row[i] * row[j]];
    }
  }

  method AddObservation(xtx: seq<Vec>, xty: Vec, row: Vec, value: real) returns (xtx': seq<Vec>, xty': Vec)
    requires |xtx| == |row| == |xty| && Matrix(xtx, |row|)
    ensures Adds(xtx, xty, row, value, xtx', xty')
  {
    xtx', xty' := xtx, xty;
    for i := 0 to |row|
      invariant |xtx'| == |row| == |xty'| && Matrix(xtx', |row|)
      invariant forall k, j :: 0 <= k < i && 0 <= j < |row| ==> xtx'[k][j] == xtx[k][j] + row[k] * row[j]
      invariant forall k :: i <= k < |row| ==> xtx'[k] == xtx[k] && xty'[k] == xty[k]
      invariant forall k :: 0 <= k < i ==> xty'[k] == xty[k] + row[k] * value
    {
      var sums := AddProducts(xtx'[i], row, i);
      xtx', xty' := xtx'[i := sums], xty'[i := xty'[i] + row[i] * value];
    }
  }

  ghost predicate Adds(xtx: seq<Vec>, xty: Vec, row: Vec, value: real, xtx': seq<Vec>, xty': Vec) {
    && |xtx| == |row| == |xty| && Matrix(xtx, |row|) && |xtx'| == |row| == |xty'| && Matrix(xtx', |row|)
    && (forall i, j :: 0 <= i < |row| && 0 <= j < |row| ==> xtx'[i][j] == xtx[i][j] + row[i] * row[j])
    && (forall i :: 0 <= i < |row| ==> xty'[i] == xty[i] + row[i] * value)
  }

  lemma SummedStep(columns: seq<Vec>, y: Vec, t: nat, xtx: seq<Vec>, xty: Vec, row: Vec, xtx': seq<Vec>, xty': Vec)
    requires Matrix(columns, |y|) && t < |y| && Summed(columns, y, t, xtx, xty) && RowOf(columns, |y|, t, row)
    requires Adds(xtx, xty, row, y[t], xtx', xty')
    ensures Summed(columns, y, t + 1, xtx', xty')
  {
    forall i, j | 0 <= i < |xtx'| && 0 <= j < |xtx'|
      ensures xtx'[i][j] == DotTo(columns[i], columns[j], t + 1)
    {
      assert xtx'[i][j] == xtx[i][j] + row[i] * row[j];
    }
    forall i | 0 <= i < |xty'|
      ensures xty'[i] == DotTo(columns[i], y, t + 1)
    {
      assert xty'[i] == xty[i] + row[i] * y[t];
    }
  }

  lemma SummedNone(columns: seq<Vec>, y: Vec, k: nat)
    requires Matrix(columns, |y|) && k == |columns|
    ensures Summed(columns, y, 0, seq(k, _ => Zeros(k)), Zeros(k))
  {
  }

  lemma SummedAll(columns: seq<Vec>, y: Vec, xtx: seq<Vec>, xty: Vec)
    requires Matrix(columns, |y|) && Summed(columns, y, |y|, xtx, xty)
    ensures xtx == Gram(columns, |y|) && xty == Image(columns, y)
  {
    var g := Gram(columns, |y|);
    forall i | 0 <= i < |xtx|
      ensures xtx[i] == g[i]
    {
      assert forall j :: 0 <= j < |xtx| ==> xtx[i][j] == g[i][j];
    }
  }

  method NormalEquations(strategy: Vec, factors: map<string, Vec>, names: seq<string>) returns (xtx: seq<Vec>, xty: Vec)
    requires forall f :: f in names ==> f in factors && |factors[f]| == |strategy|
    ensures Matrix(DesignOf(factors, names, |strategy|), |strategy|)
    ensures xtx == Gram(DesignOf(factors, names, |strategy|), |strategy|)
    ensures xty == Image(DesignOf(factors, names, |strategy|), strategy)
  {
    ghost var columns := DesignOf(factors, names, |strategy|);
    DesignIsMatrix(factors, names, |strategy|);
    var k := |names| + 1;
    xtx, xty := seq(k, _ => Zeros(k)), Zeros(k);
    SummedNone(columns, strategy, k);
    for t := 0 to |strategy|
      invariant Summed(columns, strategy, t, xtx, xty)
    {
      var row := BuildRow(factors, names, t, |strategy|);
      ghost var before, beforeY := xtx, xty;
      xtx, xty := AddObservation(xtx, xty, row, strategy[t]);
      SummedStep(columns, strategy, t, before, beforeY, row, xtx, xty);
    }
    SummedAll(columns, strategy, xtx, xty);
  }

  lemma DesignIsMatrix(factors: map<string, Vec>, names: seq<string>, n: nat)
    requires forall f :: f in names ==> f in factors && |factors[f]| == n
    ensures Design(DesignOf(factors, names, n), n)
  {
    var columns := DesignOf(factors, names, n);
    forall i | 0 <= i < |columns|
      ensures |columns[i]| == n
    {
      if i > 0 {
        assert names[i - 1] in names && columns[i - 1 + 1] == factors[names[i - 1]];
      }
    }
  }

  // ----- the calibrator

  function Ones(n: nat): (v: Vec)
    ensures |v| == n && forall t :: 0 <= t < n ==> v[t] == 1.0
  {
    seq(n, _ => 1.0)
  }

  ghost predicate IsMean(y: Vec, mean: real) {
    mean * |y| as real == Dot(Ones(|y|), y)
  }

  method Mean(y: Vec) returns (mean: real)
    requires |y| > 0
    ensures IsMean(y, mean)
  {
    var sum := 0.0;
    for t := 0 to |y|
      invariant sum == DotTo(Ones(|y|), y, t)
    {
      sum := sum + y[t];
    }
    mean := sum / |y| as real;
  }

  /** The fitted value of observation `t`. */
  method FitAt(beta: Vec, factors: map<string, Vec>, names: seq<string>, t: nat, n: nat) returns (fitted: real)
    requires forall f :: f in names ==> f in factors && |factors[f]| == n
    requires t < n && |beta| == |names| + 1 && Matrix(DesignOf(factors, names, n), n)
    ensures fitted == Fitted(DesignOf(factors, names, n), beta, n)[t]
  {
    ghost var columns := DesignOf(factors, names, n);
    fitted := beta[0];
    for j := 0 to |names|
      invariant fitted == ColumnTo(beta, columns, t, j + 1)
    {
      assert names[j] in names && columns[j + 1] == factors[names[j]];
      fitted := fitted + beta[j + 1] * factors[names[j]][t];
    }
    CombineAt(beta, columns, n, |columns|, t);
  }

  /** Adds one squared error. */
  method AddSquare(sum: real, error: real, ghost v: Vec, t: nat) returns (more: real)
    requires t < |v| && v[t] == error && sum == DotTo(v, v, t)
    ensures more == DotTo(v, v, t + 1)
  {
    more := sum + error * error;
  }

  /** Sums of squares around the fit and around the mean; `r` and `d` are the two residual vectors. */
  method SumsOfSquares(strategy: Vec, factors: map<string, Vec>, names: seq<string>, beta: Vec, mean: real,
                       ghost r: Vec, ghost d: Vec)
    returns (ssr: real, sst: real)
    requires forall f :: f in names ==> f in factors && |factors[f]| == |strategy|
    requires |beta| == |names| + 1 && Matrix(DesignOf(factors, names, |strategy|), |strategy|)
    requires |r| == |strategy| == |d|
    requires forall t :: 0 <= t < |r| ==> r[t] == strategy[t] - Fitted(DesignOf(factors, names, |strategy|), beta, |r|)[t]
    requires forall t :: 0 <= t < |d| ==> d[t] == strategy[t] - mean
    ensures ssr == Dot(r, r) && sst == Dot(d, d)
  {
    ssr, sst := 0.0, 0.0;
    for t := 0 to |strategy|
      invariant ssr == DotTo(r, r, t) && sst == DotTo(d, d, t)
    {
      var fitted := FitAt(beta, factors, names, t, |strategy|);
      ssr := AddSquare(ssr, strategy[t] - fitted, r, t);
      sst := AddSquare(sst, strategy[t] - mean, d, t);
    }
  }

  lemma RatioInUnit(part: real, whole: real)
    requires 0.0 <= part <= whole && whole > 0.0
    ensures 0.0 <= 1.0 - part / whole <= 1.0
  {
    var q := part / whole;
    assert q * whole == part;
    if q > 1.0 {
      MulAbove(q, whole);
      assert false;
    }
  }

  lemma MulAbove(q: real, w: real)
    requires q > 1.0 && w > 0.0
    ensures q * w > w
  {
    assert (q - 1.0) * w > 0.0;
  }

  /** Names in order, each key of the map once. */
  method SortedNames(factors: map<string, Vec>) returns (names: seq<string>)
    ensures Sorted(names, (f: string) => f) && multiset(names) == multiset(factors.Keys)
  {
    names := [];
    var pending := factors.Keys;
    while pending != {}
      invariant pending <= factors.Keys && multiset(names) == multiset(factors.Keys - pending)
      decreases |pending|
    {
      var f :| f in pending;
      assert factors.Keys - (pending - {f}) == (factors.Keys - pending) + {f};
      pending := pending - {f};
      names := names + [f];
    }
    names := SortById(names, (f: string) => f);
  }

  /** The error conditions of the calibrator. */
  ghost predicate Unusable(strategy: Vec, factors: map<string, Vec>) {
    || |factors| == 0 || |strategy| <= |factors| + 1
    || (exists f :: f in factors && |factors[f]| != |strategy|)
  }

  /** No nontrivial combination of the columns vanishes. */
  ghost predicate Independent(columns: seq<Vec>, n: nat)
    requires Matrix(columns, n)
  {
    forall gamma :: |gamma| == |columns| && Combine(gamma, columns, n) == Zeros(n) ==> gamma == Zeros(|columns|)
  }

  /** How much of the variation around the mean the fit explains. */
  ghost predicate Goodness(columns: seq<Vec>, beta: Vec, y: Vec, mean: real, r2: real)
    requires Matrix(columns, |y|) && |beta| == |columns| > 0
  {
    var sst := Loss(columns, MeanModel(columns, mean), y);
    r2 == if sst > 0.0 then 1.0 - Loss(columns, beta, y) / sst else 0.0
  }

  ghost predicate Covers(names: seq<string>, factors: map<string, Vec>) {
    multiset(names) == multiset(factors.Keys) && forall f :: f in names ==> f in factors
  }

  /** The loadings are a least-squares fit with intercept on independent columns, and R² lies in [0, 1]. */
  ghost predicate Calibrated(strategy: Vec, factors: map<string, Vec>, names: seq<string>, beta: Vec,
                             betas: map<string, real>, mean: real, r2: real)
  {
    && Sorted(names, (f: string) => f) && Covers(names, factors)
    && var columns := DesignOf(factors, names, |strategy|);
       && Design(columns, |strategy|) && LeastSquares(columns, beta, strategy) && Independent(columns, |strategy|)
       && betas.Keys == factors.Keys && (forall j :: 0 <= j < |names| ==> names[j] in betas && betas[names[j]] == beta[j + 1])
       && IsMean(strategy, mean) && Goodness(columns, beta, strategy, mean, r2) && 0.0 <= r2 <= 1.0
  }

  lemma UniqueIsIndependent(columns: seq<Vec>, y: Vec, beta: Vec)
    requires Matrix(columns, |y|) && Solves(Gram(columns, |y|), Image(columns, y), beta)
    requires forall other :: Solves(Gram(columns, |y|), Image(columns, y), other) ==> other == beta
    ensures Independent(columns, |y|)
  {
    forall gamma: Vec | |gamma| == |columns| && Combine(gamma, columns, |y|) == Zeros(|y|)
      ensures gamma == Zeros(|columns|)
    {
      DependentIsNotUnique(columns, y, beta, gamma);
      assert Axpy(beta, 1.0, gamma) == beta;
      forall i | 0 <= i < |gamma|
        ensures gamma[i] == 0.0
      {
        assert Axpy(beta, 1.0, gamma)[i] == beta[i];
      }
    }
  }

  method LabelBetas(names: seq<string>, beta: Vec) returns (betas: map<string, real>)
    requires |beta| == |names| + 1 && forall i, j :: 0 <= i < j < |names| ==> names[i] != names[j]
    ensures betas.Keys == (set f | f in names)
    ensures forall j :: 0 <= j < |names| ==> names[j] in betas && betas[names[j]] == beta[j + 1]
  {
    betas := map[];
    for j := 0 to |names|
      invariant betas.Keys == (set f | f in names[..j])
      invariant forall i :: 0 <= i < j ==> names[i] in betas && betas[names[i]] == beta[i + 1]
    {
      assert names[..j + 1] == names[..j] + [names[j]];
      betas := betas[names[j] := beta[j + 1]];
    }
    assert names[..|names|] == names;
  }

  lemma {:induction false} KeysOnce(names: seq<string>, keys: set<string>)
    requires multiset(names) == multiset(keys)
    ensures (set f | f in names) == keys && |names| == |keys|
    ensures forall i, j :: 0 <= i < j < |names| ==> names[i] != names[j]
  {
    assert |multiset(names)| == |names| && |multiset(keys)| == |keys|;
    forall f
      ensures f in names <==> f in keys
    {
      assert f in names <==> f in multiset(names);
      assert f in keys <==> f in multiset(keys);
    }
    forall i, j | 0 <= i < j < |names|
      ensures names[i] != names[j]
    {
      if names[i] == names[j] {
        CountedTwice(names, i, j);
        assert false;
      }
    }
  }

  /** Elimination of the normal equations finds a pivot in every column. */
  ghost predicate Solvable(strategy: Vec, factors: map<string, Vec>, names: seq<string>) {
    && (forall f :: f in names ==> f in factors && |factors[f]| == |strategy|)
    && var columns := DesignOf(factors, names, |strategy|);
       Matrix(columns, |strategy|) && Regular(Gram(columns, |strategy|), Image(columns, strategy))
  }

  /** The least-squares coefficients, when elimination finds them. */
  method SolveNormal(strategy: Vec, factors: map<string, Vec>, names: seq<string>) returns (ok: bool, beta: Vec)
    requires forall f :: f in names ==> f in factors && |factors[f]| == |strategy|
    ensures Matrix(DesignOf(factors, names, |strategy|), |strategy|)
    ensures ok <==> Solvable(strategy, factors, names)
    ensures ok ==> LeastSquares(DesignOf(factors, names, |strategy|), beta, strategy)
                   && Independent(DesignOf(factors, names, |strategy|), |strategy|)
  {
    ghost var columns := DesignOf(factors, names, |strategy|);
    var xtx, xty := NormalEquations(strategy, factors, names);
    beta, ok := SolveGaussian(xtx, xty);
    if ok {
      NormalEquationsFit(columns, beta, strategy);
      UniqueIsIndependent(columns, strategy, beta);
    }
  }

  lemma MeanResiduals(columns: seq<Vec>, mean: real, y: Vec, d: Vec)
    requires Design(columns, |y|) && d == Residual(columns, MeanModel(columns, mean), y)
    ensures forall t :: 0 <= t < |d| ==> d[t] == y[t] - mean
  {
    forall t | 0 <= t < |y|
      ensures d[t] == y[t] - mean
    {
      MeanModelResidual(columns, mean, y, t);
    }
  }

  /** R² against the mean model. */
  method RSquared(strategy: Vec, factors: map<string, Vec>, names: seq<string>, beta: Vec) returns (r2: real, ghost mean: real)
    requires |strategy| > 0 && forall f :: f in names ==> f in factors && |factors[f]| == |strategy|
    requires Design(DesignOf(factors, names, |strategy|), |strategy|)
    requires LeastSquares(DesignOf(factors, names, |strategy|), beta, strategy)
    ensures IsMean(strategy, mean) && Goodness(DesignOf(factors, names, |strategy|), beta, strategy, mean, r2)
    ensures 0.0 <= r2 <= 1.0
  {
    ghost var columns := DesignOf(factors, names, |strategy|);
    var average := Mean(strategy);
    mean := average;
    ghost var r := Residual(columns, beta, strategy);
    ghost var d := Residual(columns, MeanModel(columns, average), strategy);
    MeanResiduals(columns, average, strategy, d);
    var ssr, sst := SumsOfSquares(strategy, factors, names, beta, average, r, d);
    SquareNonnegative(r, |strategy|);
    r2 := 0.0;
    if sst > 0.0 {
      RatioInUnit(ssr, sst);
      r2 := 1.0 - ssr / sst;
    }
  }

  /** The fit, its loadings and R² once the columns are known to line up. */
  method FitProxy(strategy: Vec, factors: map<string, Vec>, names: seq<string>)
    returns (ok: bool, betas: map<string, real>, r2: real, ghost beta: Vec, ghost mean: real)
    requires Sorted(names, (f: string) => f) && Covers(names, factors) && |strategy| > 0
    requires forall f :: f in names ==> |factors[f]| == |strategy|
    ensures ok <==> Solvable(strategy, factors, names)
    ensures ok ==> Calibrated(strategy, factors, names, beta, betas, mean, r2)
  {
    betas, r2, mean := map[], 0.0, 0.0;
    DesignIsMatrix(factors, names, |strategy|);
    KeysOnce(names, factors.Keys);
    var coefficients;
    ok, coefficients := SolveNormal(strategy, factors, names);
    beta := coefficients;
    if ok {
      r2, mean := RSquared(strategy, factors, names, coefficients);
      betas := LabelBetas(names, coefficients);
    }
  }

  /** The calibrator: refused inputs are unusable or collinear to tolerance; accepted ones get the least-squares fit. */
  method CalibrateProxy(strategy: Vec, factors: map<string, Vec>)
    returns (ok: bool, betas: map<string, real>, r2: real, ghost names: seq<string>, ghost beta: Vec, ghost mean: real)
    ensures |factors| > 0 ==> Sorted(names, (f: string) => f) && Covers(names, factors)
    ensures ok <==> !Unusable(strategy, factors) && Solvable(strategy, factors, names)
    ensures ok ==> Calibrated(strategy, factors, names, beta, betas, mean, r2)
  {
    ok, betas, r2, names, beta, mean := false, map[], 0.0, [], [], 0.0;
    if |factors| == 0 {
      return;
    }
    var sorted := SortedNames(factors);
    names := sorted;
    KeysOnce(sorted, factors.Keys);
    for j := 0 to |sorted|
      invariant forall i :: 0 <= i < j ==> |factors[sorted[i]]| == |strategy|
    {
      assert sorted[j] in sorted;
      if |factors[sorted[j]]| != |strategy| {
        return;
      }
    }
    if |strategy| <= |sorted| + 1 {
      return;
    }
    ok, betas, r2, beta, mean := FitProxy(strategy, factors, sorted);
  }
}
