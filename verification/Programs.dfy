/**
 The linear program behind an allocation, in matrix form: the first `slacks` rows are
 upper bounds, the remaining rows are exact coverages. Weak duality, what a dual
 certificate proves, and why exact coverage loses nothing against over-posting.
 */
module Programs {
  import opened Vectors

  datatype Program = Program(rows: seq<Vec>, rhs: Vec, slacks: nat, cost: Vec)

  ghost predicate WellFormed(p: Program) {
    && |p.rows| == |p.rhs| && p.slacks <= |p.rows|
    && Matrix(p.rows, |p.cost|)
    && Nonnegative(p.rhs) && Nonnegative(p.cost)
  }

  /** `x` is nonnegative, respects every bound and meets every coverage exactly. */
  ghost predicate Feasible(p: Program, x: Vec)
    requires WellFormed(p)
  {
    && |x| == |p.cost| && Nonnegative(x)
    && (forall i :: 0 <= i < p.slacks ==> Dot(p.rows[i], x) <= p.rhs[i])
    && (forall i :: p.slacks <= i < |p.rows| ==> Dot(p.rows[i], x) == p.rhs[i])
  }

  /** As `Feasible`, but coverages may be exceeded. */
  ghost predicate Covering(p: Program, x: Vec)
    requires WellFormed(p)
  {
    && |x| == |p.cost| && Nonnegative(x)
    && (forall i :: 0 <= i < p.slacks ==> Dot(p.rows[i], x) <= p.rhs[i])
    && (forall i :: p.slacks <= i < |p.rows| ==> Dot(p.rows[i], x) >= p.rhs[i])
  }

  /** `y` prices every column at most at `cost` and gives bounds no positive price. */
  ghost predicate DualFeasible(p: Program, y: Vec, cost: Vec)
    requires WellFormed(p)
  {
    && |y| == |p.rows| && |cost| == |p.cost|
    && (forall i :: 0 <= i < p.slacks ==> y[i] <= 0.0)
    && (forall j :: 0 <= j < |cost| ==> ColumnTo(y, p.rows, j, |p.rows|) <= cost[j])
  }

  lemma MulMonotone(a: real, b: real, x: real)
    requires a <= b && x >= 0.0
    ensures a * x <= b * x
  {
  }

  lemma MulAntitone(a: real, b: real, y: real)
    requires a <= b && y <= 0.0
    ensures y * b <= y * a
  {
  }

  /** Weak duality: a dual value never exceeds the cost of a feasible point. */
  lemma WeakDuality(p: Program, y: Vec, cost: Vec, x: Vec)
    requires WellFormed(p) && DualFeasible(p, y, cost) && Feasible(p, x)
    ensures Dot(y, p.rhs) <= Dot(cost, x)
  {
    var w := Combine(y, p.rows, |x|);
    var image := Image(p.rows, x);
    CombineDot(y, p.rows, x);
    forall j | 0 <= j < |x|
      ensures w[j] * x[j] <= cost[j] * x[j]
    {
      CombineAt(y, p.rows, |x|, |p.rows|, j);
      MulMonotone(w[j], cost[j], x[j]);
    }
    DotMonotoneTo(w, x, cost, x, |x|);
    forall i | 0 <= i < |y|
      ensures y[i] * p.rhs[i] <= y[i] * image[i]
    {
      if i < p.slacks {
        MulAntitone(image[i], p.rhs[i], y[i]);
      }
    }
    DotMonotoneTo(y, p.rhs, y, image, |y|);
  }

  /** Equal primal and dual values certify a global optimum. */
  lemma CertifiedOptimum(p: Program, y: Vec, x: Vec, other: Vec)
    requires WellFormed(p) && DualFeasible(p, y, p.cost) && Feasible(p, x)
    requires Dot(p.cost, x) == Dot(y, p.rhs)
    requires Feasible(p, other)
    ensures Dot(p.cost, x) <= Dot(p.cost, other)
  {
    WeakDuality(p, y, p.cost, other);
  }

  /** A Farkas witness rules out every feasible point. */
  lemma CertifiedInfeasible(p: Program, y: Vec, x: Vec)
    requires WellFormed(p) && DualFeasible(p, y, Zeros(|p.cost|)) && Dot(y, p.rhs) > 0.0
    ensures !Feasible(p, x)
  {
    if Feasible(p, x) {
      WeakDuality(p, y, Zeros(|p.cost|), x);
      DotZeroTo(Zeros(|p.cost|), x, |x|);
      assert false;
    }
  }

  // ----- over-posting

  /** Entries are nonnegative and each column is covered by the one row its owner names. */
  ghost predicate Owned(p: Program, owner: seq<nat>)
    requires WellFormed(p)
  {
    && |owner| == |p.cost|
    && (forall i :: 0 <= i < |p.rows| ==> Nonnegative(p.rows[i]))
    && (forall i, j :: p.slacks <= i < |p.rows| && 0 <= j < |owner| && i != owner[j] ==> p.rows[i][j] == 0.0)
    && (forall j :: 0 <= j < |owner| ==> p.slacks <= owner[j] < |p.rows|)
  }

  /** The part of `posted` that `need` takes. */
  function Share(need: real, posted: real): real {
    if posted <= need then 1.0 else if posted > 0.0 then need / posted else 0.0
  }

  lemma ShareMeetsNeed(need: real, posted: real)
    requires 0.0 <= need <= posted
    ensures 0.0 <= Share(need, posted) <= 1.0
    ensures Share(need, posted) * posted == need
  {
    if posted > need {
      assert need / posted * posted == need;
      if need / posted > 1.0 {
        MulMonotone(1.0, need / posted, posted);
        assert false;
      }
    }
  }

  /** Entry `j` scaled by the factor of its owner. */
  function Trim(owner: seq<nat>, f: Vec, x: Vec): (z: Vec)
    requires |owner| == |x| && forall j :: 0 <= j < |owner| ==> owner[j] < |f|
    ensures |z| == |x| && forall j :: 0 <= j < |z| ==> z[j] == f[owner[j]] * x[j]
  {
    seq(|x|, j requires 0 <= j < |x| => f[owner[j]] * x[j])
  }

  ghost predicate Factors(owner: seq<nat>, f: Vec, x: Vec) {
    && |owner| == |x| && (forall j :: 0 <= j < |owner| ==> owner[j] < |f|)
    && (forall i :: 0 <= i < |f| ==> 0.0 <= f[i] <= 1.0)
    && Nonnegative(x)
  }

  lemma TrimEntry(owner: seq<nat>, f: Vec, x: Vec, j: nat)
    requires Factors(owner, f, x) && j < |x|
    ensures 0.0 <= Trim(owner, f, x)[j] <= x[j]
  {
    var g := f[owner[j]];
    MulMonotone(0.0, g, x[j]);
    MulMonotone(g, 1.0, x[j]);
    assert Trim(owner, f, x)[j] == g * x[j];
  }

  /** A nonnegative functional only falls when postings are trimmed. */
  lemma TrimFalls(owner: seq<nat>, f: Vec, x: Vec, v: Vec)
    requires Factors(owner, f, x) && |v| == |x| && Nonnegative(v)
    ensures Dot(v, Trim(owner, f, x)) <= Dot(v, x)
  {
    var z := Trim(owner, f, x);
    forall j | 0 <= j < |x|
      ensures v[j] * z[j] <= v[j] * x[j]
    {
      TrimEntry(owner, f, x, j);
      MulMonotone(z[j], x[j], v[j]);
    }
    DotMonotoneTo(v, z, v, x, |x|);
  }

  /** On a row owned by `i`, trimming is scaling by the factor of `i`. */
  lemma TrimCoverage(owner: seq<nat>, f: Vec, x: Vec, row: Vec, i: nat)
    requires Factors(owner, f, x) && |row| == |x| && i < |f|
    requires forall j :: 0 <= j < |x| && owner[j] != i ==> row[j] == 0.0
    ensures Dot(row, Trim(owner, f, x)) == f[i] * Dot(row, x)
  {
    var scaled := Axpy(Zeros(|x|), f[i], x);
    DotAgreeTo(row, Trim(owner, f, x), scaled, |x|);
    DotAxpyRight(row, Zeros(|x|), f[i], x);
    DotZeroTo(row, Zeros(|x|), |x|);
  }

  /** For every row the share of its posting that its coverage needs; bounds are left alone. */
  ghost function Shares(p: Program, x: Vec): (f: Vec)
    requires WellFormed(p) && Covering(p, x)
    ensures |f| == |p.rows|
  {
    seq(|p.rows|, i requires 0 <= i < |p.rows| =>
      if i < p.slacks then 1.0 else Share(p.rhs[i], Dot(p.rows[i], x)))
  }

  lemma SharesAreFactors(p: Program, owner: seq<nat>, x: Vec)
    requires WellFormed(p) && Owned(p, owner) && Covering(p, x)
    ensures Factors(owner, Shares(p, x), x)
  {
    forall i | 0 <= i < |p.rows|
      ensures 0.0 <= Shares(p, x)[i] <= 1.0
    {
      if p.slacks <= i {
        ShareMeetsNeed(p.rhs[i], Dot(p.rows[i], x));
      }
    }
  }

  lemma ShareAt(p: Program, x: Vec, i: nat)
    requires WellFormed(p) && Covering(p, x) && p.slacks <= i < |p.rows|
    ensures Shares(p, x)[i] * Dot(p.rows[i], x) == p.rhs[i]
  {
    ShareMeetsNeed(p.rhs[i], Dot(p.rows[i], x));
  }

  lemma TrimmedCoverage(p: Program, owner: seq<nat>, f: Vec, x: Vec, i: nat)
    requires WellFormed(p) && Owned(p, owner) && p.slacks <= i < |p.rows|
    requires Factors(owner, f, x) && |f| == |p.rows| && |x| == |p.cost|
    requires f[i] * Dot(p.rows[i], x) == p.rhs[i]
    ensures Dot(p.rows[i], Trim(owner, f, x)) == p.rhs[i]
  {
    TrimCoverage(owner, f, x, p.rows[i], i);
  }

  lemma TrimIsFeasible(p: Program, owner: seq<nat>, f: Vec, x: Vec)
    requires WellFormed(p) && Owned(p, owner) && Covering(p, x)
    requires Factors(owner, f, x) && |f| == |p.rows|
    requires forall i :: p.slacks <= i < |f| ==> f[i] * Dot(p.rows[i], x) == p.rhs[i]
    ensures Feasible(p, Trim(owner, f, x))
    ensures Dot(p.cost, Trim(owner, f, x)) <= Dot(p.cost, x)
  {
    var z := Trim(owner, f, x);
    forall j | 0 <= j < |z|
      ensures z[j] >= 0.0
    {
      TrimEntry(owner, f, x, j);
    }
    forall i | 0 <= i < p.slacks
      ensures Dot(p.rows[i], z) <= p.rhs[i]
    {
      TrimFalls(owner, f, x, p.rows[i]);
    }
    forall i | p.slacks <= i < |p.rows|
      ensures Dot(p.rows[i], z) == p.rhs[i]
    {
      TrimmedCoverage(p, owner, f, x, i);
    }
    TrimFalls(owner, f, x, p.cost);
  }

  /** Trimming an over-posting meets every coverage exactly and costs no more. */
  lemma TrimmedIsFeasible(p: Program, owner: seq<nat>, x: Vec)
    requires WellFormed(p) && Owned(p, owner) && Covering(p, x)
    ensures Factors(owner, Shares(p, x), x)
    ensures Feasible(p, Trim(owner, Shares(p, x), x))
    ensures Dot(p.cost, Trim(owner, Shares(p, x), x)) <= Dot(p.cost, x)
  {
    SharesAreFactors(p, owner, x);
    forall i | p.slacks <= i < |p.rows|
      ensures Shares(p, x)[i] * Dot(p.rows[i], x) == p.rhs[i]
    {
      ShareAt(p, x, i);
    }
    TrimIsFeasible(p, owner, Shares(p, x), x);
  }

  /**
   Exact coverage loses nothing: an optimum among exact allocations is one among over-posting
   ones, and when no exact allocation exists no over-posting one does.
   */
  lemma ExactCoverageLosesNothing(p: Program, owner: seq<nat>, other: Vec)
    requires WellFormed(p) && Owned(p, owner) && Covering(p, other)
    ensures exists z :: Feasible(p, z) && Dot(p.cost, z) <= Dot(p.cost, other)
  {
    TrimmedIsFeasible(p, owner, other);
  }
}
