/**
 The simplex tableau as a value: what a pivot does to it and what every pivot keeps.

 A row carries its right-hand side as its last entry, so a point `x` is the
 homogeneous vector `x + [-1.0]` and a direction `d` is `d + [0.0]`; both are
 related to a tableau through its kernel.
 */
module Tableaus {
  import opened Vectors

  datatype Tableau = Tableau(rows: seq<Vec>, basis: seq<nat>, columns: nat)

  ghost predicate Shaped(t: Tableau) {
    && |t.rows| == |t.basis|
    && Matrix(t.rows, t.columns + 1)
    && (forall i :: 0 <= i < |t.basis| ==> t.basis[i] < t.columns)
  }

  /** Every basis column is a unit column. */
  ghost predicate Canonical(t: Tableau) {
    && Shaped(t)
    && (forall i, k :: 0 <= i < |t.rows| && 0 <= k < |t.rows| ==>
          t.rows[i][t.basis[k]] == if i == k then 1.0 else 0.0)
  }

  /** The right-hand side of row `i`. */
  function Rhs(t: Tableau, i: nat): real
    requires i < |t.rows| && |t.rows[i]| == t.columns + 1
  {
    t.rows[i][t.columns]
  }

  /** Canonical with a nonnegative right-hand side: the basic point is feasible. */
  ghost predicate Proper(t: Tableau) {
    Canonical(t) && forall i :: 0 <= i < |t.rows| ==> Rhs(t, i) >= 0.0
  }

  ghost predicate InKernel(t: Tableau, z: Vec)
    requires Shaped(t)
  {
    |z| == t.columns + 1 && forall i :: 0 <= i < |t.rows| ==> Dot(t.rows[i], z) == 0.0
  }

  ghost predicate SameKernel(t: Tableau, s: Tableau)
    requires Shaped(t) && Shaped(s)
  {
    t.columns == s.columns && forall z :: InKernel(t, z) <==> InKernel(s, z)
  }

  // ----- the ray of a column

  /**
   The kernel vector that moves column `s` by one and lets the basic columns compensate,
   restricted to the first `k` rows. For `s == columns` it is the negated basic point.
   */
  ghost function RayTo(t: Tableau, s: nat, k: nat): (z: Vec)
    requires Shaped(t) && s <= t.columns && k <= |t.rows|
    ensures |z| == t.columns + 1
  {
    if k == 0 then Unit(t.columns + 1, s) else RayTo(t, s, k - 1)[t.basis[k - 1] := -t.rows[k - 1][s]]
  }

  ghost function Ray(t: Tableau, s: nat): (z: Vec)
    requires Shaped(t) && s <= t.columns
    ensures |z| == t.columns + 1
  {
    RayTo(t, s, |t.rows|)
  }

  lemma BasisDistinct(t: Tableau, i: nat, k: nat)
    requires Canonical(t) && i < |t.basis| && k < |t.basis| && i != k
    ensures t.basis[i] != t.basis[k]
  {
    assert t.rows[i][t.basis[i]] == 1.0 && t.rows[i][t.basis[k]] == 0.0;
  }

  lemma {:induction false} RayEntriesTo(t: Tableau, s: nat, k: nat)
    requires Canonical(t) && s <= t.columns && s !in t.basis && k <= |t.rows|
    ensures forall i :: 0 <= i < k ==> RayTo(t, s, k)[t.basis[i]] == -t.rows[i][s]
    ensures forall j :: 0 <= j <= t.columns && j !in t.basis[..k] ==>
              RayTo(t, s, k)[j] == if j == s then 1.0 else 0.0
  {
    if k > 0 {
      RayEntriesTo(t, s, k - 1);
      var before, now, b := RayTo(t, s, k - 1), RayTo(t, s, k), t.basis[k - 1];
      assert now == before[b := -t.rows[k - 1][s]];
      forall i | 0 <= i < k - 1
        ensures now[t.basis[i]] == -t.rows[i][s]
      {
        BasisDistinct(t, i, k - 1);
      }
      assert t.basis[..k] == t.basis[..k - 1] + [b];
      forall j | 0 <= j <= t.columns && j !in t.basis[..k]
        ensures now[j] == if j == s then 1.0 else 0.0
      {
        assert j != b && j !in t.basis[..k - 1];
      }
    }
  }

  lemma RayEntries(t: Tableau, s: nat)
    requires Canonical(t) && s <= t.columns && s !in t.basis
    ensures forall i :: 0 <= i < |t.basis| ==> Ray(t, s)[t.basis[i]] == -t.rows[i][s]
    ensures forall j :: 0 <= j <= t.columns && j !in t.basis ==>
              Ray(t, s)[j] == if j == s then 1.0 else 0.0
  {
    RayEntriesTo(t, s, |t.rows|);
    assert t.basis[..|t.rows|] == t.basis;
  }

  /** The entries of `v` at the basis columns. */
  function Basics(t: Tableau, v: Vec): (w: Vec)
    requires forall i :: 0 <= i < |t.basis| ==> t.basis[i] < |v|
    ensures |w| == |t.basis| && forall i :: 0 <= i < |w| ==> w[i] == v[t.basis[i]]
  {
    seq(|t.basis|, i requires 0 <= i < |t.basis| => v[t.basis[i]])
  }

  lemma RayFreshEntry(t: Tableau, s: nat, k: nat)
    requires Canonical(t) && s <= t.columns && s !in t.basis && k < |t.rows|
    ensures RayTo(t, s, k)[t.basis[k]] == 0.0
  {
    RayEntriesTo(t, s, k);
    forall i | 0 <= i < k
      ensures t.basis[i] != t.basis[k]
    {
      BasisDistinct(t, i, k);
    }
    assert t.basis[k] !in t.basis[..k];
  }

  lemma {:induction false} RayDotTo(t: Tableau, v: Vec, s: nat, k: nat)
    requires Canonical(t) && s <= t.columns && s !in t.basis && k <= |t.rows| && |v| == t.columns + 1
    ensures Dot(v, RayTo(t, s, k)) == v[s] - ColumnTo(Basics(t, v), t.rows, s, k)
  {
    if k == 0 {
      DotUnit(v, s);
    } else {
      RayDotTo(t, v, s, k - 1);
      RayFreshEntry(t, s, k - 1);
      DotUpdate(v, RayTo(t, s, k - 1), t.basis[k - 1], -t.rows[k - 1][s]);
    }
  }

  /** Any functional evaluated on a ray: its own entry less the basic entries' compensation. */
  lemma RayDot(t: Tableau, v: Vec, s: nat)
    requires Canonical(t) && s <= t.columns && s !in t.basis && |v| == t.columns + 1
    ensures Dot(v, Ray(t, s)) == v[s] - ColumnTo(Basics(t, v), t.rows, s, |t.rows|)
  {
    RayDotTo(t, v, s, |t.rows|);
  }

  lemma {:induction false} ColumnUnitWeights(y: Vec, rows: seq<Vec>, j: nat, k: nat, p: nat)
    requires k <= |y| && k <= |rows|
    requires forall i :: 0 <= i < k ==> j < |rows[i]|
    requires forall i :: 0 <= i < k ==> y[i] == if i == p then 1.0 else 0.0
    ensures ColumnTo(y, rows, j, k) == if p < k then rows[p][j] else 0.0
  {
    if k > 0 {
      ColumnUnitWeights(y, rows, j, k - 1, p);
    }
  }

  lemma RayInKernel(t: Tableau, s: nat)
    requires Canonical(t) && s <= t.columns && s !in t.basis
    ensures InKernel(t, Ray(t, s))
  {
    forall i | 0 <= i < |t.rows|
      ensures Dot(t.rows[i], Ray(t, s)) == 0.0
    {
      RayDot(t, t.rows[i], s);
      ColumnUnitWeights(Basics(t, t.rows[i]), t.rows, s, |t.rows|, i);
    }
  }

  /** A kernel vector living on the basis and one more column is that column's multiple of its ray. */
  lemma KernelOnBasis(t: Tableau, z: Vec, s: nat, i: nat)
    requires Canonical(t) && InKernel(t, z) && s <= t.columns && s !in t.basis && i < |t.rows|
    requires forall j :: 0 <= j <= t.columns && j !in t.basis && j != s ==> z[j] == 0.0
    ensures z[t.basis[i]] == -t.rows[i][s] * z[s]
  {
    var row := t.rows[i];
    forall j | 0 <= j < |row| && j != t.basis[i] && j != s
      ensures row[j] == 0.0 || z[j] == 0.0
    {
      if j in t.basis {
        var k :| 0 <= k < |t.basis| && t.basis[k] == j;
      }
    }
    DotTwo(row, z, t.basis[i], s);
  }

  lemma RayUnique(t: Tableau, z: Vec, s: nat)
    requires Canonical(t) && InKernel(t, z) && s <= t.columns && s !in t.basis && z[s] == 1.0
    requires forall j :: 0 <= j <= t.columns && j !in t.basis && j != s ==> z[j] == 0.0
    ensures z == Ray(t, s)
  {
    RayEntries(t, s);
    forall j | 0 <= j <= t.columns
      ensures z[j] == Ray(t, s)[j]
    {
      if j in t.basis {
        var i :| 0 <= i < |t.basis| && t.basis[i] == j;
        KernelOnBasis(t, z, s, i);
      }
    }
  }

  // ----- pivots

  /** Row `i` after the pivot on row `r`, column `c`. */
  function PivotedRow(t: Tableau, r: nat, c: nat, i: nat): (row: Vec)
    requires r < |t.rows| && i < |t.rows| && Matrix(t.rows, t.columns + 1) && c < t.columns
    requires t.rows[r][c] != 0.0
    ensures |row| == t.columns + 1
  {
    var scaled := Quotient(t.rows[r], t.rows[r][c]);
    if i == r then scaled else Axpy(t.rows[i], -t.rows[i][c], scaled)
  }

  function Pivoted(t: Tableau, r: nat, c: nat): Tableau
    requires r < |t.rows| && |t.rows| == |t.basis| && Matrix(t.rows, t.columns + 1) && c < t.columns
    requires t.rows[r][c] != 0.0
  {
    Tableau(seq(|t.rows|, i requires 0 <= i < |t.rows| => PivotedRow(t, r, c, i)), t.basis[r := c], t.columns)
  }

  lemma PivotCanonical(t: Tableau, r: nat, c: nat)
    requires Canonical(t) && r < |t.rows| && c < t.columns && t.rows[r][c] != 0.0
    ensures Canonical(Pivoted(t, r, c))
  {
    var p := Pivoted(t, r, c);
    forall i, k | 0 <= i < |p.rows| && 0 <= k < |p.rows|
      ensures p.rows[i][p.basis[k]] == if i == k then 1.0 else 0.0
    {
      var scaled := Quotient(t.rows[r], t.rows[r][c]);
      assert p.rows[i] == PivotedRow(t, r, c, i);
      if k == r {
        assert scaled[c] == 1.0;
      } else {
        assert t.rows[r][t.basis[k]] == 0.0;
        assert scaled[t.basis[k]] == 0.0;
      }
    }
  }

  /** What a pivot does to the value of each row at `z`. */
  lemma PivotedRowDot(t: Tableau, r: nat, c: nat, i: nat, z: Vec)
    requires Shaped(t) && r < |t.rows| && i < |t.rows| && c < t.columns && t.rows[r][c] != 0.0
    requires |z| == t.columns + 1
    ensures i == r ==> Dot(PivotedRow(t, r, c, i), z) == Dot(t.rows[r], z) / t.rows[r][c]
    ensures i != r ==> Dot(PivotedRow(t, r, c, i), z)
                       == Dot(t.rows[i], z) - t.rows[i][c] * (Dot(t.rows[r], z) / t.rows[r][c])
  {
    var scaled := Quotient(t.rows[r], t.rows[r][c]);
    DotQuotientTo(t.rows[r], t.rows[r][c], z, |z|);
    if i != r {
      DotAxpy(t.rows[i], -t.rows[i][c], scaled, z);
    }
  }

  lemma PivotKernelForward(t: Tableau, r: nat, c: nat, z: Vec)
    requires Shaped(t) && r < |t.rows| && c < t.columns && t.rows[r][c] != 0.0
    requires InKernel(t, z)
    ensures Shaped(Pivoted(t, r, c)) && InKernel(Pivoted(t, r, c), z)
  {
    forall i | 0 <= i < |t.rows|
      ensures Dot(PivotedRow(t, r, c, i), z) == 0.0
    {
      PivotedRowDot(t, r, c, i, z);
    }
  }

  lemma PivotKernelBackward(t: Tableau, r: nat, c: nat, z: Vec)
    requires Shaped(t) && r < |t.rows| && c < t.columns && t.rows[r][c] != 0.0
    requires Shaped(Pivoted(t, r, c)) && InKernel(Pivoted(t, r, c), z)
    ensures InKernel(t, z)
  {
    var p := Pivoted(t, r, c);
    PivotedRowDot(t, r, c, r, z);
    assert Dot(p.rows[r], z) == 0.0;
    assert Dot(t.rows[r], z) / t.rows[r][c] == 0.0;
    forall i | 0 <= i < |t.rows|
      ensures Dot(t.rows[i], z) == 0.0
    {
      PivotedRowDot(t, r, c, i, z);
      assert Dot(p.rows[i], z) == 0.0;
    }
  }

  /** A pivot combines rows invertibly, so it keeps the kernel. */
  lemma PivotKeepsKernel(t: Tableau, r: nat, c: nat, z: Vec)
    requires Shaped(t) && r < |t.rows| && c < t.columns && t.rows[r][c] != 0.0
    ensures Shaped(Pivoted(t, r, c))
    ensures InKernel(t, z) <==> InKernel(Pivoted(t, r, c), z)
  {
    if InKernel(t, z) {
      PivotKernelForward(t, r, c, z);
    } else if InKernel(Pivoted(t, r, c), z) {
      PivotKernelBackward(t, r, c, z);
    }
  }

  lemma PivotSameKernel(t: Tableau, r: nat, c: nat)
    requires Shaped(t) && r < |t.rows| && c < t.columns && t.rows[r][c] != 0.0
    ensures Shaped(Pivoted(t, r, c)) && SameKernel(t, Pivoted(t, r, c))
  {
    forall z: Vec
      ensures InKernel(t, z) <==> InKernel(Pivoted(t, r, c), z)
    {
      PivotKeepsKernel(t, r, c, z);
    }
  }

  // ----- ratio test

  function Ratio(t: Tableau, i: nat, s: nat): real
    requires i < |t.rows| && |t.rows[i]| == t.columns + 1 && s < t.columns && t.rows[i][s] > 0.0
  {
    Rhs(t, i) / t.rows[i][s]
  }

  /** Row `r` attains the least ratio among rows with a positive entry in column `s`. */
  ghost predicate LeastRatio(t: Tableau, r: nat, s: nat)
    requires Shaped(t)
  {
    && r < |t.rows| && s < t.columns && t.rows[r][s] > 0.0
    && (forall i :: 0 <= i < |t.rows| && t.rows[i][s] > 0.0 ==> Ratio(t, r, s) <= Ratio(t, i, s))
  }

  lemma RatioStep(b: real, a: real, theta: real)
    requires b >= 0.0 && theta >= 0.0
    requires a > 0.0 ==> theta <= b / a
    ensures b - a * theta >= 0.0
  {
    if a > 0.0 {
      assert b == b / a * a;
      assert theta * a <= b / a * a;
    } else {
      assert a * theta <= 0.0;
    }
  }

  lemma PivotProper(t: Tableau, r: nat, s: nat)
    requires Proper(t) && LeastRatio(t, r, s)
    ensures Proper(Pivoted(t, r, s))
  {
    PivotCanonical(t, r, s);
    var p := Pivoted(t, r, s);
    var theta := Ratio(t, r, s);
    assert theta >= 0.0;
    forall i | 0 <= i < |p.rows|
      ensures Rhs(p, i) >= 0.0
    {
      assert p.rows[i] == PivotedRow(t, r, s, i);
      if i != r {
        RatioStep(Rhs(t, i), t.rows[i][s], theta);
      }
    }
  }

  /** A pivot on a row whose right-hand side is zero moves no right-hand side. */
  lemma DegeneratePivotProper(t: Tableau, r: nat, c: nat)
    requires Proper(t) && r < |t.rows| && c < t.columns && t.rows[r][c] != 0.0 && Rhs(t, r) == 0.0
    ensures Proper(Pivoted(t, r, c))
    ensures forall i :: 0 <= i < |t.rows| ==> Rhs(Pivoted(t, r, c), i) == Rhs(t, i)
  {
    PivotCanonical(t, r, c);
    var p := Pivoted(t, r, c);
    forall i | 0 <= i < |p.rows|
      ensures Rhs(p, i) == Rhs(t, i)
    {
      assert p.rows[i] == PivotedRow(t, r, c, i);
    }
  }

  // ----- the basic point and its change

  lemma KernelAxpy(t: Tableau, u: Vec, c: real, v: Vec)
    requires Shaped(t) && InKernel(t, u) && InKernel(t, v)
    ensures InKernel(t, Axpy(u, c, v))
  {
    forall i | 0 <= i < |t.rows|
      ensures Dot(t.rows[i], Axpy(u, c, v)) == 0.0
    {
      DotAxpyRight(t.rows[i], u, c, v);
    }
  }

  /** The point reached by the ratio test vanishes on every column outside the next basis. */
  lemma MovedPointEntry(t: Tableau, r: nat, s: nat, j: nat)
    requires Canonical(t) && r < |t.rows| && s < t.columns && s !in t.basis && t.rows[r][s] > 0.0
    requires j < t.columns && j !in t.basis[r := s]
    ensures t.columns !in t.basis
    ensures Ray(t, t.columns)[j] - Ratio(t, r, s) * Ray(t, s)[j] == 0.0
  {
    RayEntries(t, t.columns);
    RayEntries(t, s);
    var next := t.basis[r := s];
    assert next[r] == s;
    assert forall k :: 0 <= k < |next| && k != r ==> next[k] == t.basis[k] && next[k] in next;
    if j in t.basis {
      var k :| 0 <= k < |t.basis| && t.basis[k] == j;
      assert Ratio(t, r, s) * t.rows[r][s] == Rhs(t, r);
    }
  }

  /** Moving along the entering ray until the leaving variable is zero gives the next basic point. */
  lemma PivotMovesPoint(t: Tableau, r: nat, s: nat)
    requires Canonical(t) && r < |t.rows| && s < t.columns && s !in t.basis && t.rows[r][s] > 0.0
    ensures Canonical(Pivoted(t, r, s))
    ensures t.columns !in t.basis && t.columns !in Pivoted(t, r, s).basis
    ensures Ray(Pivoted(t, r, s), t.columns) == Axpy(Ray(t, t.columns), -Ratio(t, r, s), Ray(t, s))
  {
    var p := Pivoted(t, r, s);
    var n := t.columns;
    PivotCanonical(t, r, s);
    RayInKernel(t, n);
    RayInKernel(t, s);
    var z := Axpy(Ray(t, n), -Ratio(t, r, s), Ray(t, s));
    KernelAxpy(t, Ray(t, n), -Ratio(t, r, s), Ray(t, s));
    PivotKernelForward(t, r, s, z);
    forall j | 0 <= j <= n && j !in p.basis && j != n
      ensures z[j] == 0.0
    {
      MovedPointEntry(t, r, s, j);
    }
    assert z[n] == 1.0 by {
      RayEntries(t, n);
      RayEntries(t, s);
    }
    RayUnique(p, z, n);
  }
}
