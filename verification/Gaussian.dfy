/**
 Gaussian elimination with partial pivoting and back substitution, over the reals:
 an accepted system is solved as it was before elimination, and uniquely.
 */
module Gaussian {
  import opened Vectors

  ghost predicate Square(a: seq<Vec>, b: Vec) {
    |b| == |a| && Matrix(a, |a|)
  }

  ghost predicate Solves(a: seq<Vec>, b: Vec, x: Vec)
    requires Square(a, b)
  {
    |x| == |a| && forall i :: 0 <= i < |a| ==> Dot(a[i], x) == b[i]
  }

  /** Both systems have the same solutions. */
  ghost predicate Equivalent(a: seq<Vec>, b: Vec, a': seq<Vec>, b': Vec)
    requires Square(a, b) && Square(a', b')
  {
    |a| == |a'| && forall x :: Solves(a, b, x) <==> Solves(a', b', x)
  }

  function Abs(v: real): real {
    if v < 0.0 then -v else v
  }

  const TOLERANCE := 0.000000000001

  /** The first `n` columns are cleared below the diagonal, which is nonzero there. */
  ghost predicate Cleared(a: seq<Vec>, n: nat)
    requires Matrix(a, |a|)
  {
    && n <= |a|
    && (forall c :: 0 <= c < n ==> a[c][c] != 0.0)
    && (forall c, r :: 0 <= c < n && c < r < |a| ==> a[r][c] == 0.0)
  }

  // ----- elimination as a function

  datatype System = System(a: seq<Vec>, b: Vec)

  ghost predicate Proper(s: System) {
    Square(s.a, s.b)
  }

  /** The first row from `best` on, with rows from `r` still to come, whose entry is largest. */
  function PivotFrom(a: seq<Vec>, col: nat, best: nat, r: nat): (p: nat)
    requires Matrix(a, |a|) && col < |a| && best < r <= |a|
    ensures best <= p < |a|
    ensures Abs(a[best][col]) <= Abs(a[p][col]) && forall k :: r <= k < |a| ==> Abs(a[k][col]) <= Abs(a[p][col])
    decreases |a| - r
  {
    if r == |a| then best else PivotFrom(a, col, if Abs(a[r][col]) > Abs(a[best][col]) then r else best, r + 1)
  }

  function Exchanged<T>(xs: seq<T>, i: nat, j: nat): (ys: seq<T>)
    requires i < |xs| && j < |xs|
    ensures |ys| == |xs|
  {
    xs[i := xs[j]][j := xs[i]]
  }

  /** The pivot row brought to the diagonal. */
  ghost function Pivoted(s: System, col: nat): (t: System)
    requires Proper(s) && col < |s.a|
    ensures Proper(t) && |t.a| == |s.a|
  {
    var p := PivotFrom(s.a, col, col, col + 1);
    System(Exchanged(s.a, col, p), Exchanged(s.b, col, p))
  }

  /** Row `r` less the multiple of the pivot row that clears its entry. */
  ghost function Subtracted(s: System, col: nat, r: nat): (t: System)
    requires Proper(s) && col < r < |s.a| && s.a[col][col] != 0.0
    ensures Proper(t) && |t.a| == |s.a| && t.a[col] == s.a[col] && t.b[col] == s.b[col]
  {
    Less(s, col, r, s.a[r][col] / s.a[col][col])
  }

  /** Row `r` less `f` times row `col`. */
  ghost function Less(s: System, col: nat, r: nat, f: real): (t: System)
    requires Proper(s) && col < r < |s.a|
    ensures Proper(t) && |t.a| == |s.a| && t.a[col] == s.a[col] && t.b[col] == s.b[col]
  {
    System(s.a[r := Axpy(s.a[r], -f, s.a[col])], s.b[r := Reduced(s.b[r], f, s.b[col])])
  }

  function Reduced(x: real, f: real, y: real): real {
    x - f * y
  }

  /** The rows below the diagonal and before `n` cleared. */
  ghost function SubtractedTo(s: System, col: nat, n: nat): (t: System)
    requires Proper(s) && col < n <= |s.a| && s.a[col][col] != 0.0
    ensures Proper(t) && |t.a| == |s.a| && t.a[col] == s.a[col] && t.b[col] == s.b[col]
  {
    if n == col + 1 then s else Subtracted(SubtractedTo(s, col, n - 1), col, n - 1)
  }

  /** One column of the elimination; a zero pivot leaves nothing to subtract. */
  ghost function ColumnStep(s: System, col: nat): (t: System)
    requires Proper(s) && col < |s.a|
    ensures Proper(t) && |t.a| == |s.a|
  {
    var p := Pivoted(s, col);
    if p.a[col][col] == 0.0 then p else SubtractedTo(p, col, |p.a|)
  }

  /** The system after the first `n` columns. */
  ghost function Reached(s: System, n: nat): (t: System)
    requires Proper(s) && n <= |s.a|
    ensures Proper(t) && |t.a| == |s.a|
  {
    if n == 0 then s else ColumnStep(Reached(s, n - 1), n - 1)
  }

  /** Some entry of the column, from the diagonal down, is large enough to pivot on. */
  ghost predicate Usable(s: System, col: nat)
    requires Proper(s) && col < |s.a|
  {
    exists r :: col <= r < |s.a| && (s.a[r][col] >= 0.000000000001 || s.a[r][col] <= -0.000000000001)
  }

  /** Every column the elimination reaches offers a pivot. */
  ghost predicate Regular(a: seq<Vec>, b: Vec)
    requires Square(a, b)
  {
    forall col :: 0 <= col < |a| ==> Usable(Reached(System(a, b), col), col)
  }

  // ----- row operations keep the solutions

  lemma SwapKeeps(a: seq<Vec>, b: Vec, i: nat, j: nat)
    requires Square(a, b) && i < |a| && j < |a|
    ensures Equivalent(a, b, a[i := a[j]][j := a[i]], b[i := b[j]][j := b[i]])
  {
    var a', b' := a[i := a[j]][j := a[i]], b[i := b[j]][j := b[i]];
    forall x
      ensures Solves(a, b, x) <==> Solves(a', b', x)
    {
      if Solves(a', b', x) {
        assert Dot(a'[i], x) == b'[i] && Dot(a'[j], x) == b'[j];
        forall k | 0 <= k < |a|
          ensures Dot(a[k], x) == b[k]
        {
          assert k != i && k != j ==> a'[k] == a[k] && b'[k] == b[k];
        }
      }
    }
  }

  lemma SubtractKeeps(s: System, r: nat, f: real, p: nat)
    requires Proper(s) && p < r < |s.a|
    ensures Equivalent(s.a, s.b, Less(s, p, r, f).a, Less(s, p, r, f).b)
  {
    var t := Less(s, p, r, f);
    forall x
      ensures Solves(s.a, s.b, x) <==> Solves(t.a, t.b, x)
    {
      if |x| == |s.a| {
        DotAxpy(s.a[r], -f, s.a[p], x);
        if Dot(s.a[p], x) == s.b[p] {
          Balanced(Dot(s.a[r], x), Dot(s.a[p], x), f, s.b[r], s.b[p]);
        }
        SameElsewhere(s, t, r, p, x);
      }
    }
  }

  lemma Balanced(u: real, v: real, f: real, b: real, c: real)
    requires v == c
    ensures u + -f * v == Reduced(b, f, c) <==> u == b
  {
  }

  /** Two systems that differ in row `r`, where the row's equation holds in one if and only if in the other. */
  lemma SameElsewhere(s: System, t: System, r: nat, p: nat, x: Vec)
    requires Proper(s) && Proper(t) && |t.a| == |s.a| == |x| && p < r < |s.a|
    requires forall k :: 0 <= k < |s.a| && k != r ==> t.a[k] == s.a[k] && t.b[k] == s.b[k]
    requires Dot(s.a[p], x) == s.b[p] ==> (Dot(t.a[r], x) == t.b[r] <==> Dot(s.a[r], x) == s.b[r])
    ensures Solves(s.a, s.b, x) <==> Solves(t.a, t.b, x)
  {
    if Solves(t.a, t.b, x) {
      assert Dot(t.a[p], x) == t.b[p] && Dot(t.a[r], x) == t.b[r];
      forall k | 0 <= k < |s.a|
        ensures Dot(s.a[k], x) == s.b[k]
      {
        assert k != r ==> Dot(t.a[k], x) == t.b[k];
      }
    }
  }

  // ----- elimination

  /** The row at or below `col` whose entry in column `col` is largest in absolute value. */
  method ChoosePivot(a: seq<Vec>, col: nat) returns (pivot: nat)
    requires Matrix(a, |a|) && col < |a|
    ensures pivot == PivotFrom(a, col, col, col + 1)
  {
    pivot := col;
    for r := col + 1 to |a|
      invariant col <= pivot < r && PivotFrom(a, col, col, col + 1) == PivotFrom(a, col, pivot, r)
    {
      if Abs(a[r][col]) > Abs(a[pivot][col]) {
        pivot := r;
      }
    }
  }

  /** Subtracts from column `col` on; the source row is zero before it. */
  method SubtractFrom(row: Vec, f: real, source: Vec, col: nat) returns (out: Vec)
    requires |row| == |source| && col <= |row| && forall c :: 0 <= c < col ==> source[c] == 0.0
    ensures out == Axpy(row, -f, source)
  {
    out := row;
    for c := col to |row|
      invariant |out| == |row|
      invariant forall k :: 0 <= k < |row| ==> out[k] == if col <= k < c then row[k] + -f * source[k] else row[k]
    {
      out := out[c := out[c] - f * source[c]];
    }
  }

  lemma ClearedBySubtraction(a: seq<Vec>, col: nat, r: nat, f: real)
    requires Matrix(a, |a|) && col < r < |a| && Cleared(a, col) && a[col][col] != 0.0 && f == a[r][col] / a[col][col]
    ensures var row := Axpy(a[r], -f, a[col]);
            row[col] == 0.0 && forall c :: 0 <= c < col ==> row[c] == 0.0
  {
    assert f * a[col][col] == a[r][col];
  }

  lemma EquivalentTransitive(r: System, s: System, t: System)
    requires Proper(r) && Proper(s) && Proper(t) && Equivalent(r.a, r.b, s.a, s.b) && Equivalent(s.a, s.b, t.a, t.b)
    ensures Equivalent(r.a, r.b, t.a, t.b)
  {
  }

  lemma SubtractedOnce(s: System, col: nat, r: nat)
    requires Proper(s) && col < r < |s.a| && Cleared(s.a, col) && s.a[col][col] != 0.0
    ensures var t := Subtracted(s, col, r);
            && Cleared(t.a, col) && t.a[r][col] == 0.0
            && (forall k :: 0 <= k < |s.a| && k != r ==> t.a[k] == s.a[k] && t.b[k] == s.b[k])
  {
    ClearedBySubtraction(s.a, col, r, s.a[r][col] / s.a[col][col]);
  }

  lemma SubtractedEquivalent(s: System, col: nat, r: nat)
    requires Proper(s) && col < r < |s.a| && s.a[col][col] != 0.0
    ensures Equivalent(s.a, s.b, Subtracted(s, col, r).a, Subtracted(s, col, r).b)
  {
    SubtractKeeps(s, r, s.a[r][col] / s.a[col][col], col);
  }

  /** Clearing step by step empties the column and leaves the rows still to come alone. */
  lemma {:induction false} SubtractedMeaning(s: System, col: nat, n: nat)
    requires Proper(s) && col < n <= |s.a| && Cleared(s.a, col) && s.a[col][col] != 0.0
    ensures var t := SubtractedTo(s, col, n);
            && Cleared(t.a, col) && (forall k :: col < k < n ==> t.a[k][col] == 0.0)
            && (forall k :: n <= k < |s.a| ==> t.a[k] == s.a[k] && t.b[k] == s.b[k])
  {
    if n > col + 1 {
      SubtractedMeaning(s, col, n - 1);
      SubtractedOnce(SubtractedTo(s, col, n - 1), col, n - 1);
    }
  }

  lemma {:induction false} SubtractedToEquivalent(s: System, col: nat, n: nat)
    requires Proper(s) && col < n <= |s.a| && s.a[col][col] != 0.0
    ensures Equivalent(s.a, s.b, SubtractedTo(s, col, n).a, SubtractedTo(s, col, n).b)
  {
    if n > col + 1 {
      SubtractedToEquivalent(s, col, n - 1);
      var t := SubtractedTo(s, col, n - 1);
      SubtractedEquivalent(t, col, n - 1);
      EquivalentTransitive(s, t, SubtractedTo(s, col, n));
    }
  }

  /** Clears column `col` below the diagonal. */
  method ClearColumn(a: seq<Vec>, b: Vec, col: nat) returns (a': seq<Vec>, b': Vec)
    requires Square(a, b) && col < |a| && Cleared(a, col) && a[col][col] != 0.0
    ensures System(a', b') == SubtractedTo(System(a, b), col, |a|)
  {
    a', b' := a, b;
    for r := col + 1 to |a|
      invariant System(a', b') == SubtractedTo(System(a, b), col, r)
    {
      SubtractedMeaning(System(a, b), col, r);
      ghost var before := System(a', b');
      var f := a'[r][col] / a'[col][col];
      var row := SubtractFrom(a'[r], f, a'[col], col);
      a', b' := a'[r := row], b'[r := Reduced(b'[r], f, b'[col])];
      assert System(a', b') == Less(before, col, r, f);
    }
  }

  lemma PivotedMeaning(s: System, col: nat)
    requires Proper(s) && col < |s.a| && Cleared(s.a, col)
    ensures Equivalent(s.a, s.b, Pivoted(s, col).a, Pivoted(s, col).b) && Cleared(Pivoted(s, col).a, col)
    ensures Usable(s, col) <==> Abs(Pivoted(s, col).a[col][col]) >= TOLERANCE
  {
    var p := PivotFrom(s.a, col, col, col + 1);
    SwapKeeps(s.a, s.b, col, p);
    assert Pivoted(s, col).a[col] == s.a[p];
  }

  /** A usable column leaves an equivalent system with one more column cleared. */
  lemma ColumnStepMeaning(s: System, col: nat)
    requires Proper(s) && col < |s.a| && Cleared(s.a, col) && Usable(s, col)
    ensures var t := ColumnStep(s, col); Cleared(t.a, col + 1) && Equivalent(s.a, s.b, t.a, t.b)
  {
    PivotedMeaning(s, col);
    var p := Pivoted(s, col);
    SubtractedMeaning(p, col, |s.a|);
    SubtractedToEquivalent(p, col, |s.a|);
    EquivalentTransitive(s, p, ColumnStep(s, col));
  }

  /** `t` has the solutions of `s` and its first `col` columns cleared. */
  ghost predicate Triangular(s: System, t: System, col: nat) {
    Proper(s) && Proper(t) && |t.a| == |s.a| && Cleared(t.a, col) && Equivalent(s.a, s.b, t.a, t.b)
  }

  /** The first `col` columns have been eliminated, each on a usable pivot. */
  ghost predicate Eliminated(s: System, col: nat)
    requires Proper(s) && col <= |s.a|
  {
    Triangular(s, Reached(s, col), col) && forall k :: 0 <= k < col ==> Usable(Reached(s, k), k)
  }

  lemma TriangularStep(s: System, t: System, col: nat)
    requires Triangular(s, t, col) && col < |s.a| && Usable(t, col)
    ensures Triangular(s, ColumnStep(t, col), col + 1)
  {
    ColumnStepMeaning(t, col);
    EquivalentTransitive(s, t, ColumnStep(t, col));
  }

  lemma EliminatedStep(s: System, col: nat)
    requires Proper(s) && col < |s.a| && Eliminated(s, col) && Usable(Reached(s, col), col)
    ensures Eliminated(s, col + 1)
  {
    TriangularStep(s, Reached(s, col), col);
  }

  /** Elimination to triangular form, or refusal when a pivot column is below tolerance. */
  method Triangulate(a: seq<Vec>, b: Vec) returns (ok: bool, a': seq<Vec>, b': Vec)
    requires Square(a, b)
    ensures ok <==> Regular(a, b)
    ensures ok ==> Square(a', b') && |a'| == |a| && Cleared(a', |a|) && Equivalent(a, b, a', b')
  {
    a', b' := a, b;
    ghost var s := System(a, b);
    ok := true;
    for col := 0 to |a|
      invariant ok && System(a', b') == Reached(s, col) && Eliminated(s, col)
    {
      ok, a', b' := NextColumn(a', b', col, s);
      if !ok {
        return;
      }
    }
  }

  /** One column of the elimination, or refusal. */
  method NextColumn(a: seq<Vec>, b: Vec, col: nat, ghost s: System) returns (ok: bool, a': seq<Vec>, b': Vec)
    requires Proper(s) && col < |s.a| && System(a, b) == Reached(s, col) && Eliminated(s, col)
    ensures ok <==> Usable(Reached(s, col), col)
    ensures ok ==> System(a', b') == Reached(s, col + 1) && Eliminated(s, col + 1)
  {
    a', b' := a, b;
    PivotedMeaning(System(a, b), col);
    var pivot := ChoosePivot(a, col);
    ok := Abs(a[pivot][col]) >= TOLERANCE;
    if ok {
      EliminatedStep(s, col);
      a', b' := EliminateColumn(a, b, col, pivot);
    }
  }

  /** Brings the pivot row up and clears the column below it. */
  method EliminateColumn(a: seq<Vec>, b: Vec, col: nat, pivot: nat) returns (a': seq<Vec>, b': Vec)
    requires Square(a, b) && col < |a| && pivot == PivotFrom(a, col, col, col + 1)
    requires Cleared(Pivoted(System(a, b), col).a, col) && Abs(a[pivot][col]) >= TOLERANCE
    ensures System(a', b') == ColumnStep(System(a, b), col)
  {
    a', b' := Exchanged(a, col, pivot), Exchanged(b, col, pivot);
    a', b' := ClearColumn(a', b', col);
  }

  // ----- back substitution

  method BackSubstitute(a: seq<Vec>, b: Vec) returns (x: Vec)
    requires Square(a, b) && Cleared(a, |a|)
    ensures Solves(a, b, x)
  {
    x := Zeros(|a|);
    for r := |a| downto 0
      invariant |x| == |a| && (forall c :: 0 <= c < r ==> x[c] == 0.0)
      invariant forall k :: r <= k < |a| ==> Dot(a[k], x) == b[k]
    {
      var rest := b[r];
      DotZeroTo(a[r], x, r + 1);
      for c := r + 1 to |a|
        invariant rest == b[r] - DotTo(a[r], x, c)
      {
        rest := rest - a[r][c] * x[c];
      }
      var value := rest / a[r][r];
      SubstitutionStep(a, b, x, r, value);
      x := x[r := value];
    }
  }

  lemma SubstitutionStep(a: seq<Vec>, b: Vec, x: Vec, r: nat, value: real)
    requires Square(a, b) && Cleared(a, |a|) && |x| == |a| && r < |a| && x[r] == 0.0
    requires value == (b[r] - Dot(a[r], x)) / a[r][r]
    requires forall k :: r < k < |a| ==> Dot(a[k], x) == b[k]
    ensures forall k :: r <= k < |a| ==> Dot(a[k], x[r := value]) == b[k]
  {
    forall k | r <= k < |a|
      ensures Dot(a[k], x[r := value]) == b[k]
    {
      DotUpdate(a[k], x, r, value);
      if k == r {
        assert a[r][r] * value == b[r] - Dot(a[r], x);
      }
    }
  }

  /** A cleared system has at most one solution. */
  lemma {:induction false} ClearedUnique(a: seq<Vec>, b: Vec, x: Vec, y: Vec, r: nat)
    requires Square(a, b) && Cleared(a, |a|) && Solves(a, b, x) && Solves(a, b, y) && r <= |a|
    ensures forall c :: r <= c < |a| ==> x[c] == y[c]
    decreases |a| - r
  {
    if r < |a| {
      ClearedUnique(a, b, x, y, r + 1);
      var z := y[r := x[r]];
      DotAgreeTo(a[r], x, z, |a|);
      DotUpdate(a[r], y, r, x[r]);
      assert Dot(a[r], x) == b[r] && Dot(a[r], y) == b[r];
      NonzeroCancels(a[r][r], x[r], y[r]);
    }
  }

  lemma NonzeroCancels(p: real, x: real, y: real)
    requires p != 0.0 && p * (x - y) == 0.0
    ensures x == y
  {
    var d := x - y;
    assert d == p * d / p;
  }

  /** The solver: an accepted answer is the one solution of the system it was given. */
  method SolveGaussian(a: seq<Vec>, b: Vec) returns (x: Vec, ok: bool)
    requires Square(a, b)
    ensures ok <==> Regular(a, b)
    ensures ok ==> Solves(a, b, x) && forall y :: Solves(a, b, y) ==> y == x
  {
    x := [];
    var a', b';
    ok, a', b' := Triangulate(a, b);
    if ok {
      x := BackSubstitute(a', b');
      forall y | Solves(a, b, y)
        ensures y == x
      {
        assert Solves(a', b', y);
        ClearedUnique(a', b', x, y, 0);
      }
    }
  }
}
