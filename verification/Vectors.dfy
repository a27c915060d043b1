/**
 Exact linear algebra over real vectors: dot products, row combinations and the
 few exchange laws the solver, the verifier and the calibrator rest on.
 */
module Vectors {

  type Vec = seq<real>

  /** The sum of the first `k` products of `u` and `v`. */
  function DotTo(u: Vec, v: Vec, k: nat): real
    requires k <= |u| && k <= |v|
  {
    if k == 0 then 0.0 else DotTo(u, v, k - 1) + u[k - 1] * v[k - 1]
  }

  function Dot(u: Vec, v: Vec): real
    requires |u| == |v|
  {
    DotTo(u, v, |u|)
  }

  function Zeros(n: nat): (z: Vec)
    ensures |z| == n && forall i :: 0 <= i < n ==> z[i] == 0.0
  {
    seq(n, _ => 0.0)
  }

  function Unit(n: nat, p: nat): (e: Vec)
    requires p < n
    ensures |e| == n && forall i :: 0 <= i < n ==> e[i] == if i == p then 1.0 else 0.0
  {
    seq(n, i => if i == p then 1.0 else 0.0)
  }

  /** `u + c * v`, entry by entry. */
  function Axpy(u: Vec, c: real, v: Vec): (w: Vec)
    requires |u| == |v|
    ensures |w| == |u| && forall i :: 0 <= i < |w| ==> w[i] == u[i] + c * v[i]
  {
    seq(|u|, i requires 0 <= i < |u| => u[i] + c * v[i])
  }

  /** `v / p`, entry by entry. */
  function Quotient(v: Vec, p: real): (w: Vec)
    requires p != 0.0
    ensures |w| == |v| && forall i :: 0 <= i < |w| ==> w[i] == v[i] / p
  {
    seq(|v|, i requires 0 <= i < |v| => v[i] / p)
  }

  lemma SliceAxpy(u: Vec, c: real, v: Vec, lo: nat, hi: nat)
    requires |u| == |v| && lo <= hi <= |u|
    ensures Axpy(u, c, v)[lo..hi] == Axpy(u[lo..hi], c, v[lo..hi])
  {
    var whole, part := Axpy(u, c, v)[lo..hi], Axpy(u[lo..hi], c, v[lo..hi]);
    forall i | 0 <= i < hi - lo
      ensures whole[i] == part[i]
    {
      assert whole[i] == u[lo + i] + c * v[lo + i];
      assert u[lo..hi][i] == u[lo + i] && v[lo..hi][i] == v[lo + i];
    }
  }

  /** All entries at least zero. */
  predicate Nonnegative(v: Vec) {
    forall i :: 0 <= i < |v| ==> v[i] >= 0.0
  }

  predicate Matrix(rows: seq<Vec>, width: nat) {
    forall i :: 0 <= i < |rows| ==> |rows[i]| == width
  }

  /** The sum of `y[i] * rows[i][j]` over the first `k` rows. */
  function ColumnTo(y: Vec, rows: seq<Vec>, j: nat, k: nat): real
    requires k <= |y| && k <= |rows|
    requires forall i :: 0 <= i < k ==> j < |rows[i]|
  {
    if k == 0 then 0.0 else ColumnTo(y, rows, j, k - 1) + y[k - 1] * rows[k - 1][j]
  }

  /** The combination of the first `k` rows with weights `y`. */
  function CombineTo(y: Vec, rows: seq<Vec>, width: nat, k: nat): (w: Vec)
    requires k <= |y| && k <= |rows| && Matrix(rows, width)
    ensures |w| == width
  {
    if k == 0 then Zeros(width) else Axpy(CombineTo(y, rows, width, k - 1), y[k - 1], rows[k - 1])
  }

  function Combine(y: Vec, rows: seq<Vec>, width: nat): (w: Vec)
    requires |y| == |rows| && Matrix(rows, width)
    ensures |w| == width
  {
    CombineTo(y, rows, width, |rows|)
  }

  /** The vector of row values `rows[i] · x`. */
  function Image(rows: seq<Vec>, x: Vec): (w: Vec)
    requires Matrix(rows, |x|)
    ensures |w| == |rows| && forall i :: 0 <= i < |w| ==> w[i] == Dot(rows[i], x)
  {
    seq(|rows|, i requires 0 <= i < |rows| => Dot(rows[i], x))
  }

  lemma {:induction false} CombineAt(y: Vec, rows: seq<Vec>, width: nat, k: nat, j: nat)
    requires k <= |y| && k <= |rows| && Matrix(rows, width) && j < width
    ensures CombineTo(y, rows, width, k)[j] == ColumnTo(y, rows, j, k)
  {
    if k > 0 {
      CombineAt(y, rows, width, k - 1, j);
    }
  }

  lemma {:induction false} DotAxpyTo(u: Vec, c: real, v: Vec, x: Vec, k: nat)
    requires |u| == |v| && k <= |u| && k <= |x|
    ensures DotTo(Axpy(u, c, v), x, k) == DotTo(u, x, k) + c * DotTo(v, x, k)
  {
    if k > 0 {
      DotAxpyTo(u, c, v, x, k - 1);
      assert (u[k - 1] + c * v[k - 1]) * x[k - 1] == u[k - 1] * x[k - 1] + c * (v[k - 1] * x[k - 1]);
    }
  }

  lemma DotAxpy(u: Vec, c: real, v: Vec, x: Vec)
    requires |u| == |v| == |x|
    ensures Dot(Axpy(u, c, v), x) == Dot(u, x) + c * Dot(v, x)
  {
    DotAxpyTo(u, c, v, x, |u|);
  }

  lemma {:induction false} DotSymmetricTo(u: Vec, v: Vec, k: nat)
    requires k <= |u| && k <= |v|
    ensures DotTo(u, v, k) == DotTo(v, u, k)
  {
    if k > 0 {
      DotSymmetricTo(u, v, k - 1);
    }
  }

  lemma DotAxpyRight(x: Vec, u: Vec, c: real, v: Vec)
    requires |u| == |v| == |x|
    ensures Dot(x, Axpy(u, c, v)) == Dot(x, u) + c * Dot(x, v)
  {
    DotAxpy(u, c, v, x);
    DotSymmetricTo(x, Axpy(u, c, v), |x|);
    DotSymmetricTo(x, u, |x|);
    DotSymmetricTo(x, v, |x|);
  }

  lemma {:induction false} DotQuotientTo(v: Vec, p: real, x: Vec, k: nat)
    requires p != 0.0 && k <= |v| && k <= |x|
    ensures DotTo(Quotient(v, p), x, k) == DotTo(v, x, k) / p
  {
    if k > 0 {
      DotQuotientTo(v, p, x, k - 1);
      assert v[k - 1] / p * x[k - 1] == v[k - 1] * x[k - 1] / p;
    }
  }

  lemma {:induction false} DotZeroTo(u: Vec, v: Vec, k: nat)
    requires k <= |u| && k <= |v|
    requires forall i :: 0 <= i < k ==> u[i] == 0.0 || v[i] == 0.0
    ensures DotTo(u, v, k) == 0.0
  {
    if k > 0 {
      DotZeroTo(u, v, k - 1);
    }
  }

  /** Changing one entry of the right factor moves the dot product by that entry's share. */
  lemma {:induction false} DotUpdateTo(u: Vec, v: Vec, p: nat, a: real, k: nat)
    requires k <= |u| && k <= |v| && p < |v|
    ensures DotTo(u, v[p := a], k) == DotTo(u, v, k) + if p < k then u[p] * (a - v[p]) else 0.0
  {
    if k > 0 {
      DotUpdateTo(u, v, p, a, k - 1);
      if p == k - 1 {
        assert u[p] * a == u[p] * v[p] + u[p] * (a - v[p]);
      }
    }
  }

  lemma DotUpdate(u: Vec, v: Vec, p: nat, a: real)
    requires |u| == |v| && p < |v|
    ensures Dot(u, v[p := a]) == Dot(u, v) + u[p] * (a - v[p])
  {
    DotUpdateTo(u, v, p, a, |u|);
  }

  lemma DotUnit(u: Vec, p: nat)
    requires p < |u|
    ensures Dot(u, Unit(|u|, p)) == u[p]
  {
    var z := Zeros(|u|);
    assert z[p := 1.0] == Unit(|u|, p);
    DotZeroTo(u, z, |u|);
    DotUpdate(u, z, p, 1.0);
  }

  /** Only the entries `p` and `q` contribute. */
  lemma DotTwo(u: Vec, v: Vec, p: nat, q: nat)
    requires |u| == |v| && p < |u| && q < |u| && p != q
    requires forall i :: 0 <= i < |u| && i != p && i != q ==> u[i] == 0.0 || v[i] == 0.0
    ensures Dot(u, v) == u[p] * v[p] + u[q] * v[q]
  {
    var w := v[p := 0.0][q := 0.0];
    DotZeroTo(u, w, |u|);
    DotUpdate(u, w, p, v[p]);
    DotUpdate(u, w[p := v[p]], q, v[q]);
    assert w[p := v[p]][q := v[q]] == v;
  }

  /** Pairing a combination of rows with `x` pairs the weights with the row values. */
  lemma {:induction false} CombineDotTo(y: Vec, rows: seq<Vec>, x: Vec, k: nat)
    requires k <= |y| && k <= |rows| && Matrix(rows, |x|)
    ensures Dot(CombineTo(y, rows, |x|, k), x) == DotTo(y, Image(rows, x), k)
  {
    if k == 0 {
      DotZeroTo(Zeros(|x|), x, |x|);
    } else {
      CombineDotTo(y, rows, x, k - 1);
      DotAxpy(CombineTo(y, rows, |x|, k - 1), y[k - 1], rows[k - 1], x);
    }
  }

  lemma CombineDot(y: Vec, rows: seq<Vec>, x: Vec)
    requires |y| == |rows| && Matrix(rows, |x|)
    ensures Dot(Combine(y, rows, |x|), x) == Dot(y, Image(rows, x))
  {
    CombineDotTo(y, rows, x, |rows|);
  }

  /** Column `j` has a single nonzero product, at row `p`. */
  lemma {:induction false} ColumnSingle(y: Vec, rows: seq<Vec>, j: nat, k: nat, p: nat)
    requires k <= |y| && k <= |rows|
    requires forall i :: 0 <= i < k ==> j < |rows[i]|
    requires forall i :: 0 <= i < k && i != p ==> rows[i][j] == 0.0
    ensures ColumnTo(y, rows, j, k) == if p < k then y[p] * rows[p][j] else 0.0
  {
    if k > 0 {
      ColumnSingle(y, rows, j, k - 1, p);
    }
  }

  lemma {:induction false} ColumnIsDot(y: Vec, rows: seq<Vec>, j: nat, v: Vec, k: nat)
    requires k <= |y| && k <= |rows| && k <= |v|
    requires forall i :: 0 <= i < k ==> j < |rows[i]| && rows[i][j] == v[i]
    ensures ColumnTo(y, rows, j, k) == DotTo(y, v, k)
  {
    if k > 0 {
      ColumnIsDot(y, rows, j, v, k - 1);
    }
  }

  lemma {:induction false} DotNonnegativeTo(u: Vec, v: Vec, k: nat)
    requires k <= |u| && k <= |v|
    requires forall i :: 0 <= i < k ==> u[i] >= 0.0 && v[i] >= 0.0
    ensures DotTo(u, v, k) >= 0.0
  {
    if k > 0 {
      DotNonnegativeTo(u, v, k - 1);
    }
  }

  /** Entrywise order on products carries over to dot products. */
  lemma {:induction false} DotMonotoneTo(u: Vec, v: Vec, s: Vec, t: Vec, k: nat)
    requires k <= |u| && k <= |v| && k <= |s| && k <= |t|
    requires forall i :: 0 <= i < k ==> u[i] * v[i] <= s[i] * t[i]
    ensures DotTo(u, v, k) <= DotTo(s, t, k)
  {
    if k > 0 {
      DotMonotoneTo(u, v, s, t, k - 1);
    }
  }

  /** A dot product only reads the first `k` entries. */
  lemma {:induction false} DotPrefixTo(u: Vec, v: Vec, s: Vec, t: Vec, k: nat)
    requires k <= |u| && k <= |v| && k <= |s| && k <= |t|
    requires forall i :: 0 <= i < k ==> u[i] == s[i] && v[i] == t[i]
    ensures DotTo(u, v, k) == DotTo(s, t, k)
  {
    if k > 0 {
      DotPrefixTo(u, v, s, t, k - 1);
    }
  }

  /** Where the left factor is nonzero the right factors agree. */
  lemma {:induction false} DotAgreeTo(u: Vec, v: Vec, t: Vec, k: nat)
    requires k <= |u| && k <= |v| && k <= |t|
    requires forall i :: 0 <= i < k ==> u[i] == 0.0 || v[i] == t[i]
    ensures DotTo(u, v, k) == DotTo(u, t, k)
  {
    if k > 0 {
      DotAgreeTo(u, v, t, k - 1);
    }
  }

  /** A dot product splits at any position. */
  lemma {:induction false} DotSplitTo(u: Vec, v: Vec, p: nat, k: nat)
    requires |u| == |v| && p + k <= |u|
    ensures DotTo(u, v, p + k) == DotTo(u, v, p) + DotTo(u[p..], v[p..], k)
  {
    if k > 0 {
      DotSplitTo(u, v, p, k - 1);
      assert u[p..][k - 1] == u[p + k - 1] && v[p..][k - 1] == v[p + k - 1];
    }
  }

  lemma DotAppend(u: Vec, v: Vec, s: Vec, t: Vec)
    requires |u| == |v| && |s| == |t|
    ensures Dot(u + s, v + t) == Dot(u, v) + Dot(s, t)
  {
    DotSplitTo(u + s, v + t, |u|, |s|);
    assert (u + s)[|u|..] == s && (v + t)[|v|..] == t;
    DotPrefixTo(u + s, v + t, u, v, |u|);
  }

  lemma DotAppendThree(u: Vec, v: Vec, w: Vec, a: Vec, b: Vec, c: Vec)
    requires |u| == |a| && |v| == |b| && |w| == |c|
    ensures Dot(u + v + w, a + b + c) == Dot(u, a) + Dot(v, b) + Dot(w, c)
  {
    DotAppend(u + v, a + b, w, c);
    DotAppend(u, a, v, b);
  }

  /** Pairing with a vector whose only entry is `a`, at `p`. */
  lemma DotSingle(u: Vec, p: nat, a: real)
    requires p < |u|
    ensures Dot(u, Zeros(|u|)[p := a]) == u[p] * a
  {
    DotZeroTo(u, Zeros(|u|), |u|);
    DotUpdate(u, Zeros(|u|), p, a);
  }
}
