/**
 Minimisation by Bland pivots as a total function: anti-cycling bounds every run by
 the number of column subsets, so the run can always be completed, and where it ends
 no admissible column improves.
 */
module Minimization {
  import opened Vectors
  import opened Wrappers
  import opened Tableaus
  import opened Bland

  // ----- the number of bases

  function Power2(n: nat): (p: nat)
    ensures p >= 1
  {
    if n == 0 then 1 else 2 * Power2(n - 1)
  }

  ghost function With(family: set<set<nat>>, n: nat): set<set<nat>> {
    set s | s in family :: s + {n}
  }

  ghost function Subsets(n: nat): set<set<nat>> {
    if n == 0 then {{}} else Subsets(n - 1) + With(Subsets(n - 1), n - 1)
  }

  lemma {:induction false} InSubsets(s: set<nat>, n: nat)
    requires forall j :: j in s ==> j < n
    ensures s in Subsets(n)
  {
    if n == 0 {
      assert s == {};
    } else {
      InSubsets(s - {n - 1}, n - 1);
      assert n - 1 in s ==> s == (s - {n - 1}) + {n - 1};
      assert n - 1 !in s ==> s == s - {n - 1};
    }
  }

  lemma {:induction false} WithSize(family: set<set<nat>>, n: nat)
    ensures |With(family, n)| <= |family|
  {
    if family == {} {
      assert With(family, n) == {};
    } else {
      var f :| f in family;
      WithSize(family - {f}, n);
      assert With(family, n) == With(family - {f}, n) + {f + {n}};
    }
  }

  lemma UnionSize<T>(a: set<T>, b: set<T>)
    ensures |a + b| <= |a| + |b|
  {
    assert a + b == a + (b - a);
    assert |b - a| <= |b|;
  }

  /** Adding an element to every set at most doubles a family. */
  lemma DoubleSize(all: set<set<nat>>, family: set<set<nat>>, n: nat, bound: nat)
    requires all == family + With(family, n) && |family| <= bound
    ensures |all| <= 2 * bound
  {
    WithSize(family, n);
    UnionSize(family, With(family, n));
  }

  lemma OneSubset()
    ensures |Subsets(0)| == 1
  {
    var none: set<nat> := {};
    assert Subsets(0) == {none};
  }

  lemma {:induction false} SubsetsSize(n: nat)
    ensures |Subsets(n)| <= Power2(n)
  {
    if n == 0 {
      OneSubset();
    } else {
      SubsetsSize(n - 1);
      DoubleSize(Subsets(n), Subsets(n - 1), n - 1, Power2(n - 1));
    }
  }

  lemma {:induction false} DistinctSize<T>(xs: seq<T>)
    requires forall i, k :: 0 <= i < k < |xs| ==> xs[i] != xs[k]
    ensures |set x | x in xs| == |xs|
  {
    if xs == [] {
      assert (set x | x in xs) == {};
    } else {
      var init, last := xs[..|xs| - 1], xs[|xs| - 1];
      DistinctSize(init);
      assert xs == init + [last];
      assert (set x | x in xs) == (set x | x in init) + {last};
      assert last !in init;
    }
  }

  /** The pivot budget is only a work bound: a run never has more states than there are column subsets. */
  lemma RunIsShort(run: Run, cost: Vec, limit: nat)
    requires BlandRun(run, cost, limit)
    ensures |run.states| <= Power2(|cost|)
  {
    var bases := seq(|run.states|, i requires 0 <= i < |run.states| => BasisSet(run.states[i]));
    forall i, k | 0 <= i < k < |bases|
      ensures bases[i] != bases[k]
    {
      BlandNeverRevisits(run, cost, limit, i, k);
    }
    DistinctSize(bases);
    forall s | s in bases
      ensures s in Subsets(|cost|)
    {
      var i :| 0 <= i < |bases| && bases[i] == s;
      InSubsets(s, |cost|);
    }
    SubsetSize((set s | s in bases), Subsets(|cost|));
    SubsetsSize(|cost|);
  }

  // ----- the choices as functions

  /** The first column from `j` on with a negative reduced cost, or `limit`. */
  ghost function Entering(t: Tableau, cost: Vec, limit: nat, j: nat): (s: nat)
    requires Shaped(t) && |cost| == t.columns && j <= limit <= t.columns
    ensures j <= s <= limit
    decreases limit - j
  {
    if j == limit || Reduced(t, cost, j) < 0.0 then j else Entering(t, cost, limit, j + 1)
  }

  lemma {:induction false} EnteringChoice(t: Tableau, cost: Vec, limit: nat, j: nat)
    requires Shaped(t) && |cost| == t.columns && j <= limit <= t.columns
    requires forall k :: 0 <= k < j ==> Reduced(t, cost, k) >= 0.0
    ensures var s := Entering(t, cost, limit, j);
            if s < limit then Enters(t, cost, limit, s) else Optimal(t, cost, limit)
    decreases limit - j
  {
    if j < limit && Reduced(t, cost, j) >= 0.0 {
      EnteringChoice(t, cost, limit, j + 1);
    }
  }

  /** Whether row `i` beats row `r` as leaving row for column `s`. */
  ghost predicate Better(t: Tableau, s: nat, i: nat, r: nat)
    requires Shaped(t) && s < t.columns && i < |t.rows| && r < |t.rows|
    requires t.rows[i][s] > 0.0 && t.rows[r][s] > 0.0
  {
    Ratio(t, i, s) < Ratio(t, r, s) || (Ratio(t, i, s) == Ratio(t, r, s) && t.basis[i] < t.basis[r])
  }

  /** The best leaving row among the first `k`, or -1 when none has a positive entry. */
  ghost function Leaving(t: Tableau, s: nat, k: nat): (r: int)
    requires Shaped(t) && s < t.columns && k <= |t.rows|
    ensures -1 <= r < k && (r >= 0 ==> t.rows[r][s] > 0.0)
  {
    if k == 0 then -1 else
    var r := Leaving(t, s, k - 1);
    if t.rows[k - 1][s] > 0.0 && (r < 0 || Better(t, s, k - 1, r)) then k - 1 else r
  }

  lemma {:induction false} LeavingChoice(t: Tableau, s: nat, k: nat)
    requires Shaped(t) && s < t.columns && k <= |t.rows|
    ensures var r := Leaving(t, s, k);
            && (r < 0 ==> forall i :: 0 <= i < k ==> t.rows[i][s] <= 0.0)
            && (r >= 0 ==> forall i :: 0 <= i < k && t.rows[i][s] > 0.0 ==> !Better(t, s, i, r))
  {
    if k > 0 {
      LeavingChoice(t, s, k - 1);
    }
  }

  lemma LeavingIsBland(t: Tableau, s: nat)
    requires Shaped(t) && s < t.columns
    ensures var r := Leaving(t, s, |t.rows|); r >= 0 ==> Leaves(t, s, r)
  {
    LeavingChoice(t, s, |t.rows|);
  }

  ghost predicate Optimal(t: Tableau, cost: Vec, limit: nat)
    requires Shaped(t) && |cost| == t.columns && limit <= t.columns
  {
    forall j :: 0 <= j < limit ==> Reduced(t, cost, j) >= 0.0
  }

  /** With nonnegative costs no improving direction is unbounded: some row always leaves. */
  lemma SomeRowLeaves(t: Tableau, cost: Vec, s: nat)
    requires Canonical(t) && |cost| == t.columns && Nonnegative(cost)
    requires s < t.columns && Reduced(t, cost, s) < 0.0
    ensures Leaving(t, s, |t.rows|) >= 0
  {
    LeavingChoice(t, s, |t.rows|);
    if Leaving(t, s, |t.rows|) < 0 {
      EnteringIsNonbasic(t, cost, s);
      RayEntries(t, s);
      forall j | 0 <= j < |Ray(t, s)|
        ensures Ray(t, s)[j] >= 0.0
      {
        if j in t.basis {
          var i :| 0 <= i < |t.basis| && t.basis[i] == j;
        }
      }
      DotNonnegativeTo(cost + [0.0], Ray(t, s), |cost| + 1);
      ReducedIsRayCost(t, cost, s);
      assert false;
    }
  }

  // ----- completing a run

  ghost predicate Started(run: Run, cost: Vec, limit: nat) {
    BlandRun(run, cost, limit) && Nonnegative(cost)
  }

  ghost function Last(run: Run): Tableau
    requires |run.states| > 0
  {
    run.states[|run.states| - 1]
  }

  ghost function Extended(run: Run, s: nat, r: nat, next: Tableau): Run {
    Run(run.states + [next], run.entering + [s], run.leaving + [r])
  }

  lemma ExtendedIsRun(run: Run, cost: Vec, limit: nat, s: nat, r: nat)
    requires BlandRun(run, cost, limit) && Enters(Last(run), cost, limit, s) && Leaves(Last(run), s, r)
    ensures BlandRun(Extended(run, s, r, Pivoted(Last(run), r, s)), cost, limit)
  {
    var next := Pivoted(Last(run), r, s);
    var more := Extended(run, s, r, next);
    PivotProper(Last(run), r, s);
    forall i | 0 <= i < |more.entering|
      ensures StepAt(more, cost, limit, i)
    {
      if i < |run.entering| {
        assert StepAt(run, cost, limit, i);
      }
    }
  }

  /** What one more Bland pivot makes of a run whose last state is not optimal. */
  ghost function NextRun(run: Run, cost: Vec, limit: nat): (more: Run)
    requires Started(run, cost, limit) && Entering(Last(run), cost, limit, 0) < limit
    ensures Started(more, cost, limit) && |more.states| == |run.states| + 1
    ensures more.states[0] == run.states[0]
    ensures var s := Entering(Last(run), cost, limit, 0);
            var r := Leaving(Last(run), s, |Last(run).rows|);
            r >= 0 && Last(more) == Pivoted(Last(run), r, s)
  {
    var t := Last(run);
    var s := Entering(t, cost, limit, 0);
    EnteringChoice(t, cost, limit, 0);
    SomeRowLeaves(t, cost, s);
    var r := Leaving(t, s, |t.rows|);
    LeavingIsBland(t, s);
    ExtendedIsRun(run, cost, limit, s, r);
    Extended(run, s, r, Pivoted(t, r, s))
  }

  /** The run continued until no column below `limit` improves. Anti-cycling is what makes it end. */
  ghost function Completed(run: Run, cost: Vec, limit: nat): (done: Run)
    requires Started(run, cost, limit)
    ensures BlandRun(done, cost, limit) && done.states[0] == run.states[0]
    ensures Optimal(Last(done), cost, limit)
    decreases Power2(|cost|) - |run.states|
  {
    EnteringChoice(Last(run), cost, limit, 0);
    if Entering(Last(run), cost, limit, 0) == limit then run
    else
      var more := NextRun(run, cost, limit);
      RunIsShort(more, cost, limit);
      Completed(more, cost, limit)
  }

  ghost function Single(t: Tableau): Run {
    Run([t], [], [])
  }

  ghost predicate Minimizable(t: Tableau, cost: Vec, limit: nat) {
    Proper(t) && |cost| == t.columns && limit <= t.columns && Nonnegative(cost)
  }

  /** The tableau at which minimisation from `t` ends. */
  ghost function Minimized(t: Tableau, cost: Vec, limit: nat): (u: Tableau)
    requires Minimizable(t, cost, limit)
    ensures Proper(u) && u.columns == t.columns && Optimal(u, cost, limit)
  {
    Last(Completed(Single(t), cost, limit))
  }
}
