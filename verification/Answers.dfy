/**
 The answer the solver reports for a model, as a function, and the proof that the
 independent verifier accepts it: solver completeness at the level of values.
 */
module Answers {
  import opened Vectors
  import opened Inputs
  import opened Bland
  import opened Programs
  import opened Models
  import opened TwoPhase
  import opened Building
  import opened Certificates

  // ----- certificate tables

  /** The first `k` identifiers with their multipliers. */
  function TableTo(ids: seq<string>, v: Vec, k: nat): map<string, Exact>
    requires k <= |ids| && k <= |v|
  {
    if k == 0 then map[] else TableTo(ids, v, k - 1)[ids[k - 1] := Number(v[k - 1])]
  }

  lemma {:induction false} TableEntries(ids: seq<string>, v: Vec, k: nat)
    requires k <= |ids| && k <= |v| && DistinctSeq(ids)
    ensures |TableTo(ids, v, k)| == k
    ensures forall id :: id in TableTo(ids, v, k) <==> exists i :: 0 <= i < k && ids[i] == id
    ensures forall i :: 0 <= i < k ==> Lookup(TableTo(ids, v, k), ids[i]) == Number(v[i])
  {
    if k > 0 {
      TableEntries(ids, v, k - 1);
      var init, table := TableTo(ids, v, k - 1), TableTo(ids, v, k);
      assert ids[k - 1] !in init;
      forall i | 0 <= i < k
        ensures Lookup(table, ids[i]) == Number(v[i])
      {
        if i < k - 1 {
          assert ids[i] != ids[k - 1] && ids[i] in init;
        }
      }
      forall id
        ensures id in table <==> exists i :: 0 <= i < k && ids[i] == id
      {
        if id == ids[k - 1] {
          assert 0 <= k - 1 < k;
        }
      }
    }
  }

  lemma TableStated(ids: seq<string>, v: Vec)
    requires |v| == |ids| && DistinctSeq(ids)
    ensures AllStated(TableTo(ids, v, |ids|), ids) && Stated(TableTo(ids, v, |ids|), ids) == v
  {
    TableEntries(ids, v, |ids|);
  }

  lemma IdsDistinct<T(!new)>(xs: seq<T>, key: T -> string)
    requires DistinctKeys(xs, key)
    ensures DistinctSeq(Ids(xs, key))
  {
  }

  ghost function CertificateOf(m: Model, y: Vec): Certificate
    requires |y| == Slacks(m) + |m.requirements|
  {
    var a, s := |m.assets|, Slacks(m);
    Certificate(TableTo(Ids(m.assets, AssetKey), y[..a], a),
                TableTo(Ids(m.requirements, AgreementKey), y[s..], |m.requirements|),
                TableTo(Ids(m.limits, LimitKey), y[a..s], |m.limits|))
  }

  /** The tables state exactly the multipliers they were made from. */
  lemma CertificateStates(m: Model, y: Vec)
    requires ValidModel(m) && |y| == Slacks(m) + |m.requirements|
    ensures CompleteCertificate(m, CertificateOf(m, y)) && Multipliers(m, CertificateOf(m, y)) == y
  {
    var a, s := |m.assets|, Slacks(m);
    IdsDistinct(m.assets, AssetKey);
    IdsDistinct(m.requirements, AgreementKey);
    IdsDistinct(m.limits, LimitKey);
    TableStated(Ids(m.assets, AssetKey), y[..a]);
    TableStated(Ids(m.limits, LimitKey), y[a..s]);
    TableStated(Ids(m.requirements, AgreementKey), y[s..]);
    assert y == y[..a] + y[a..s] + y[s..];
  }

  // ----- allocations

  function AllocationOf(m: Model, x: Vec, j: nat): Allocation
    requires j < |m.edges| && j < |x| && m.edges[j].asset < |m.assets| && m.edges[j].requirement < |m.requirements|
  {
    var e := m.edges[j];
    Allocation(m.requirements[e.requirement].agreementId, m.assets[e.asset].id,
               Number(x[j]), Number(x[j] * e.coverage), Number(x[j] * e.cost))
  }

  /** The allocations on the first `k` edges that are used at all. */
  ghost function AllocationsTo(m: Model, x: Vec, k: nat): seq<Allocation>
    requires ValidModel(m) && |x| == |m.edges| && k <= |x|
  {
    if k == 0 then [] else
    assert ValidEdge(m, m.edges[k - 1]);
    AllocationsTo(m, x, k - 1) + if x[k - 1] == 0.0 then [] else [AllocationOf(m, x, k - 1)]
  }

  lemma {:induction false} UsedPrefix(s: seq<Allocation>, b: Allocation, n: nat, k: Key)
    requires n <= |s|
    ensures UsedTo(s + [b], n, k) == UsedTo(s, n, k)
  {
    if n > 0 {
      UsedPrefix(s, b, n - 1, k);
    }
  }

  lemma {:induction false} AllocationsUse(m: Model, x: Vec, k: nat, j: nat)
    requires ValidModel(m) && |x| == |m.edges| && k <= |x| && j < |x|
    ensures ValidEdge(m, m.edges[j])
    ensures var s := AllocationsTo(m, x, k); UsedTo(s, |s|, KeyAt(m, j)) == if j < k then x[j] else 0.0
  {
    assert ValidEdge(m, m.edges[j]);
    if k > 0 {
      AllocationsUse(m, x, k - 1, j);
      assert ValidEdge(m, m.edges[k - 1]);
      var s := AllocationsTo(m, x, k - 1);
      if x[k - 1] != 0.0 {
        var b := AllocationOf(m, x, k - 1);
        UsedPrefix(s, b, |s|, KeyAt(m, j));
        assert AllocationKey(b) == KeyAt(m, k - 1);
        if j != k - 1 {
          KeysDistinct(m, j, k - 1);
        }
      } else {
        assert AllocationsTo(m, x, k) == s;
      }
    }
  }

  lemma AllocationsPost(m: Model, x: Vec)
    requires ValidModel(m) && |x| == |m.edges|
    ensures Posting(m, AllocationsTo(m, x, |x|)) == x
  {
    forall j | 0 <= j < |x|
      ensures Posting(m, AllocationsTo(m, x, |x|))[j] == x[j]
    {
      AllocationsUse(m, x, |x|, j);
    }
  }

  lemma AllocationConsistent(m: Model, x: Vec, j: nat)
    requires ValidModel(m) && |x| == |m.edges| && Nonnegative(x) && j < |x| && x[j] != 0.0
    ensures ValidEdge(m, m.edges[j]) && Consistent(m, AllocationOf(m, x, j), j)
  {
    assert ValidEdge(m, m.edges[j]);
    assert x[j] * m.edges[j].coverage >= 0.0;
    assert x[j] * m.edges[j].cost >= 0.0;
  }

  /** Allocation `n` comes from edge `from[n]`, and edges are visited in order. */
  ghost predicate From(m: Model, x: Vec, s: seq<Allocation>, from: seq<nat>, k: nat)
    requires ValidModel(m) && |x| == |m.edges|
  {
    && |from| == |s|
    && (forall n :: 0 <= n < |s| ==>
          from[n] < k <= |x| && x[from[n]] != 0.0 && ValidEdge(m, m.edges[from[n]]) && s[n] == AllocationOf(m, x, from[n]))
    && (forall i, n :: 0 <= i < n < |s| ==> from[i] < from[n])
  }

  lemma {:induction false} AllocationsFrom(m: Model, x: Vec, k: nat) returns (from: seq<nat>)
    requires ValidModel(m) && |x| == |m.edges| && k <= |x|
    ensures From(m, x, AllocationsTo(m, x, k), from, k) && |from| <= k
  {
    from := [];
    if k > 0 {
      from := AllocationsFrom(m, x, k - 1);
      assert ValidEdge(m, m.edges[k - 1]);
      if x[k - 1] != 0.0 {
        from := from + [k - 1];
      }
    }
  }

  lemma AllocationsConsistent(m: Model, x: Vec)
    requires ValidModel(m) && |x| == |m.edges| && Nonnegative(x)
    ensures ConsistentAllocations(m, AllocationsTo(m, x, |x|)) && |AllocationsTo(m, x, |x|)| <= |m.edges|
  {
    var s := AllocationsTo(m, x, |x|);
    var from := AllocationsFrom(m, x, |x|);
    forall n | 0 <= n < |s|
      ensures ConsistentAllocation(m, s, n)
    {
      AllocationConsistent(m, x, from[n]);
      forall i | 0 <= i < n
        ensures AllocationKey(s[i]) != AllocationKey(s[n])
      {
        KeysDistinct(m, from[i], from[n]);
      }
    }
  }

  // ----- the answer

  ghost function FeasibleAnswer(m: Model, x: Vec, y: Vec, cost: real): AllocationResult
    requires ValidModel(m) && |x| == |m.edges| && |y| == Slacks(m) + |m.requirements|
  {
    AllocationResult(m.currency, true, AllocationsTo(m, x, |x|), Number(cost), CertificateOf(m, y))
  }

  ghost function InfeasibleAnswer(m: Model, y: Vec): AllocationResult
    requires ValidModel(m) && |y| == Slacks(m) + |m.requirements|
  {
    AllocationResult(m.currency, false, [], Number(0.0), CertificateOf(m, y))
  }

  /** What the solver reports for `m`. */
  ghost function Answer(m: Model): AllocationResult
    requires ValidModel(m)
  {
    var p := ProgramOf(m);
    if PhaseOneZero(p) then
      var t, c := PhaseTwo(p), PhaseTwoCost(p);
      FeasibleAnswer(m, Solution(t, |m.edges|), Duals(p, t, c), Objective(t, c))
    else
      InfeasibleAnswer(m, Duals(p, PhaseOne(p), PhaseOneCost(p)))
  }

  lemma FeasibleAnswerAccepted(m: Model, x: Vec, y: Vec, cost: real)
    requires ValidModel(m) && |x| == |m.edges| && |y| == Slacks(m) + |m.requirements|
    requires Feasible(ProgramOf(m), x) && DualFeasible(ProgramOf(m), y, ProgramOf(m).cost)
    requires Dot(ProgramOf(m).cost, x) == cost == Dot(y, ProgramOf(m).rhs) && cost >= 0.0
    ensures Accepts(m, FeasibleAnswer(m, x, y, cost))
  {
    CertificateStates(m, y);
    AllocationsConsistent(m, x);
    AllocationsPost(m, x);
  }

  lemma InfeasibleAnswerAccepted(m: Model, y: Vec)
    requires ValidModel(m) && |y| == Slacks(m) + |m.requirements|
    requires DualFeasible(ProgramOf(m), y, Zeros(|m.edges|)) && Dot(y, ProgramOf(m).rhs) > 0.0
    ensures Accepts(m, InfeasibleAnswer(m, y))
  {
    CertificateStates(m, y);
  }

  /** Solver completeness: the verifier accepts the answer to every model. */
  lemma AnswerAccepted(m: Model)
    requires ValidModel(m)
    ensures Accepts(m, Answer(m))
  {
    var p := ProgramOf(m);
    if PhaseOneZero(p) {
      PhaseTwoCertified(p);
      var t, c := PhaseTwo(p), PhaseTwoCost(p);
      FeasibleAnswerAccepted(m, Solution(t, |m.edges|), Duals(p, t, c), Objective(t, c));
    } else {
      PhaseOneCertified(p);
      InfeasibleAnswerAccepted(m, Duals(p, PhaseOne(p), PhaseOneCost(p)));
    }
  }
}
