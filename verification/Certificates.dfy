/**
 The independent verifier. It trusts neither basis nor pivot history: it rebuilds the
 model, prices every edge with the stated multipliers, re-adds every posting and accepts
 exactly the results whose duality certificate is complete.
 */
module Certificates {
  import opened Vectors
  import opened Inputs
  import opened Programs
  import opened Models

  // ----- what is accepted

  function Lookup(table: map<string, Exact>, id: string): Exact {
    if id in table then table[id] else Unavailable
  }

  /** The stated multipliers in identifier order. */
  ghost function Stated(table: map<string, Exact>, ids: seq<string>): (v: Vec)
    ensures |v| == |ids| && forall i :: 0 <= i < |v| ==> v[i] == Value(Lookup(table, ids[i]))
  {
    seq(|ids|, i requires 0 <= i < |ids| => Value(Lookup(table, ids[i])))
  }

  ghost predicate AllStated(table: map<string, Exact>, ids: seq<string>) {
    |table| == |ids| && forall i :: 0 <= i < |ids| ==> Lookup(table, ids[i]).Number?
  }

  function Ids<T>(xs: seq<T>, key: T -> string): (ids: seq<string>)
    ensures |ids| == |xs| && forall i :: 0 <= i < |ids| ==> ids[i] == key(xs[i])
  {
    seq(|xs|, i requires 0 <= i < |xs| => key(xs[i]))
  }

  /** One multiplier per program row: capacities, limits, coverages. */
  ghost function Multipliers(m: Model, c: Certificate): (y: Vec)
    ensures |y| == |m.assets| + |m.limits| + |m.requirements|
  {
    Stated(c.capacity, Ids(m.assets, AssetKey)) + Stated(c.limits, Ids(m.limits, LimitKey))
    + Stated(c.coverage, Ids(m.requirements, AgreementKey))
  }

  ghost predicate CompleteCertificate(m: Model, c: Certificate) {
    && AllStated(c.capacity, Ids(m.assets, AssetKey)) && AllStated(c.limits, Ids(m.limits, LimitKey))
    && AllStated(c.coverage, Ids(m.requirements, AgreementKey))
  }

  /** The identifiers of edge `j`. */
  function KeyAt(m: Model, j: nat): Key
    requires j < |m.edges| && m.edges[j].asset < |m.assets| && m.edges[j].requirement < |m.requirements|
  {
    EdgeKey(m.assets, m.requirements, m.edges[j])
  }

  function AllocationKey(a: Allocation): Key { (a.assetId, a.agreementId) }

  /** The value used on key `k` by the first `n` allocations. */
  function UsedTo(allocations: seq<Allocation>, n: nat, k: Key): real
    requires n <= |allocations|
  {
    if n == 0 then 0.0
    else if AllocationKey(allocations[n - 1]) == k then Value(allocations[n - 1].used)
    else UsedTo(allocations, n - 1, k)
  }

  /** The posting on every edge made by the first `n` allocations. */
  ghost function PostingTo(m: Model, allocations: seq<Allocation>, n: nat): (x: Vec)
    requires ValidModel(m) && n <= |allocations|
    ensures |x| == |m.edges| && forall j :: 0 <= j < |x| ==> ValidEdge(m, m.edges[j]) && x[j] == UsedTo(allocations, n, KeyAt(m, j))
  {
    assert forall j :: 0 <= j < |m.edges| ==> ValidEdge(m, m.edges[j]);
    seq(|m.edges|, j requires 0 <= j < |m.edges| => UsedTo(allocations, n, KeyAt(m, j)))
  }

  ghost function Posting(m: Model, allocations: seq<Allocation>): (x: Vec)
    requires ValidModel(m)
    ensures |x| == |m.edges|
  {
    PostingTo(m, allocations, |allocations|)
  }

  /** Allocation `a` states exactly what edge `j` makes of its value. */
  ghost predicate Consistent(m: Model, a: Allocation, j: nat)
    requires ValidModel(m)
  {
    && j < |m.edges| && ValidEdge(m, m.edges[j]) && KeyAt(m, j) == AllocationKey(a)
    && Amount(a.used) && Amount(a.posted) && Amount(a.cost) && a.used.value > 0.0
    && a.posted.value == a.used.value * m.edges[j].coverage && a.cost.value == a.used.value * m.edges[j].cost
  }

  ghost predicate ConsistentAllocation(m: Model, allocations: seq<Allocation>, n: nat)
    requires ValidModel(m) && n < |allocations|
  {
    && (exists j :: Consistent(m, allocations[n], j))
    && (forall i :: 0 <= i < n ==> AllocationKey(allocations[i]) != AllocationKey(allocations[n]))
  }

  ghost predicate ConsistentAllocations(m: Model, allocations: seq<Allocation>)
    requires ValidModel(m)
  {
    forall n :: 0 <= n < |allocations| ==> ConsistentAllocation(m, allocations, n)
  }

  /** The costs a feasible or an infeasible answer is priced against. */
  ghost function PricedAgainst(m: Model, feasible: bool): (c: Vec)
    ensures |c| == |m.edges|
  {
    if feasible then EdgeCosts(m.edges) else Zeros(|m.edges|)
  }

  /** The certificate prices the program and the stated answer closes the duality gap. */
  ghost predicate Accepts(m: Model, result: AllocationResult)
    requires ValidModel(m)
  {
    var p, y := ProgramOf(m), Multipliers(m, result.certificate);
    && result.currency == m.currency && |result.allocations| <= |m.edges|
    && CompleteCertificate(m, result.certificate)
    && DualFeasible(p, y, PricedAgainst(m, result.feasible))
    && Amount(result.cost)
    && if result.feasible then
         && ConsistentAllocations(m, result.allocations)
         && Feasible(p, Posting(m, result.allocations))
         && Dot(p.cost, Posting(m, result.allocations)) == result.cost.value == Dot(y, p.rhs)
       else
         result.allocations == [] && result.cost.value == 0.0 && Dot(y, p.rhs) > 0.0
  }

  /** Soundness: an accepted feasible answer is a least-cost allocation, also against over-posting. */
  lemma AcceptedIsOptimal(m: Model, result: AllocationResult, other: Vec)
    requires ValidModel(m) && Accepts(m, result) && result.feasible
    requires Covering(ProgramOf(m), other)
    ensures Feasible(ProgramOf(m), Posting(m, result.allocations))
    ensures result.cost.value <= Dot(ProgramOf(m).cost, other)
  {
    var p := ProgramOf(m);
    ProgramOwned(m);
    ExactCoverageLosesNothing(p, Owners(m), other);
    var z :| Feasible(p, z) && Dot(p.cost, z) <= Dot(p.cost, other);
    CertifiedOptimum(p, Multipliers(m, result.certificate), Posting(m, result.allocations), z);
  }

  /** Soundness: an accepted infeasible answer rules out every allocation, over-posting included. */
  lemma AcceptedIsInfeasible(m: Model, result: AllocationResult, other: Vec)
    requires ValidModel(m) && Accepts(m, result) && !result.feasible
    ensures !Covering(ProgramOf(m), other)
  {
    var p := ProgramOf(m);
    if Covering(p, other) {
      ProgramOwned(m);
      ExactCoverageLosesNothing(p, Owners(m), other);
      var z :| Feasible(p, z) && Dot(p.cost, z) <= Dot(p.cost, other);
      CertifiedInfeasible(p, Multipliers(m, result.certificate), z);
      assert false;
    }
  }

  // ----- multipliers

  /** Every identifier has a number, not a positive one when the rows are bounds. */
  ghost predicate Readable(table: map<string, Exact>, ids: seq<string>, bounds: bool) {
    forall i :: 0 <= i < |ids| ==>
      Lookup(table, ids[i]).Number? && (bounds ==> Value(Lookup(table, ids[i])) <= 0.0)
  }

  /** Reads one table of multipliers and adds up their products with the right-hand sides. */
  method ReadMultipliers(table: map<string, Exact>, ids: seq<string>, rhs: Vec, bounds: bool)
    returns (ok: bool, values: Vec, sum: real)
    requires |rhs| == |ids|
    ensures ok <==> Readable(table, ids, bounds)
    ensures ok ==> values == Stated(table, ids) && sum == Dot(values, rhs)
  {
    values, sum := [], 0.0;
    for i := 0 to |ids|
      invariant |values| == i && sum == DotTo(Stated(table, ids), rhs, i)
      invariant forall k :: 0 <= k < i ==>
                  && Lookup(table, ids[k]).Number? && (bounds ==> Lookup(table, ids[k]).value <= 0.0)
                  && values[k] == Stated(table, ids)[k]
    {
      var v := Lookup(table, ids[i]);
      if v.Unavailable? || (bounds && v.value > 0.0) {
        return false, values, sum;
      }
      values := values + [v.value];
      sum := sum + v.value * rhs[i];
    }
    ok := true;
  }

  /** The weights of edge `j` in all limits. */
  ghost function WeightColumn(m: Model, j: nat): (v: Vec)
    requires ModelShape(m) && j < |m.edges|
    ensures |v| == |m.limits| && forall k :: 0 <= k < |v| ==> v[k] == m.limitWeights[k][j]
  {
    seq(|m.limits|, k requires 0 <= k < |m.limits| => m.limitWeights[k][j])
  }

  /** The column of edge `j`: one unit of its asset, its limit weights, its coverage. */
  ghost function EdgeColumn(m: Model, j: nat): (v: Vec)
    requires ModelShape(m) && j < |m.edges| && ValidEdge(m, m.edges[j])
    ensures |v| == Slacks(m) + |m.requirements|
  {
    Unit(|m.assets|, m.edges[j].asset) + WeightColumn(m, j)
    + Zeros(|m.requirements|)[m.edges[j].requirement := m.edges[j].coverage]
  }

  lemma EdgeColumnEntry(m: Model, i: nat, j: nat)
    requires ModelShape(m) && j < |m.edges| && ValidEdge(m, m.edges[j]) && i < Slacks(m) + |m.requirements|
    ensures ProgramRows(m)[i][j] == EdgeColumn(m, j)[i]
  {
    EntryOf(m, i, j);
  }

  lemma ColumnIsEdgeColumn(m: Model, y: Vec, j: nat)
    requires ModelShape(m) && j < |m.edges| && ValidEdge(m, m.edges[j]) && |y| == Slacks(m) + |m.requirements|
    ensures Matrix(ProgramRows(m), |m.edges|)
    ensures ColumnTo(y, ProgramRows(m), j, |y|) == Dot(y, EdgeColumn(m, j))
  {
    forall i | 0 <= i < |y|
      ensures ProgramRows(m)[i][j] == EdgeColumn(m, j)[i]
    {
      EdgeColumnEntry(m, i, j);
    }
    ColumnIsDot(y, ProgramRows(m), j, EdgeColumn(m, j), |y|);
  }

  lemma EdgeColumnPrice(m: Model, capacity: Vec, limitDual: Vec, coverage: Vec, j: nat)
    requires ModelShape(m) && j < |m.edges| && ValidEdge(m, m.edges[j])
    requires |capacity| == |m.assets| && |limitDual| == |m.limits| && |coverage| == |m.requirements|
    ensures Dot(capacity + limitDual + coverage, EdgeColumn(m, j))
            == capacity[m.edges[j].asset] + Dot(limitDual, WeightColumn(m, j))
               + coverage[m.edges[j].requirement] * m.edges[j].coverage
  {
    var e := m.edges[j];
    DotAppendThree(capacity, limitDual, coverage, Unit(|m.assets|, e.asset), WeightColumn(m, j),
                   Zeros(|m.requirements|)[e.requirement := e.coverage]);
    DotUnit(capacity, e.asset);
    DotSingle(coverage, e.requirement, e.coverage);
  }

  lemma DualValueSplit(m: Model, capacity: Vec, limitDual: Vec, coverage: Vec)
    requires ValidModel(m)
    requires |capacity| == |m.assets| && |limitDual| == |m.limits| && |coverage| == |m.requirements|
    ensures Dot(capacity + limitDual + coverage, ProgramOf(m).rhs)
            == Dot(limitDual, m.limitValues) + Dot(capacity, m.available) + Dot(coverage, m.need)
  {
    DotAppendThree(capacity, limitDual, coverage, m.available, m.limitValues, m.need);
  }

  // ----- pricing every edge

  method EdgeBound(m: Model, capacity: Vec, limitDual: Vec, coverage: Vec, j: nat) returns (bound: real)
    requires ModelShape(m) && j < |m.edges| && ValidEdge(m, m.edges[j])
    requires |capacity| == |m.assets| && |limitDual| == |m.limits| && |coverage| == |m.requirements|
    ensures bound == Dot(capacity + limitDual + coverage, EdgeColumn(m, j))
  {
    var e := m.edges[j];
    bound := 0.0;
    for i := 0 to |m.limits|
      invariant bound == DotTo(limitDual, WeightColumn(m, j), i)
    {
      bound := bound + limitDual[i] * m.limitWeights[i][j];
    }
    bound := capacity[e.asset] + coverage[e.requirement] * e.coverage + bound;
    EdgeColumnPrice(m, capacity, limitDual, coverage, j);
  }

  /** Edge `j` is priced at most at its cost. */
  ghost predicate PricedBelow(m: Model, y: Vec, feasible: bool, j: nat)
    requires ValidModel(m) && |y| == Slacks(m) + |m.requirements| && j < |m.edges|
  {
    ValidEdge(m, m.edges[j]) && Dot(y, EdgeColumn(m, j)) <= if feasible then m.edges[j].cost else 0.0
  }

  lemma PricedBelowIsColumn(m: Model, y: Vec, feasible: bool, j: nat)
    requires ValidModel(m) && |y| == Slacks(m) + |m.requirements| && j < |m.edges|
    ensures Matrix(ProgramRows(m), |m.edges|)
    ensures PricedBelow(m, y, feasible, j) <==> ColumnTo(y, ProgramRows(m), j, |y|) <= PricedAgainst(m, feasible)[j]
  {
    assert ValidEdge(m, m.edges[j]);
    ColumnIsEdgeColumn(m, y, j);
  }

  /** Checks that no edge is priced above its cost. */
  method PriceEdges(m: Model, feasible: bool, capacity: Vec, limitDual: Vec, coverage: Vec) returns (ok: bool)
    requires ValidModel(m)
    requires |capacity| == |m.assets| && |limitDual| == |m.limits| && |coverage| == |m.requirements|
    ensures ok <==> forall j :: 0 <= j < |m.edges| ==> PricedBelow(m, capacity + limitDual + coverage, feasible, j)
  {
    for j := 0 to |m.edges|
      invariant forall k :: 0 <= k < j ==> PricedBelow(m, capacity + limitDual + coverage, feasible, k)
    {
      assert ValidEdge(m, m.edges[j]);
      var bound := EdgeBound(m, capacity, limitDual, coverage, j);
      var cost := if feasible then m.edges[j].cost else 0.0;
      if bound > cost {
        assert !PricedBelow(m, capacity + limitDual + coverage, feasible, j);
        return false;
      }
    }
    return true;
  }

  // ----- adding up the allocations

  /** What a posting uses, covers and costs. */
  ghost predicate Totals(m: Model, x: Vec, used: Vec, posted: Vec, limitUsed: Vec, total: real)
    requires ModelShape(m) && |x| == |m.edges|
  {
    && |used| == |m.assets| && |posted| == |m.requirements| && |limitUsed| == |m.limits|
    && (forall i :: 0 <= i < |used| ==> used[i] == Dot(CapacityRow(m.edges, i), x))
    && (forall i :: 0 <= i < |posted| ==> posted[i] == Dot(CoverageRow(m.edges, i), x))
    && (forall i :: 0 <= i < |limitUsed| ==> limitUsed[i] == Dot(m.limitWeights[i], x))
    && total == Dot(EdgeCosts(m.edges), x)
  }

  lemma UsedStep(edges: seq<Edge>, x: Vec, used: Vec, j: nat, v: real)
    requires |x| == |edges| && j < |x| && x[j] == 0.0 && edges[j].asset < |used|
    requires forall i :: 0 <= i < |used| ==> used[i] == Dot(CapacityRow(edges, i), x)
    ensures forall i :: 0 <= i < |used| ==>
              used[edges[j].asset := used[edges[j].asset] + v][i] == Dot(CapacityRow(edges, i), x[j := v])
  {
    forall i | 0 <= i < |used|
      ensures used[edges[j].asset := used[edges[j].asset] + v][i] == Dot(CapacityRow(edges, i), x[j := v])
    {
      DotUpdate(CapacityRow(edges, i), x, j, v);
    }
  }

  lemma PostedStep(edges: seq<Edge>, x: Vec, posted: Vec, j: nat, v: real, post: real)
    requires |x| == |edges| && j < |x| && x[j] == 0.0 && edges[j].requirement < |posted| && post == v * edges[j].coverage
    requires forall i :: 0 <= i < |posted| ==> posted[i] == Dot(CoverageRow(edges, i), x)
    ensures forall i :: 0 <= i < |posted| ==>
              posted[edges[j].requirement := posted[edges[j].requirement] + post][i]
              == Dot(CoverageRow(edges, i), x[j := v])
  {
    forall i | 0 <= i < |posted|
      ensures posted[edges[j].requirement := posted[edges[j].requirement] + post][i]
              == Dot(CoverageRow(edges, i), x[j := v])
    {
      DotUpdate(CoverageRow(edges, i), x, j, v);
    }
  }

  method AddLimitUse(weights: seq<Vec>, limitUsed: Vec, ghost x: Vec, j: nat, v: real) returns (out: Vec)
    requires Matrix(weights, |x|) && |limitUsed| == |weights| && j < |x| && x[j] == 0.0
    requires forall i :: 0 <= i < |limitUsed| ==> limitUsed[i] == Dot(weights[i], x)
    ensures |out| == |weights| && forall i :: 0 <= i < |out| ==> out[i] == Dot(weights[i], x[j := v])
  {
    out := limitUsed;
    for i := 0 to |weights|
      invariant |out| == |weights|
      invariant forall k :: 0 <= k < i ==> out[k] == Dot(weights[k], x[j := v])
      invariant forall k :: i <= k < |out| ==> out[k] == limitUsed[k]
    {
      DotUpdate(weights[i], x, j, v);
      out := out[i := out[i] + v * weights[i][j]];
    }
  }

  lemma KeysDistinct(m: Model, i: nat, j: nat)
    requires ValidModel(m) && i < |m.edges| && j < |m.edges| && i != j
    ensures ValidEdge(m, m.edges[i]) && ValidEdge(m, m.edges[j]) && KeyAt(m, i) != KeyAt(m, j)
  {
    assert ValidEdge(m, m.edges[i]) && ValidEdge(m, m.edges[j]);
    assert Before(m.edges[i], m.edges[j]) || Before(m.edges[j], m.edges[i]);
    if m.edges[i].requirement != m.edges[j].requirement {
      DistinctKeysApart(m.requirements, AgreementKey, m.edges[i].requirement, m.edges[j].requirement);
    } else {
      DistinctKeysApart(m.assets, AssetKey, m.edges[i].asset, m.edges[j].asset);
    }
  }

  lemma {:induction false} UnusedIsZero(allocations: seq<Allocation>, n: nat, k: Key)
    requires n <= |allocations| && forall i :: 0 <= i < n ==> AllocationKey(allocations[i]) != k
    ensures UsedTo(allocations, n, k) == 0.0
  {
    if n > 0 {
      UnusedIsZero(allocations, n - 1, k);
    }
  }

  /** One more allocation changes the posting on its own edge only. */
  lemma PostingStep(m: Model, allocations: seq<Allocation>, n: nat, j: nat)
    requires ValidModel(m) && n < |allocations| && Consistent(m, allocations[n], j)
    requires forall i :: 0 <= i < n ==> AllocationKey(allocations[i]) != AllocationKey(allocations[n])
    ensures PostingTo(m, allocations, n)[j] == 0.0
    ensures PostingTo(m, allocations, n + 1) == PostingTo(m, allocations, n)[j := allocations[n].used.value]
  {
    UnusedIsZero(allocations, n, KeyAt(m, j));
    var x, next := PostingTo(m, allocations, n), PostingTo(m, allocations, n + 1);
    forall i | 0 <= i < |x|
      ensures next[i] == x[j := allocations[n].used.value][i]
    {
      if i != j {
        KeysDistinct(m, i, j);
      }
    }
  }

  method IndexByKey(m: Model) returns (index: map<Key, nat>)
    requires ValidModel(m)
    ensures KeyIndex(m, index)
  {
    index := map[];
    for j := 0 to |m.edges|
      invariant forall k :: k in index ==> index[k] < |m.edges| && ValidEdge(m, m.edges[index[k]]) && KeyAt(m, index[k]) == k
      invariant forall i :: 0 <= i < j ==> ValidEdge(m, m.edges[i]) && KeyAt(m, i) in index
    {
      assert ValidEdge(m, m.edges[j]);
      index := index[KeyAt(m, j) := j];
    }
  }

  /** The allocations considered so far are consistent and their keys are in `seen`. */
  ghost predicate ConsistentTo(m: Model, allocations: seq<Allocation>, n: nat, seen: set<Key>)
    requires ValidModel(m)
  {
    && n <= |allocations|
    && (forall i :: 0 <= i < n ==> ConsistentAllocation(m, allocations, i))
    && (forall k :: k in seen <==> exists i :: 0 <= i < n && AllocationKey(allocations[i]) == k)
  }

  lemma ConsistentStep(m: Model, allocations: seq<Allocation>, n: nat, seen: set<Key>)
    requires ValidModel(m) && n < |allocations| && ConsistentTo(m, allocations, n, seen)
    requires ConsistentAllocation(m, allocations, n)
    ensures ConsistentTo(m, allocations, n + 1, seen + {AllocationKey(allocations[n])})
  {
    SeenStep(allocations, n, seen);
  }

  lemma NothingPosted(m: Model, allocations: seq<Allocation>)
    requires ValidModel(m)
    ensures Added(m, allocations, 0, Zeros(|m.assets|), Zeros(|m.requirements|), Zeros(|m.limits|), 0.0)
  {
    var x := PostingTo(m, allocations, 0);
    forall row: Vec | |row| == |x|
      ensures Dot(row, x) == 0.0
    {
      DotZeroTo(row, x, |x|);
    }
  }

  lemma TotalStep(m: Model, x: Vec, total: real, j: nat, v: real, cost: real)
    requires ModelShape(m) && |x| == |m.edges| && j < |x| && x[j] == 0.0 && total == Dot(EdgeCosts(m.edges), x)
    requires cost == v * m.edges[j].cost
    ensures total + cost == Dot(EdgeCosts(m.edges), x[j := v])
  {
    DotUpdate(EdgeCosts(m.edges), x, j, v);
  }

  lemma SeenStep(allocations: seq<Allocation>, n: nat, seen: set<Key>)
    requires n < |allocations|
    requires forall k :: k in seen <==> exists i :: 0 <= i < n && AllocationKey(allocations[i]) == k
    ensures forall k :: k in seen + {AllocationKey(allocations[n])} <==>
                          exists i :: 0 <= i < n + 1 && AllocationKey(allocations[i]) == k
  {
    forall k
      ensures k in seen + {AllocationKey(allocations[n])} <==>
                exists i :: 0 <= i < n + 1 && AllocationKey(allocations[i]) == k
    {
      if k == AllocationKey(allocations[n]) {
        assert 0 <= n < n + 1;
      } else if k in seen {
        var i :| 0 <= i < n && AllocationKey(allocations[i]) == k;
        assert 0 <= i < n + 1;
      }
    }
  }

  ghost predicate KeyIndex(m: Model, index: map<Key, nat>)
    requires ValidModel(m)
  {
    && (forall k :: k in index ==> index[k] < |m.edges| && ValidEdge(m, m.edges[index[k]]) && KeyAt(m, index[k]) == k)
    && (forall j :: 0 <= j < |m.edges| ==> ValidEdge(m, m.edges[j]) && KeyAt(m, j) in index)
  }

  /** Whether the allocation is on an edge not seen before and states what that edge makes of it. */
  method CheckAllocation(m: Model, allocations: seq<Allocation>, n: nat, index: map<Key, nat>, seen: set<Key>)
    returns (ok: bool, j: nat)
    requires ValidModel(m) && n < |allocations| && KeyIndex(m, index)
    requires ConsistentTo(m, allocations, n, seen)
    ensures ok <==> ConsistentAllocation(m, allocations, n)
    ensures ok ==> Consistent(m, allocations[n], j)
  {
    var a := allocations[n];
    var key := AllocationKey(a);
    j := 0;
    if key !in index || key in seen {
      return false, j;
    }
    j := index[key];
    var e := m.edges[j];
    if !Amount(a.used) || !Amount(a.posted) || !Amount(a.cost) || a.used.value <= 0.0
       || a.posted.value != a.used.value * e.coverage || a.cost.value != a.used.value * e.cost {
      InconsistentElsewhere(m, a, j);
      return false, j;
    }
    assert Consistent(m, a, j);
    ok := true;
  }

  /** Adds one consistent allocation to the running totals. */
  method Accumulate(m: Model, a: Allocation, j: nat, ghost x: Vec, used: Vec, posted: Vec, limitUsed: Vec, total: real)
    returns (used': Vec, posted': Vec, limitUsed': Vec, total': real)
    requires ValidModel(m) && Consistent(m, a, j) && |x| == |m.edges| && x[j] == 0.0
    requires Totals(m, x, used, posted, limitUsed, total)
    ensures Totals(m, x[j := a.used.value], used', posted', limitUsed', total')
  {
    var e := m.edges[j];
    UsedStep(m.edges, x, used, j, a.used.value);
    used' := used[e.asset := used[e.asset] + a.used.value];
    limitUsed' := AddLimitUse(m.limitWeights, limitUsed, x, j, a.used.value);
    PostedStep(m.edges, x, posted, j, a.used.value, a.posted.value);
    posted' := posted[e.requirement := posted[e.requirement] + a.posted.value];
    TotalStep(m, x, total, j, a.used.value, a.cost.value);
    total' := total + a.cost.value;
  }

  /** The totals of the first `n` allocations. */
  ghost predicate Added(m: Model, allocations: seq<Allocation>, n: nat, used: Vec, posted: Vec, limitUsed: Vec, total: real)
    requires ValidModel(m) && n <= |allocations|
  {
    Totals(m, PostingTo(m, allocations, n), used, posted, limitUsed, total)
  }

  method AddNext(m: Model, allocations: seq<Allocation>, n: nat, j: nat,
                 used: Vec, posted: Vec, limitUsed: Vec, total: real)
    returns (used': Vec, posted': Vec, limitUsed': Vec, total': real)
    requires ValidModel(m) && n < |allocations| && ConsistentAllocation(m, allocations, n)
    requires Consistent(m, allocations[n], j) && Added(m, allocations, n, used, posted, limitUsed, total)
    ensures Added(m, allocations, n + 1, used', posted', limitUsed', total')
  {
    ghost var x := PostingTo(m, allocations, n);
    PostingStep(m, allocations, n, j);
    used', posted', limitUsed', total' := Accumulate(m, allocations[n], j, x, used, posted, limitUsed, total);
  }

  /** Checks and adds up all allocations. */
  method AddUp(m: Model, allocations: seq<Allocation>)
    returns (ok: bool, used: Vec, posted: Vec, limitUsed: Vec, total: real)
    requires ValidModel(m)
    ensures ok <==> ConsistentAllocations(m, allocations)
    ensures ok ==> Added(m, allocations, |allocations|, used, posted, limitUsed, total)
  {
    var index := IndexByKey(m);
    used, posted, limitUsed, total := Zeros(|m.assets|), Zeros(|m.requirements|), Zeros(|m.limits|), 0.0;
    var seen: set<Key> := {};
    NothingPosted(m, allocations);
    for n := 0 to |allocations|
      invariant ConsistentTo(m, allocations, n, seen)
      invariant Added(m, allocations, n, used, posted, limitUsed, total)
    {
      var j;
      ok, j := CheckAllocation(m, allocations, n, index, seen);
      if !ok {
        return;
      }
      used, posted, limitUsed, total := AddNext(m, allocations, n, j, used, posted, limitUsed, total);
      ConsistentStep(m, allocations, n, seen);
      seen := seen + {AllocationKey(allocations[n])};
    }
    ok := true;
  }

  lemma InconsistentElsewhere(m: Model, a: Allocation, j: nat)
    requires ValidModel(m) && j < |m.edges| && ValidEdge(m, m.edges[j]) && KeyAt(m, j) == AllocationKey(a)
    requires !Consistent(m, a, j)
    ensures forall i :: !Consistent(m, a, i)
  {
    forall i
      ensures !Consistent(m, a, i)
    {
      if Consistent(m, a, i) && i != j {
        KeysDistinct(m, i, j);
      }
    }
  }

  // ----- deciding acceptance

  lemma DualFeasibleByParts(m: Model, feasible: bool, capacity: Vec, limitDual: Vec, coverage: Vec)
    requires ValidModel(m)
    requires |capacity| == |m.assets| && |limitDual| == |m.limits| && |coverage| == |m.requirements|
    ensures var y := capacity + limitDual + coverage;
            DualFeasible(ProgramOf(m), y, PricedAgainst(m, feasible)) <==>
              && (forall i :: 0 <= i < |capacity| ==> capacity[i] <= 0.0)
              && (forall i :: 0 <= i < |limitDual| ==> limitDual[i] <= 0.0)
              && (forall j :: 0 <= j < |m.edges| ==> PricedBelow(m, y, feasible, j))
  {
    var y := capacity + limitDual + coverage;
    forall j | 0 <= j < |m.edges|
      ensures PricedBelow(m, y, feasible, j) <==> ColumnTo(y, ProgramRows(m), j, |y|) <= PricedAgainst(m, feasible)[j]
    {
      PricedBelowIsColumn(m, y, feasible, j);
    }
    SlackSigns(capacity, limitDual, coverage);
  }

  lemma SlackSigns(capacity: Vec, limitDual: Vec, coverage: Vec)
    ensures (forall i :: 0 <= i < |capacity| + |limitDual| ==> (capacity + limitDual + coverage)[i] <= 0.0) <==>
              && (forall i :: 0 <= i < |capacity| ==> capacity[i] <= 0.0)
              && (forall i :: 0 <= i < |limitDual| ==> limitDual[i] <= 0.0)
  {
    var y := capacity + limitDual + coverage;
    assert forall i :: 0 <= i < |capacity| ==> y[i] == capacity[i];
    assert forall i :: 0 <= i < |limitDual| ==> limitDual[i] == y[|capacity| + i];
  }

  lemma PostingNonnegative(m: Model, allocations: seq<Allocation>)
    requires ValidModel(m) && ConsistentAllocations(m, allocations)
    ensures Nonnegative(Posting(m, allocations))
  {
    forall j | 0 <= j < |m.edges|
      ensures Posting(m, allocations)[j] >= 0.0
    {
      UsedNonnegative(m, allocations, |allocations|, KeyAt(m, j)) by {
        assert ValidEdge(m, m.edges[j]);
      }
    }
  }

  lemma {:induction false} UsedNonnegative(m: Model, allocations: seq<Allocation>, n: nat, k: Key)
    requires ValidModel(m) && ConsistentAllocations(m, allocations) && n <= |allocations|
    ensures UsedTo(allocations, n, k) >= 0.0
  {
    if n > 0 {
      UsedNonnegative(m, allocations, n - 1, k);
      assert ConsistentAllocation(m, allocations, n - 1);
    }
  }

  /** Whether the totals respect capacities and limits and meet the needs. */
  predicate WithinBounds(m: Model, used: Vec, posted: Vec, limitUsed: Vec) {
    && |used| == |m.available| && |limitUsed| == |m.limitValues| && |posted| == |m.need|
    && (forall i :: 0 <= i < |used| ==> used[i] <= m.available[i])
    && (forall i :: 0 <= i < |limitUsed| ==> limitUsed[i] <= m.limitValues[i])
    && (forall i :: 0 <= i < |posted| ==> posted[i] == m.need[i])
  }

  lemma RowValue(m: Model, x: Vec, used: Vec, posted: Vec, limitUsed: Vec, total: real, i: nat)
    requires ValidModel(m) && |x| == |m.edges| && Totals(m, x, used, posted, limitUsed, total)
    requires i < Slacks(m) + |m.requirements|
    ensures Dot(ProgramOf(m).rows[i], x) == (used + limitUsed + posted)[i]
  {
    assert ProgramOf(m).rows[i] == ProgramRow(m, i);
  }

  /** Comparing concatenations compares their parts. */
  lemma PartsCompare(used: Vec, limitUsed: Vec, posted: Vec, a: Vec, l: Vec, n: Vec)
    requires |used| == |a| && |limitUsed| == |l| && |posted| == |n|
    ensures var values, rhs := used + limitUsed + posted, a + l + n;
            ((forall i :: 0 <= i < |a| + |l| ==> values[i] <= rhs[i])
             && (forall i :: |a| + |l| <= i < |values| ==> values[i] == rhs[i])) <==>
            ((forall i :: 0 <= i < |a| ==> used[i] <= a[i])
             && (forall i :: 0 <= i < |l| ==> limitUsed[i] <= l[i])
             && (forall i :: 0 <= i < |n| ==> posted[i] == n[i]))
  {
    var values, rhs := used + limitUsed + posted, a + l + n;
    assert forall i :: 0 <= i < |a| ==> used[i] == values[i] && a[i] == rhs[i];
    assert forall i :: 0 <= i < |l| ==> limitUsed[i] == values[|a| + i] && l[i] == rhs[|a| + i];
    assert forall i :: 0 <= i < |n| ==> posted[i] == values[|a| + |l| + i] && n[i] == rhs[|a| + |l| + i];
  }

  lemma ValuesDecideFeasible(p: Program, x: Vec, values: Vec)
    requires WellFormed(p) && |x| == |p.cost| && Nonnegative(x) && |values| == |p.rows|
    requires forall i :: 0 <= i < |values| ==> Dot(p.rows[i], x) == values[i]
    ensures Feasible(p, x) <==> ((forall i :: 0 <= i < p.slacks ==> values[i] <= p.rhs[i])
                                 && (forall i :: p.slacks <= i < |values| ==> values[i] == p.rhs[i]))
  {
  }

  lemma BoundsDecideFeasible(m: Model, x: Vec, used: Vec, posted: Vec, limitUsed: Vec, total: real)
    requires ValidModel(m) && |x| == |m.edges| && Nonnegative(x) && Totals(m, x, used, posted, limitUsed, total)
    ensures WithinBounds(m, used, posted, limitUsed) <==> Feasible(ProgramOf(m), x)
  {
    var values := used + limitUsed + posted;
    forall i | 0 <= i < |values|
      ensures Dot(ProgramOf(m).rows[i], x) == values[i]
    {
      RowValue(m, x, used, posted, limitUsed, total, i);
    }
    ValuesDecideFeasible(ProgramOf(m), x, values);
    PartsCompare(used, limitUsed, posted, m.available, m.limitValues, m.need);
  }
}
