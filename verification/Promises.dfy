/**
 What the allocator and its verifier promise, said of the inputs and the answer alone: which
 inputs are admitted, what an answer must state, what its certificate must show, and what
 follows from acceptance. The definitions use the fields of inputs and answers and nothing of
 the model the allocator builds; the lemmas connect the two.
 */
module Promises {
  import opened Vectors
  import opened Wrappers
  import Minimization
  import opened Inputs
  import opened Programs
  import opened Models
  import opened Building
  import opened Certificates
  import opened Verifying
  import opened Plans

  // ----- what an answer states

  /** The allocation states the use of an eligible pair: the value after its haircut and its cost. */
  ghost predicate StatesPair(al: Allocation, a: Asset, r: Requirement) {
    && al.assetId == a.id && al.agreementId == r.agreementId && a.id in r.schedule && r.schedule[a.id].eligible
    && al.used.Number? && al.used.value > 0.0
    && al.posted == Number(al.used.value * (1.0 - Figure(r.schedule[a.id].haircut)))
    && al.cost == Number(al.used.value * Figure(a.cost))
  }

  ghost predicate StatesSome(al: Allocation, assets: seq<Asset>, requirements: seq<Requirement>) {
    exists a, r :: a in assets && r in requirements && StatesPair(al, a, r)
  }

  /** Every allocation states an eligible pair, and no pair is listed twice. */
  ghost predicate StatesPairs(allocations: seq<Allocation>, assets: seq<Asset>, requirements: seq<Requirement>) {
    && (forall n :: 0 <= n < |allocations| ==> StatesSome(allocations[n], assets, requirements))
    && (forall i, n :: 0 <= i < n < |allocations| ==>
          (allocations[i].assetId, allocations[i].agreementId) != (allocations[n].assetId, allocations[n].agreementId))
  }

  ghost function UsedOn(k: Key): Allocation -> real {
    (al: Allocation) => if (al.assetId, al.agreementId) == k then Figure(al.used) else 0.0
  }

  /** The plan an answer states. */
  ghost function PlanOf(allocations: seq<Allocation>): Plan {
    (k: Key) => SumOver(allocations, UsedOn(k))
  }

  // ----- what a certificate shows

  /** The multiplier a table states for an identifier. */
  ghost function Multiplier(table: map<string, Exact>, id: string): real {
    if id in table then Figure(table[id]) else 0.0
  }

  /** The table has a number for exactly these identifiers. */
  ghost predicate Covers(table: map<string, Exact>, ids: set<string>) {
    table.Keys == ids && forall id :: id in table ==> table[id].Number?
  }

  ghost function WeightOn(k: Key): LimitTerm -> real {
    (t: LimitTerm) => if (t.assetId, t.agreementId) == k then Figure(t.weight) else 0.0
  }

  ghost function LimitPrice(c: Certificate, k: Key): AllocationLimit -> real {
    (l: AllocationLimit) => Multiplier(c.limits, l.id) * SumOver(l.terms, WeightOn(k))
  }

  /** What the certificate charges for one unit of an asset under an agreement. */
  ghost function Price(c: Certificate, a: Asset, r: Requirement, limits: seq<AllocationLimit>): real
    requires a.id in r.schedule
  {
    Multiplier(c.capacity, a.id) + Multiplier(c.coverage, r.agreementId) * (1.0 - Figure(r.schedule[a.id].haircut))
    + SumOver(limits, LimitPrice(c, (a.id, r.agreementId)))
  }

  /** Complete, not positive on capacities and limits, and no eligible pair priced above its cost, or above zero when infeasible. */
  ghost predicate Prices(c: Certificate, feasible: bool, assets: seq<Asset>, requirements: seq<Requirement>,
                         limits: seq<AllocationLimit>)
  {
    Signed(c, assets, requirements, limits) && PairsPriced(c, feasible, assets, requirements, limits)
  }

  ghost function AssetWorth(c: Certificate): Asset -> real {
    (a: Asset) => Multiplier(c.capacity, a.id) * Figure(a.available)
  }

  ghost function AgreementWorth(c: Certificate): Requirement -> real {
    (r: Requirement) => Multiplier(c.coverage, r.agreementId) * Figure(r.amount)
  }

  ghost function LimitWorth(c: Certificate): AllocationLimit -> real {
    (l: AllocationLimit) => Multiplier(c.limits, l.id) * Figure(l.maximum)
  }

  /** The bound on the cost that the certificate proves. */
  ghost function Worth(c: Certificate, assets: seq<Asset>, requirements: seq<Requirement>, limits: seq<AllocationLimit>): real {
    SumOver(assets, AssetWorth(c)) + SumOver(requirements, AgreementWorth(c)) + SumOver(limits, LimitWorth(c))
  }

  ghost predicate InCurrency(currency: string, assets: seq<Asset>, requirements: seq<Requirement>) {
    && (forall a :: a in assets ==> a.currency == currency) && (forall r :: r in requirements ==> r.currency == currency)
    && (assets == [] && requirements == [] ==> currency == "")
  }

  /**
   The answers the verifier accepts: the certificate prices every pair; a feasible answer states a
   plan that meets the inputs, at the cost it states and the certificate proves; an infeasible one
   states nothing, with a certificate that no plan could satisfy.
   */
  ghost predicate Certified(result: AllocationResult, assets: seq<Asset>, requirements: seq<Requirement>,
                            limits: seq<AllocationLimit>)
  {
    && InCurrency(result.currency, assets, requirements)
    && Prices(result.certificate, result.feasible, assets, requirements, limits)
    && result.cost.Number?
    && if result.feasible then
         && StatesPairs(result.allocations, assets, requirements)
         && Meets(PlanOf(result.allocations), assets, requirements, limits, true)
         && result.cost.value == PlanCost(PlanOf(result.allocations), assets, requirements)
         && result.cost.value == Worth(result.certificate, assets, requirements, limits)
       else
         result.allocations == [] && result.cost.value == 0.0 && Worth(result.certificate, assets, requirements, limits) > 0.0
  }

  /**
   What acceptance gives the caller: a feasible answer is a plan of least cost among all, even
   over-posting, plans, stated pair by pair; an infeasible answer means no plan meets the inputs.
   */
  ghost predicate Settles(result: AllocationResult, assets: seq<Asset>, requirements: seq<Requirement>,
                          limits: seq<AllocationLimit>)
  {
    if result.feasible then
      && StatesPairs(result.allocations, assets, requirements)
      && Meets(PlanOf(result.allocations), assets, requirements, limits, true)
      && result.cost == Number(PlanCost(PlanOf(result.allocations), assets, requirements))
      && (forall plan: Plan :: Meets(plan, assets, requirements, limits, false) ==>
            result.cost.value <= PlanCost(plan, assets, requirements))
    else
      forall plan: Plan :: !Meets(plan, assets, requirements, limits, false)
  }

  // ----- statements and edges

  lemma SameProduct(a: real, b: real, c: real)
    requires b == c
    ensures a * b == a * c
  {
  }

  /** The edge of a pair, and what the inputs say of it. */
  lemma EdgeFacts(m: Model, j: nat)
    requires InOrder(m) && j < |m.edges|
    ensures ValidEdge(m, m.edges[j])
    ensures var a, r, e := m.assets[m.edges[j].asset], m.requirements[m.edges[j].requirement], m.edges[j];
            && a in m.assets && r in m.requirements && a.id in r.schedule && r.schedule[a.id].eligible
            && KeyAt(m, j) == (a.id, r.agreementId)
            && e.coverage == 1.0 - Figure(r.schedule[a.id].haircut) && e.cost == Figure(a.cost)
  {
    assert ValidEdge(m, m.edges[j]);
    EdgesMeaning(m.assets, m.requirements, |m.requirements|);
    assert m.edges[j] in m.edges;
    assert IsEdge(m.assets, m.requirements, m.edges[j]);
  }

  lemma PairEdge(m: Model, a: Asset, r: Requirement) returns (j: nat)
    requires InOrder(m) && a in m.assets && r in m.requirements && a.id in r.schedule && r.schedule[a.id].eligible
    ensures j < |m.edges| && ValidEdge(m, m.edges[j]) && m.assets[m.edges[j].asset] == a && m.requirements[m.edges[j].requirement] == r
    ensures KeyAt(m, j) == (a.id, r.agreementId)
    ensures m.edges[j].coverage == 1.0 - Figure(r.schedule[a.id].haircut) && m.edges[j].cost == Figure(a.cost)
  {
    var n :| 0 <= n < |m.assets| && m.assets[n] == a;
    var q :| 0 <= q < |m.requirements| && m.requirements[q] == r;
    var e := EdgeOf(m.assets, r, q, n);
    EdgesMeaning(m.assets, m.requirements, |m.requirements|);
    assert IsEdge(m.assets, m.requirements, e);
    j :| 0 <= j < |m.edges| && m.edges[j] == e;
    assert ValidEdge(m, m.edges[j]);
  }

  lemma ConsistentStates(m: Model, al: Allocation, j: nat)
    requires InOrder(m) && Consistent(m, al, j)
    ensures StatesSome(al, m.assets, m.requirements)
  {
    EdgeFacts(m, j);
    var a, r, e := m.assets[m.edges[j].asset], m.requirements[m.edges[j].requirement], m.edges[j];
    SameProduct(al.used.value, e.coverage, 1.0 - Figure(r.schedule[a.id].haircut));
    SameProduct(al.used.value, e.cost, Figure(a.cost));
    assert StatesPair(al, a, r);
  }

  lemma NonnegativeProduct(a: real, b: real)
    requires a >= 0.0 && b >= 0.0
    ensures a * b >= 0.0
  {
  }

  lemma StatesConsistent(m: Model, al: Allocation)
    requires InOrder(m) && StatesSome(al, m.assets, m.requirements)
    ensures exists j :: Consistent(m, al, j)
  {
    var a, r :| a in m.assets && r in m.requirements && StatesPair(al, a, r);
    var j := PairEdge(m, a, r);
    var e := m.edges[j];
    SameProduct(al.used.value, e.coverage, 1.0 - Figure(r.schedule[a.id].haircut));
    SameProduct(al.used.value, e.cost, Figure(a.cost));
    NonnegativeProduct(al.used.value, e.coverage);
    NonnegativeProduct(al.used.value, e.cost);
    assert Consistent(m, al, j);
  }

  /** The verifier's consistent allocations are those that state pairs. */
  lemma StatesIff(m: Model, allocations: seq<Allocation>)
    requires InOrder(m)
    ensures ConsistentAllocations(m, allocations) <==> StatesPairs(allocations, m.assets, m.requirements)
  {
    if ConsistentAllocations(m, allocations) {
      forall n | 0 <= n < |allocations|
        ensures StatesSome(allocations[n], m.assets, m.requirements)
      {
        assert ConsistentAllocation(m, allocations, n);
        var j :| Consistent(m, allocations[n], j);
        ConsistentStates(m, allocations[n], j);
      }
      forall i, n | 0 <= i < n < |allocations|
        ensures (allocations[i].assetId, allocations[i].agreementId) != (allocations[n].assetId, allocations[n].agreementId)
      {
        assert ConsistentAllocation(m, allocations, n);
      }
    }
    if StatesPairs(allocations, m.assets, m.requirements) {
      forall n | 0 <= n < |allocations|
        ensures ConsistentAllocation(m, allocations, n)
      {
        StatesConsistent(m, allocations[n]);
      }
    }
  }

  /** With every pair listed once, the sum over the list is the one use that is listed. */
  lemma {:induction false} UsedIsSum(allocations: seq<Allocation>, n: nat, k: Key)
    requires n <= |allocations|
    requires forall i, j :: 0 <= i < j < |allocations| ==>
               (allocations[i].assetId, allocations[i].agreementId) != (allocations[j].assetId, allocations[j].agreementId)
    ensures SumOver(allocations[..n], UsedOn(k)) == UsedTo(allocations, n, k)
    ensures (forall i :: 0 <= i < n ==> (allocations[i].assetId, allocations[i].agreementId) != k) ==> UsedTo(allocations, n, k) == 0.0
  {
    if n > 0 {
      UsedIsSum(allocations, n - 1, k);
      assert allocations[..n] == allocations[..n - 1] + [allocations[n - 1]];
      SumLast(allocations[..n - 1], allocations[n - 1], UsedOn(k));
    }
  }

  lemma PostingIsPlan(m: Model, allocations: seq<Allocation>)
    requires ValidModel(m) && StatesPairs(allocations, m.assets, m.requirements)
    ensures OnEdges(m, PlanOf(allocations)) == Posting(m, allocations)
  {
    assert forall j :: 0 <= j < |m.edges| ==> ValidEdge(m, m.edges[j]);
    forall j | 0 <= j < |m.edges|
      ensures OnEdges(m, PlanOf(allocations))[j] == Posting(m, allocations)[j]
    {
      UsedIsSum(allocations, |allocations|, KeyAt(m, j));
      assert allocations[..|allocations|] == allocations;
    }
  }

  /** There are no more allocations than eligible pairs. */
  lemma ListedOnce(m: Model, allocations: seq<Allocation>)
    requires InOrder(m) && StatesPairs(allocations, m.assets, m.requirements)
    ensures |allocations| <= |m.edges|
  {
    var keys := seq(|allocations|, i requires 0 <= i < |allocations| => AllocationKey(allocations[i]));
    Minimization.DistinctSize(keys);
    forall k | k in keys
      ensures k in Pairs(m.assets, m.requirements)
    {
      var n :| 0 <= n < |keys| && keys[n] == k;
      assert StatesSome(allocations[n], m.assets, m.requirements);
    }
    SubsetSize((set k | k in keys), Pairs(m.assets, m.requirements));
    EdgeCount(m.assets, m.requirements);
  }

  // ----- certificates and multipliers

  lemma CoversIff(table: map<string, Exact>, ids: seq<string>, all: set<string>)
    requires (forall i, j :: 0 <= i < j < |ids| ==> ids[i] != ids[j]) && all == (set id | id in ids)
    ensures AllStated(table, ids) <==> Covers(table, all)
  {
    Minimization.DistinctSize(ids);
    assert |all| == |ids|;
    if AllStated(table, ids) {
      forall id | id in all
        ensures id in table && table[id].Number?
      {
        var i :| 0 <= i < |ids| && ids[i] == id;
        assert Lookup(table, ids[i]).Number?;
      }
      SameSet(all, table.Keys);
    }
    if Covers(table, all) {
      assert |table| == |table.Keys|;
      forall i | 0 <= i < |ids|
        ensures Lookup(table, ids[i]).Number?
      {
        assert ids[i] in all;
      }
    }
  }

  lemma SameSet(a: set<string>, b: set<string>)
    requires a <= b && |a| == |b|
    ensures a == b
  {
    assert b == a + (b - a);
  }

  lemma IdsCover<T(!new)>(xs: seq<T>, key: T -> string, table: map<string, Exact>, all: set<string>)
    requires DistinctKeys(xs, key) && all == (set x | x in xs :: key(x))
    ensures AllStated(table, Ids(xs, key)) <==> Covers(table, all)
  {
    var ids := Ids(xs, key);
    forall id
      ensures id in ids <==> id in all
    {
      if id in ids {
        var i :| 0 <= i < |ids| && ids[i] == id;
        assert xs[i] in xs;
      }
      if x :| x in xs && key(x) == id {
        var i :| 0 <= i < |xs| && xs[i] == x;
        assert ids[i] == id;
      }
    }
    CoversIff(table, ids, all);
  }

  lemma CompleteIff(m: Model, c: Certificate)
    requires ValidModel(m)
    ensures CompleteCertificate(m, c) <==>
              && Covers(c.capacity, set a | a in m.assets :: a.id) && Covers(c.coverage, set r | r in m.requirements :: r.agreementId)
              && Covers(c.limits, set l | l in m.limits :: l.id)
  {
    IdsCover(m.assets, AssetKey, c.capacity, set a | a in m.assets :: a.id);
    IdsCover(m.requirements, AgreementKey, c.coverage, set r | r in m.requirements :: r.agreementId);
    IdsCover(m.limits, LimitKey, c.limits, set l | l in m.limits :: l.id);
  }

  /** The weight of a pair in a limit, as a sum over its terms. */
  lemma {:induction false} WeightIsSum(terms: seq<LimitTerm>, n: nat, k: Key)
    requires n <= |terms| && DistinctTerms(terms)
    ensures SumOver(terms[..n], WeightOn(k)) == WeightTo(terms, n, k)
  {
    if n > 0 {
      WeightIsSum(terms, n - 1, k);
      WeightToMeaning(terms, n - 1, k);
      assert terms[..n] == terms[..n - 1] + [terms[n - 1]];
      SumLast(terms[..n - 1], terms[n - 1], WeightOn(k));
      if TermKey(terms[n - 1]) == k {
        assert forall i :: 0 <= i < n - 1 ==> TermKey(terms[i]) != k;
      }
    }
  }

  lemma LimitColumn(m: Model, c: Certificate, j: nat)
    requires InOrder(m) && LimitsValid(m) && j < |m.edges| && ValidEdge(m, m.edges[j])
    ensures Dot(Stated(c.limits, Ids(m.limits, LimitKey)), WeightColumn(m, j)) == SumOver(m.limits, LimitPrice(c, KeyAt(m, j)))
  {
    var y, w, f := Stated(c.limits, Ids(m.limits, LimitKey)), WeightColumn(m, j), LimitPrice(c, KeyAt(m, j));
    forall i | 0 <= i < |m.limits|
      ensures y[i] * w[i] == f(m.limits[i])
    {
      LimitEntry(m, c, i, j);
    }
    DotIsSum(m.limits, y, w, f, |m.limits|);
    assert m.limits[..|m.limits|] == m.limits;
  }

  lemma LimitEntry(m: Model, c: Certificate, i: nat, j: nat)
    requires InOrder(m) && LimitsValid(m) && j < |m.edges| && ValidEdge(m, m.edges[j]) && i < |m.limits|
    ensures Stated(c.limits, Ids(m.limits, LimitKey))[i] * WeightColumn(m, j)[i] == LimitPrice(c, KeyAt(m, j))(m.limits[i])
  {
    var l, k := m.limits[i], KeyAt(m, j);
    assert l in m.limits;
    WeightIsSum(l.terms, |l.terms|, k);
    assert l.terms[..|l.terms|] == l.terms;
    assert m.limitWeights[i] == Weights(m.assets, m.requirements, l);
    assert WeightColumn(m, j)[i] == SumOver(l.terms, WeightOn(k));
  }

  /** The price of an edge is the price of its pair. */
  lemma PriceOfEdge(m: Model, result: AllocationResult, j: nat)
    requires InOrder(m) && LimitsValid(m) && j < |m.edges|
    ensures ValidEdge(m, m.edges[j])
    ensures var a, r := m.assets[m.edges[j].asset], m.requirements[m.edges[j].requirement];
            && a.id in r.schedule
            && (PricedBelow(m, Multipliers(m, result.certificate), result.feasible, j) <==>
                  Price(result.certificate, a, r, m.limits) <= if result.feasible then Figure(a.cost) else 0.0)
  {
    EdgeFacts(m, j);
    EdgePrice(m, result.certificate, j);
  }

  lemma EdgePrice(m: Model, c: Certificate, j: nat)
    requires InOrder(m) && LimitsValid(m) && j < |m.edges| && ValidEdge(m, m.edges[j])
    requires m.assets[m.edges[j].asset].id in m.requirements[m.edges[j].requirement].schedule
    ensures Dot(Multipliers(m, c), EdgeColumn(m, j))
            == Price(c, m.assets[m.edges[j].asset], m.requirements[m.edges[j].requirement], m.limits)
  {
    var e := m.edges[j];
    EdgeFacts(m, j);
    EdgeParts(m, c, j);
    LimitColumn(m, c, j);
    PriceParts(c, m.assets[e.asset], m.requirements[e.requirement], m.limits, e.coverage,
               Dot(Stated(c.limits, Ids(m.limits, LimitKey)), WeightColumn(m, j)), Dot(Multipliers(m, c), EdgeColumn(m, j)));
  }

  lemma PriceParts(c: Certificate, a: Asset, r: Requirement, limits: seq<AllocationLimit>, coverage: real, rest: real, total: real)
    requires a.id in r.schedule && coverage == 1.0 - Figure(r.schedule[a.id].haircut)
    requires rest == SumOver(limits, LimitPrice(c, (a.id, r.agreementId)))
    requires total == Multiplier(c.capacity, a.id) + rest + Multiplier(c.coverage, r.agreementId) * coverage
    ensures total == Price(c, a, r, limits)
  {
    SameProduct(Multiplier(c.coverage, r.agreementId), coverage, 1.0 - Figure(r.schedule[a.id].haircut));
  }

  lemma EdgeParts(m: Model, c: Certificate, j: nat)
    requires ModelShape(m) && j < |m.edges| && ValidEdge(m, m.edges[j])
    ensures Dot(Multipliers(m, c), EdgeColumn(m, j))
            == Multiplier(c.capacity, m.assets[m.edges[j].asset].id)
               + Dot(Stated(c.limits, Ids(m.limits, LimitKey)), WeightColumn(m, j))
               + Multiplier(c.coverage, m.requirements[m.edges[j].requirement].agreementId) * m.edges[j].coverage
  {
    EdgeColumnPrice(m, Stated(c.capacity, Ids(m.assets, AssetKey)), Stated(c.limits, Ids(m.limits, LimitKey)),
                    Stated(c.coverage, Ids(m.requirements, AgreementKey)), j);
  }

  lemma SignsIff(m: Model, c: Certificate)
    requires ValidModel(m) && CompleteCertificate(m, c)
    ensures SignedCertificate(m, c) <==>
              && (forall a :: a in m.assets ==> Multiplier(c.capacity, a.id) <= 0.0)
              && (forall l :: l in m.limits ==> Multiplier(c.limits, l.id) <= 0.0)
  {
    var capacity, limitDual := Stated(c.capacity, Ids(m.assets, AssetKey)), Stated(c.limits, Ids(m.limits, LimitKey));
    assert forall i :: 0 <= i < |capacity| ==> m.assets[i] in m.assets && capacity[i] == Multiplier(c.capacity, m.assets[i].id);
    assert forall i :: 0 <= i < |limitDual| ==> m.limits[i] in m.limits && limitDual[i] == Multiplier(c.limits, m.limits[i].id);
    if SignedCertificate(m, c) {
      forall a | a in m.assets
        ensures Multiplier(c.capacity, a.id) <= 0.0
      {
        var i :| 0 <= i < |m.assets| && m.assets[i] == a;
        assert capacity[i] <= 0.0;
      }
      forall l | l in m.limits
        ensures Multiplier(c.limits, l.id) <= 0.0
      {
        var i :| 0 <= i < |m.limits| && m.limits[i] == l;
        assert limitDual[i] <= 0.0;
      }
    }
  }

  /** The certificate passes the verifier's checks exactly when it prices every pair. */
  lemma PricesIff(m: Model, result: AllocationResult)
    requires InOrder(m) && LimitsValid(m)
    ensures Prices(result.certificate, result.feasible, m.assets, m.requirements, m.limits) <==>
              && CompleteCertificate(m, result.certificate) && SignedCertificate(m, result.certificate)
              && (forall j :: 0 <= j < |m.edges| ==> PricedBelow(m, Multipliers(m, result.certificate), result.feasible, j))
  {
    CompleteSigned(m, result.certificate);
    PairsPricedIff(m, result);
  }

  /** Complete, and not positive on capacities and limits. */
  ghost predicate Signed(c: Certificate, assets: seq<Asset>, requirements: seq<Requirement>, limits: seq<AllocationLimit>) {
    && Covers(c.capacity, set a | a in assets :: a.id) && Covers(c.coverage, set r | r in requirements :: r.agreementId)
    && Covers(c.limits, set l | l in limits :: l.id)
    && (forall a :: a in assets ==> Multiplier(c.capacity, a.id) <= 0.0)
    && (forall l :: l in limits ==> Multiplier(c.limits, l.id) <= 0.0)
  }

  lemma CompleteSigned(m: Model, c: Certificate)
    requires ValidModel(m)
    ensures Signed(c, m.assets, m.requirements, m.limits) <==> CompleteCertificate(m, c) && SignedCertificate(m, c)
  {
    CompleteIff(m, c);
    if CompleteCertificate(m, c) {
      SignsIff(m, c);
    }
  }

  ghost predicate PairsPriced(c: Certificate, feasible: bool, assets: seq<Asset>, requirements: seq<Requirement>,
                              limits: seq<AllocationLimit>)
  {
    forall a, r :: a in assets && r in requirements && a.id in r.schedule && r.schedule[a.id].eligible ==>
      Price(c, a, r, limits) <= if feasible then Figure(a.cost) else 0.0
  }

  lemma PairsPricedIff(m: Model, result: AllocationResult)
    requires InOrder(m) && LimitsValid(m)
    ensures PairsPriced(result.certificate, result.feasible, m.assets, m.requirements, m.limits) <==>
              forall j :: 0 <= j < |m.edges| ==> PricedBelow(m, Multipliers(m, result.certificate), result.feasible, j)
  {
    forall j | 0 <= j < |m.edges| && PairsPriced(result.certificate, result.feasible, m.assets, m.requirements, m.limits)
      ensures PricedBelow(m, Multipliers(m, result.certificate), result.feasible, j)
    {
      EdgeFacts(m, j);
      PriceOfEdge(m, result, j);
    }
    if forall j :: 0 <= j < |m.edges| ==> PricedBelow(m, Multipliers(m, result.certificate), result.feasible, j) {
      forall a, r | a in m.assets && r in m.requirements && a.id in r.schedule && r.schedule[a.id].eligible
        ensures Price(result.certificate, a, r, m.limits) <= if result.feasible then Figure(a.cost) else 0.0
      {
        var j := PairEdge(m, a, r);
        PriceOfEdge(m, result, j);
      }
    }
  }

  // ----- the certificate's bound

  lemma WorthIs(m: Model, c: Certificate)
    requires InOrder(m)
    ensures Dot(Multipliers(m, c), ProgramOf(m).rhs) == Worth(c, m.assets, m.requirements, m.limits)
  {
    var capacity, limitDual, coverage :=
      Stated(c.capacity, Ids(m.assets, AssetKey)), Stated(c.limits, Ids(m.limits, LimitKey)),
      Stated(c.coverage, Ids(m.requirements, AgreementKey));
    DualValueSplit(m, capacity, limitDual, coverage);
    AssetWorths(m, c);
    LimitWorths(m, c);
    AgreementWorths(m, c);
  }

  lemma AssetWorths(m: Model, c: Certificate)
    requires InOrder(m)
    ensures Dot(Stated(c.capacity, Ids(m.assets, AssetKey)), m.available) == SumOver(m.assets, AssetWorth(c))
  {
    var y := Stated(c.capacity, Ids(m.assets, AssetKey));
    assert forall i :: 0 <= i < |m.assets| ==> y[i] == Multiplier(c.capacity, m.assets[i].id) && m.available[i] == Figure(m.assets[i].available);
    SumWorth(m.assets, y, m.available, AssetWorth(c));
  }

  lemma LimitWorths(m: Model, c: Certificate)
    requires InOrder(m)
    ensures Dot(Stated(c.limits, Ids(m.limits, LimitKey)), m.limitValues) == SumOver(m.limits, LimitWorth(c))
  {
    var y := Stated(c.limits, Ids(m.limits, LimitKey));
    assert forall i :: 0 <= i < |m.limits| ==> y[i] == Multiplier(c.limits, m.limits[i].id) && m.limitValues[i] == Figure(m.limits[i].maximum);
    SumWorth(m.limits, y, m.limitValues, LimitWorth(c));
  }

  lemma AgreementWorths(m: Model, c: Certificate)
    requires InOrder(m)
    ensures Dot(Stated(c.coverage, Ids(m.requirements, AgreementKey)), m.need) == SumOver(m.requirements, AgreementWorth(c))
  {
    var y := Stated(c.coverage, Ids(m.requirements, AgreementKey));
    assert forall i :: 0 <= i < |m.requirements| ==>
      y[i] == Multiplier(c.coverage, m.requirements[i].agreementId) && m.need[i] == Figure(m.requirements[i].amount);
    SumWorth(m.requirements, y, m.need, AgreementWorth(c));
  }

  lemma SumWorth<T>(xs: seq<T>, y: Vec, b: Vec, f: T -> real)
    requires |xs| == |y| == |b| && forall i :: 0 <= i < |xs| ==> y[i] * b[i] == f(xs[i])
    ensures Dot(y, b) == SumOver(xs, f)
  {
    DotIsSum(xs, y, b, f, |xs|);
    assert xs[..|xs|] == xs;
  }

  // ----- acceptance

  lemma CurrencyIff(m: Model, currency: string)
    requires InOrder(m) && ValidData(m.assets, m.requirements)
    ensures currency == m.currency <==> InCurrency(currency, m.assets, m.requirements)
  {
    if m.assets != [] {
      assert m.assets[0] in m.assets;
    } else if m.requirements != [] {
      assert m.requirements[0] in m.requirements;
    }
  }

  lemma FeasibleIff(m: Model, result: AllocationResult)
    requires InOrder(m) && LimitsValid(m) && result.cost.Number?
    ensures PrimalCloses(m, result, Worth(result.certificate, m.assets, m.requirements, m.limits)) <==>
              && StatesPairs(result.allocations, m.assets, m.requirements)
              && Meets(PlanOf(result.allocations), m.assets, m.requirements, m.limits, true)
              && result.cost.value == PlanCost(PlanOf(result.allocations), m.assets, m.requirements)
              && result.cost.value == Worth(result.certificate, m.assets, m.requirements, m.limits)
  {
    StatesIff(m, result.allocations);
    if StatesPairs(result.allocations, m.assets, m.requirements) {
      PostingIsPlan(m, result.allocations);
      PlansAreSolutions(m, PlanOf(result.allocations));
    }
  }

  /** Plans that meet the inputs cost nothing negative. */
  lemma MetCostNonnegative(m: Model, plan: Plan)
    requires InOrder(m) && LimitsValid(m) && Meets(plan, m.assets, m.requirements, m.limits, true)
    ensures PlanCost(plan, m.assets, m.requirements) >= 0.0
  {
    PlansAreSolutions(m, plan);
    EdgeCostsNonnegative(m);
    DotNonnegativeTo(ProgramOf(m).cost, OnEdges(m, plan), |m.edges|);
  }

  lemma EdgeCostsNonnegative(m: Model)
    requires ValidModel(m)
    ensures Nonnegative(ProgramOf(m).cost) && |ProgramOf(m).cost| == |m.edges|
  {
    assert forall j :: 0 <= j < |m.edges| ==> ValidEdge(m, m.edges[j]);
  }

  /** The verifier accepts exactly the certified answers: for the inputs in canonical order. */
  lemma AcceptsIff(m: Model, result: AllocationResult)
    requires InOrder(m) && LimitsValid(m) && ValidData(m.assets, m.requirements)
    ensures Accepts(m, result) <==> Certified(result, m.assets, m.requirements, m.limits)
  {
    AcceptsByParts(m, result);
    PricesIff(m, result);
    WorthIs(m, result.certificate);
    CurrencyIff(m, result.currency);
    if result.cost.Number? && result.feasible {
      FeasibleIff(m, result);
      if StatesPairs(result.allocations, m.assets, m.requirements) {
        ListedOnce(m, result.allocations);
        if Meets(PlanOf(result.allocations), m.assets, m.requirements, m.limits, true) {
          MetCostNonnegative(m, PlanOf(result.allocations));
        }
      }
    }
  }

  // ----- the inputs in any order

  lemma SignedPermuted(c: Certificate, assets: seq<Asset>, requirements: seq<Requirement>, limits: seq<AllocationLimit>,
                       sa: seq<Asset>, sr: seq<Requirement>, sl: seq<AllocationLimit>)
    requires Permuted(assets, sa) && Permuted(requirements, sr) && Permuted(limits, sl)
    ensures Signed(c, assets, requirements, limits) <==> Signed(c, sa, sr, sl)
  {
    PermutedMembers(assets, sa);
    PermutedMembers(requirements, sr);
    PermutedMembers(limits, sl);
    assert (set a | a in assets :: a.id) == (set a | a in sa :: a.id);
    assert (set r | r in requirements :: r.agreementId) == (set r | r in sr :: r.agreementId);
    assert (set l | l in limits :: l.id) == (set l | l in sl :: l.id);
  }

  lemma PairsPricedPermuted(c: Certificate, feasible: bool, assets: seq<Asset>, requirements: seq<Requirement>,
                            limits: seq<AllocationLimit>, sa: seq<Asset>, sr: seq<Requirement>, sl: seq<AllocationLimit>)
    requires Permuted(assets, sa) && Permuted(requirements, sr) && Permuted(limits, sl)
    ensures PairsPriced(c, feasible, assets, requirements, limits) <==> PairsPriced(c, feasible, sa, sr, sl)
  {
    PermutedMembers(assets, sa);
    PermutedMembers(requirements, sr);
    forall a: Asset, r: Requirement | a.id in r.schedule
      ensures Price(c, a, r, limits) == Price(c, a, r, sl)
    {
      SumPermuted(limits, sl, LimitPrice(c, (a.id, r.agreementId)));
    }
  }

  lemma WorthPermuted(c: Certificate, assets: seq<Asset>, requirements: seq<Requirement>, limits: seq<AllocationLimit>,
                      sa: seq<Asset>, sr: seq<Requirement>, sl: seq<AllocationLimit>)
    requires Permuted(assets, sa) && Permuted(requirements, sr) && Permuted(limits, sl)
    ensures Worth(c, assets, requirements, limits) == Worth(c, sa, sr, sl)
  {
    SumPermuted(assets, sa, AssetWorth(c));
    SumPermuted(requirements, sr, AgreementWorth(c));
    SumPermuted(limits, sl, LimitWorth(c));
  }

  lemma StatesPermuted(allocations: seq<Allocation>, assets: seq<Asset>, requirements: seq<Requirement>, sa: seq<Asset>,
                       sr: seq<Requirement>)
    requires Permuted(assets, sa) && Permuted(requirements, sr)
    ensures StatesPairs(allocations, assets, requirements) <==> StatesPairs(allocations, sa, sr)
  {
    PermutedMembers(assets, sa);
    PermutedMembers(requirements, sr);
    forall al: Allocation
      ensures StatesSome(al, assets, requirements) <==> StatesSome(al, sa, sr)
    {
    }
  }

  lemma CurrencyPermuted(currency: string, assets: seq<Asset>, requirements: seq<Requirement>, sa: seq<Asset>, sr: seq<Requirement>)
    requires Permuted(assets, sa) && Permuted(requirements, sr)
    ensures InCurrency(currency, assets, requirements) <==> InCurrency(currency, sa, sr)
  {
    PermutedMembers(assets, sa);
    PermutedMembers(requirements, sr);
    assert |multiset(assets)| == |assets| && |multiset(sa)| == |sa|;
    assert |multiset(requirements)| == |requirements| && |multiset(sr)| == |sr|;
  }

  lemma CertifiedPermuted(result: AllocationResult, assets: seq<Asset>, requirements: seq<Requirement>, limits: seq<AllocationLimit>,
                          sa: seq<Asset>, sr: seq<Requirement>, sl: seq<AllocationLimit>)
    requires Permuted(assets, sa) && Permuted(requirements, sr) && Permuted(limits, sl)
    ensures Certified(result, assets, requirements, limits) <==> Certified(result, sa, sr, sl)
  {
    CurrencyPermuted(result.currency, assets, requirements, sa, sr);
    SignedPermuted(result.certificate, assets, requirements, limits, sa, sr, sl);
    PairsPricedPermuted(result.certificate, result.feasible, assets, requirements, limits, sa, sr, sl);
    WorthPermuted(result.certificate, assets, requirements, limits, sa, sr, sl);
    StatesPermuted(result.allocations, assets, requirements, sa, sr);
    MeetsPermuted(PlanOf(result.allocations), assets, requirements, limits, sa, sr, sl, true);
  }

  /** The verifier accepts exactly the certified answers, in whatever order the inputs came. */
  lemma AcceptsIsCertified(m: Model, result: AllocationResult, assets: seq<Asset>, requirements: seq<Requirement>,
                           limits: seq<AllocationLimit>)
    requires Admissible(assets, requirements, limits) && IsModelOf(m, assets, requirements, limits)
    ensures Accepts(m, result) <==> Certified(result, assets, requirements, limits)
  {
    ModelIsOrderly(m, assets, requirements, limits);
    AcceptsIff(m, result);
    CertifiedPermuted(result, assets, requirements, limits, m.assets, m.requirements, m.limits);
  }

  lemma ModelIsOrderly(m: Model, assets: seq<Asset>, requirements: seq<Requirement>, limits: seq<AllocationLimit>)
    requires Admissible(assets, requirements, limits) && IsModelOf(m, assets, requirements, limits)
    ensures InOrder(m) && LimitsValid(m) && ValidData(m.assets, m.requirements)
    ensures Permuted(assets, m.assets) && Permuted(requirements, m.requirements) && Permuted(limits, m.limits)
  {
    PermutedSets(assets, requirements, m.assets, m.requirements);
    PermutedMembers(limits, m.limits);
    PermutedValidData(assets, requirements, m.assets, m.requirements);
  }

  // ----- what acceptance settles

  lemma AcceptedAgainst(m: Model, result: AllocationResult, plan: Plan)
    requires InOrder(m) && LimitsValid(m) && Accepts(m, result)
    ensures Meets(plan, m.assets, m.requirements, m.limits, false) ==>
              result.feasible && result.cost.value <= PlanCost(plan, m.assets, m.requirements)
  {
    PlansAreSolutions(m, plan);
    if Meets(plan, m.assets, m.requirements, m.limits, false) {
      if result.feasible {
        AcceptedIsOptimal(m, result, OnEdges(m, plan));
      } else {
        AcceptedIsInfeasible(m, result, OnEdges(m, plan));
      }
    }
  }

  /** Certificate soundness for the inputs themselves, in whatever order they were given. */
  lemma CertifiedSettles(m: Model, result: AllocationResult, assets: seq<Asset>, requirements: seq<Requirement>,
                         limits: seq<AllocationLimit>)
    requires Admissible(assets, requirements, limits) && IsModelOf(m, assets, requirements, limits)
    requires Certified(result, assets, requirements, limits)
    ensures Settles(result, assets, requirements, limits)
  {
    ModelIsOrderly(m, assets, requirements, limits);
    AcceptsIsCertified(m, result, assets, requirements, limits);
    forall plan: Plan
      ensures Meets(plan, assets, requirements, limits, false) ==>
                result.feasible && result.cost.value <= PlanCost(plan, assets, requirements)
    {
      MeetsPermuted(plan, assets, requirements, limits, m.assets, m.requirements, m.limits, false);
      AcceptedAgainst(m, result, plan);
    }
  }

  // ----- which inputs are admitted

  ghost predicate Space(c: char) {
    c as int in {0x09, 0x0A, 0x0B, 0x0C, 0x0D, 0x20, 0x85, 0xA0, 0x1680, 0x2000, 0x2001, 0x2002, 0x2003, 0x2004, 0x2005,
                 0x2006, 0x2007, 0x2008, 0x2009, 0x200A, 0x2028, 0x2029, 0x202F, 0x205F, 0x3000}
  }

  /** The length in UTF-8. */
  ghost function ByteLength(s: string): nat {
    if s == "" then 0 else ByteLength(s[..|s| - 1]) + Bytes(s[|s| - 1] as int)
  }

  ghost function Bytes(c: int): nat {
    if c <= 0x7F then 1 else if c <= 0x7FF then 2 else if c <= 0xFFFF then 3 else 4
  }

  /** Not empty, no space around it, at most 256 bytes. */
  ghost predicate Identifier(s: string) {
    s != "" && !Space(s[0]) && !Space(s[|s| - 1]) && ByteLength(s) <= 256
  }

  ghost predicate CurrencyCode(c: string) {
    |c| == 3 && 'A' <= c[0] <= 'Z' && 'A' <= c[1] <= 'Z' && 'A' <= c[2] <= 'Z'
  }

  ghost predicate NotNegative(e: Exact) {
    e.Number? && e.value >= 0.0
  }

  ghost predicate Named(assets: seq<Asset>, id: string) {
    exists a :: a in assets && a.id == id
  }

  /** The pair of an asset and an agreement whose schedule lists it as eligible. */
  ghost predicate EligiblePair(assets: seq<Asset>, requirements: seq<Requirement>, assetId: string, agreementId: string) {
    exists a, r :: a in assets && r in requirements && a.id == assetId && r.agreementId == agreementId
                   && a.id in r.schedule && r.schedule[a.id].eligible
  }

  ghost predicate AdmittedAssets(assets: seq<Asset>) {
    && (forall a :: a in assets ==> Identifier(a.id) && CurrencyCode(a.currency) && NotNegative(a.available) && NotNegative(a.cost))
    && (forall i, j :: 0 <= i < j < |assets| ==> assets[i].id != assets[j].id)
  }

  ghost predicate AdmittedRequirement(r: Requirement, assets: seq<Asset>) {
    && Identifier(r.agreementId) && CurrencyCode(r.currency) && NotNegative(r.amount)
    && (forall id :: id in r.schedule ==> Named(assets, id) && NotNegative(r.schedule[id].haircut) && r.schedule[id].haircut.value < 1.0)
  }

  ghost predicate AdmittedRequirements(requirements: seq<Requirement>, assets: seq<Asset>) {
    && (forall r :: r in requirements ==> AdmittedRequirement(r, assets))
    && (forall i, j :: 0 <= i < j < |requirements| ==> requirements[i].agreementId != requirements[j].agreementId)
  }

  ghost predicate AdmittedLimit(l: AllocationLimit, assets: seq<Asset>, requirements: seq<Requirement>) {
    && Identifier(l.id) && NotNegative(l.maximum) && |l.terms| <= 512
    && (forall t :: t in l.terms ==> EligiblePair(assets, requirements, t.assetId, t.agreementId) && NotNegative(t.weight))
    && (forall i, j :: 0 <= i < j < |l.terms| ==>
          (l.terms[i].assetId, l.terms[i].agreementId) != (l.terms[j].assetId, l.terms[j].agreementId))
  }

  ghost predicate AdmittedLimits(limits: seq<AllocationLimit>, assets: seq<Asset>, requirements: seq<Requirement>) {
    && |limits| <= 64 && (forall l :: l in limits ==> AdmittedLimit(l, assets, requirements))
    && (forall i, j :: 0 <= i < j < |limits| ==> limits[i].id != limits[j].id)
  }

  ghost predicate AdmittedSizes(assets: seq<Asset>, requirements: seq<Requirement>) {
    && |assets| <= 32 && |requirements| <= 32 && (forall r :: r in requirements ==> |r.schedule| <= 32)
    && |set a, r | a in assets && r in requirements && a.id in r.schedule && r.schedule[a.id].eligible :: (a.id, r.agreementId)| <= 512
  }

  /** The inputs the allocator accepts. */
  ghost predicate Admitted(assets: seq<Asset>, requirements: seq<Requirement>, limits: seq<AllocationLimit>) {
    && AdmittedAssets(assets) && AdmittedRequirements(requirements, assets) && AdmittedLimits(limits, assets, requirements)
    && AdmittedSizes(assets, requirements) && exists currency :: InCurrency(currency, assets, requirements)
  }

  lemma {:induction false} ByteLengthIs(s: string)
    ensures EncodedLength(s) == ByteLength(s)
  {
    if s != "" {
      ByteLengthIs(s[..|s| - 1]);
      EncodedAppend(s[..|s| - 1], s[|s| - 1]);
      assert s == s[..|s| - 1] + [s[|s| - 1]];
      assert EncodedLength([s[|s| - 1]]) == EncodedLength(s[|s| - 1..]);
    }
  }

  lemma {:induction false} EncodedAppend(s: string, c: char)
    ensures EncodedLength(s + [c]) == EncodedLength(s) + EncodedLength([c])
  {
    if s != "" {
      EncodedAppend(s[1..], c);
      assert (s + [c])[1..] == s[1..] + [c];
    } else {
      assert s + [c] == [c];
    }
  }

  lemma IdentifierIs(s: string)
    ensures ValidId(s) <==> Identifier(s)
  {
    ByteLengthIs(s);
  }

  lemma AssetsIff(assets: seq<Asset>, currency: string)
    requires forall a :: a in assets ==> a.currency == currency
    ensures (forall a :: a in assets ==> ValidAsset(a, currency)) && DistinctKeys(assets, AssetKey) <==> AdmittedAssets(assets)
  {
    forall a | a in assets
      ensures ValidAsset(a, currency) <==>
                Identifier(a.id) && CurrencyCode(a.currency) && NotNegative(a.available) && NotNegative(a.cost)
    {
      IdentifierIs(a.id);
    }
  }

  lemma RequirementIff(r: Requirement, assets: seq<Asset>)
    ensures ValidRequirement(r, r.currency, AssetIds(assets)) <==> AdmittedRequirement(r, assets)
  {
    IdentifierIs(r.agreementId);
    assert forall id :: Named(assets, id) <==> id in AssetIds(assets);
  }

  lemma RequirementsIff(requirements: seq<Requirement>, assets: seq<Asset>, currency: string)
    requires forall r :: r in requirements ==> r.currency == currency
    ensures AdmittedRequirements(requirements, assets) <==>
              (forall r :: r in requirements ==> ValidRequirement(r, currency, AssetIds(assets))) && DistinctKeys(requirements, AgreementKey)
  {
    forall r | r in requirements
      ensures ValidRequirement(r, currency, AssetIds(assets)) <==> AdmittedRequirement(r, assets)
    {
      RequirementIff(r, assets);
    }
  }

  lemma LimitIff(l: AllocationLimit, assets: seq<Asset>, requirements: seq<Requirement>)
    ensures ValidLimit(l, Pairs(assets, requirements)) <==> AdmittedLimit(l, assets, requirements)
  {
    IdentifierIs(l.id);
    assert forall t: LimitTerm :: TermKey(t) in Pairs(assets, requirements) <==>
      EligiblePair(assets, requirements, t.assetId, t.agreementId);
  }

  lemma LimitsIff(limits: seq<AllocationLimit>, assets: seq<Asset>, requirements: seq<Requirement>)
    ensures ValidLimits(limits, Pairs(assets, requirements)) <==> AdmittedLimits(limits, assets, requirements)
  {
    forall l | l in limits
      ensures ValidLimit(l, Pairs(assets, requirements)) <==> AdmittedLimit(l, assets, requirements)
    {
      LimitIff(l, assets, requirements);
    }
  }

  lemma SizesIff(assets: seq<Asset>, requirements: seq<Requirement>)
    ensures WithinSizes(assets, requirements) <==> AdmittedSizes(assets, requirements)
  {
    assert Pairs(assets, requirements)
        == set a, r | a in assets && r in requirements && a.id in r.schedule && r.schedule[a.id].eligible :: (a.id, r.agreementId);
  }

  lemma CommonIff(assets: seq<Asset>, requirements: seq<Requirement>)
    ensures (exists currency :: InCurrency(currency, assets, requirements)) <==>
              InCurrency(CommonCurrency(assets, requirements), assets, requirements)
  {
    if currency :| InCurrency(currency, assets, requirements) {
      if assets != [] {
        assert assets[0] in assets;
      } else if requirements != [] {
        assert requirements[0] in requirements;
      }
    }
  }

  /** The checks the allocator makes admit exactly the inputs described above. */
  lemma AdmittedIff(assets: seq<Asset>, requirements: seq<Requirement>, limits: seq<AllocationLimit>)
    ensures Admissible(assets, requirements, limits) <==> Admitted(assets, requirements, limits)
  {
    var currency := CommonCurrency(assets, requirements);
    CommonIff(assets, requirements);
    LimitsIff(limits, assets, requirements);
    SizesIff(assets, requirements);
    if InCurrency(currency, assets, requirements) {
      AssetsIff(assets, currency);
      RequirementsIff(requirements, assets, currency);
    }
  }

  // ----- the verifier

  /** The verifier: exactly the certified answers to admitted inputs, and those settle the inputs. */
  method VerifyConstrainedAllocation(assets: seq<Asset>, requirements: seq<Requirement>, limits: seq<AllocationLimit>,
                                     result: AllocationResult)
    returns (err: Error)
    ensures err.NoError? <==> Admitted(assets, requirements, limits) && Certified(result, assets, requirements, limits)
    ensures err.InvalidCertificate? <==> Admitted(assets, requirements, limits) && !Certified(result, assets, requirements, limits)
    ensures err.NoError? || err.InvalidCertificate? || err.InvalidInput? || err.LimitExceeded?
    ensures err.NoError? ==> Settles(result, assets, requirements, limits)
  {
    AdmittedIff(assets, requirements, limits);
    var built;
    built, err := Prepare(assets, requirements, limits);
    if !err.NoError? {
      return;
    }
    err := VerifyBuilt(built.View(), assets, requirements, limits, result);
  }

  method VerifyBuilt(m: Model, assets: seq<Asset>, requirements: seq<Requirement>, limits: seq<AllocationLimit>,
                     result: AllocationResult)
    returns (err: Error)
    requires Admissible(assets, requirements, limits) && IsModelOf(m, assets, requirements, limits)
    ensures err == if Certified(result, assets, requirements, limits) then NoError else InvalidCertificate
    ensures err.NoError? ==> Settles(result, assets, requirements, limits)
  {
    AcceptsIsCertified(m, result, assets, requirements, limits);
    var ok := VerifyModel(m, result);
    err := if ok then NoError else InvalidCertificate;
    if ok {
      CertifiedSettles(m, result, assets, requirements, limits);
    }
  }
}
