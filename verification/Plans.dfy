/**
 What an answer means for the inputs themselves, by identifier and in any order: plans
 assign a market value to every asset/agreement pair, and the program's rows are the
 sums a reader of the inputs would write down.
 */
module Plans {
  import opened Vectors
  import opened Inputs
  import opened Programs
  import opened Models
  import opened Building
  import opened Certificates
  import opened Verifying

  /** The market value of each asset used under each agreement. */
  type Plan = Key -> real

  ghost function SumOver<T>(xs: seq<T>, f: T -> real): real {
    if xs == [] then 0.0 else SumOver(xs[..|xs| - 1], f) + f(xs[|xs| - 1])
  }

  lemma SumLast<T>(xs: seq<T>, x: T, f: T -> real)
    ensures SumOver(xs + [x], f) == SumOver(xs, f) + f(x)
  {
    assert (xs + [x])[..|xs|] == xs;
  }

  lemma {:induction false} SumAppend<T>(xs: seq<T>, ys: seq<T>, f: T -> real)
    ensures SumOver(xs + ys, f) == SumOver(xs, f) + SumOver(ys, f)
  {
    if ys == [] {
      assert xs + ys == xs;
    } else {
      var init, last := ys[..|ys| - 1], ys[|ys| - 1];
      SumAppend(xs, init, f);
      assert xs + ys == (xs + init) + [last];
      SumLast(xs + init, last, f);
    }
  }

  /** Sums do not depend on order. */
  lemma {:induction false} SumPermuted<T>(xs: seq<T>, ys: seq<T>, f: T -> real)
    requires Permuted(xs, ys)
    ensures SumOver(xs, f) == SumOver(ys, f)
    decreases |xs|
  {
    PermutedMembers(xs, ys);
    if xs != [] {
      var init, last := xs[..|xs| - 1], xs[|xs| - 1];
      assert last in ys;
      var left, right := SplitAt(ys, last);
      assert xs == init + [last];
      SumPermuted(init, left + right, f);
      SumAppend(left, right, f);
      SumAppend(left + [last], right, f);
      SumLast(left, last, f);
    }
  }

  // ----- what a plan does to the inputs

  // Written from the fields of the inputs alone, so that they speak for themselves.

  /** The number an input states. */
  ghost function Figure(e: Exact): real {
    match e
    case Number(v) => v
    case Unavailable => 0.0
  }

  ghost function Share(plan: Plan, id: string): Requirement -> real {
    (r: Requirement) => if id in r.schedule && r.schedule[id].eligible then plan((id, r.agreementId)) else 0.0
  }

  ghost function Cover(plan: Plan, r: Requirement): Asset -> real {
    (a: Asset) =>
      if a.id in r.schedule && r.schedule[a.id].eligible
      then (1.0 - Figure(r.schedule[a.id].haircut)) * plan((a.id, r.agreementId)) else 0.0
  }

  ghost function Spend(plan: Plan, r: Requirement): Asset -> real {
    (a: Asset) =>
      if a.id in r.schedule && r.schedule[a.id].eligible then Figure(a.cost) * plan((a.id, r.agreementId)) else 0.0
  }

  ghost function TermUse(plan: Plan): LimitTerm -> real {
    (t: LimitTerm) => Figure(t.weight) * plan((t.assetId, t.agreementId))
  }

  /** The plan posts nothing negative on an eligible pair. */
  ghost predicate NonnegativePlan(plan: Plan, assets: seq<Asset>, requirements: seq<Requirement>) {
    forall a, r :: a in assets && r in requirements && a.id in r.schedule && r.schedule[a.id].eligible ==>
      plan((a.id, r.agreementId)) >= 0.0
  }

  ghost function AgreementCost(plan: Plan, assets: seq<Asset>): Requirement -> real {
    (r: Requirement) => SumOver(assets, Spend(plan, r))
  }

  /** Market value of the asset used over all agreements. */
  ghost function UsedValue(plan: Plan, requirements: seq<Requirement>, a: Asset): real {
    SumOver(requirements, Share(plan, a.id))
  }

  /** Value posted to the agreement after haircuts. */
  ghost function PostedValue(plan: Plan, assets: seq<Asset>, r: Requirement): real {
    SumOver(assets, Cover(plan, r))
  }

  ghost function LimitValue(plan: Plan, l: AllocationLimit): real {
    SumOver(l.terms, TermUse(plan))
  }

  ghost function PlanCost(plan: Plan, assets: seq<Asset>, requirements: seq<Requirement>): real {
    SumOver(requirements, AgreementCost(plan, assets))
  }

  /** The plan posts nonnegative values, keeps capacities and limits and covers every agreement. */
  ghost predicate Meets(plan: Plan, assets: seq<Asset>, requirements: seq<Requirement>, limits: seq<AllocationLimit>,
                        exactly: bool)
  {
    && NonnegativePlan(plan, assets, requirements)
    && (forall a :: a in assets ==> UsedValue(plan, requirements, a) <= Figure(a.available))
    && (forall l :: l in limits ==> LimitValue(plan, l) <= Figure(l.maximum))
    && (forall r :: r in requirements ==>
          if exactly then PostedValue(plan, assets, r) == Figure(r.amount)
          else PostedValue(plan, assets, r) >= Figure(r.amount))
  }

  lemma MeetsPermuted(plan: Plan, assets: seq<Asset>, requirements: seq<Requirement>, limits: seq<AllocationLimit>,
                      sa: seq<Asset>, sr: seq<Requirement>, sl: seq<AllocationLimit>, exactly: bool)
    requires Permuted(assets, sa) && Permuted(requirements, sr) && Permuted(limits, sl)
    ensures Meets(plan, assets, requirements, limits, exactly) <==> Meets(plan, sa, sr, sl, exactly)
    ensures PlanCost(plan, assets, requirements) == PlanCost(plan, sa, sr)
  {
    PermutedMembers(assets, sa);
    PermutedMembers(requirements, sr);
    PermutedMembers(limits, sl);
    forall a: Asset
      ensures UsedValue(plan, requirements, a) == UsedValue(plan, sr, a)
    {
      SumPermuted(requirements, sr, Share(plan, a.id));
    }
    forall r: Requirement
      ensures PostedValue(plan, assets, r) == PostedValue(plan, sa, r)
    {
      SumPermuted(assets, sa, Cover(plan, r));
    }
    PlanCostPermuted(plan, assets, requirements, sa, sr);
  }

  lemma {:induction false} SumSame<T>(xs: seq<T>, f: T -> real, g: T -> real)
    requires forall x :: x in xs ==> f(x) == g(x)
    ensures SumOver(xs, f) == SumOver(xs, g)
  {
    if xs != [] {
      SumSame(xs[..|xs| - 1], f, g);
    }
  }

  lemma PlanCostPermuted(plan: Plan, assets: seq<Asset>, requirements: seq<Requirement>, sa: seq<Asset>, sr: seq<Requirement>)
    requires Permuted(assets, sa) && Permuted(requirements, sr)
    ensures PlanCost(plan, assets, requirements) == PlanCost(plan, sa, sr)
  {
    forall r: Requirement
      ensures AgreementCost(plan, assets)(r) == AgreementCost(plan, sa)(r)
    {
      SumPermuted(assets, sa, Spend(plan, r));
    }
    SumSame(requirements, AgreementCost(plan, assets), AgreementCost(plan, sa));
    SumPermuted(requirements, sr, AgreementCost(plan, sa));
  }

  // ----- sums over edges

  /** The key of an edge; edges of a model are always in range. */
  function KeyOf(assets: seq<Asset>, requirements: seq<Requirement>, e: Edge): Key {
    if e.asset < |assets| && e.requirement < |requirements| then EdgeKey(assets, requirements, e) else ("", "")
  }

  function CapacityTerm(plan: Plan, assets: seq<Asset>, requirements: seq<Requirement>, i: nat): Edge -> real {
    (e: Edge) => if e.asset == i then plan(KeyOf(assets, requirements, e)) else 0.0
  }

  function CoverageTerm(plan: Plan, assets: seq<Asset>, requirements: seq<Requirement>, q: nat): Edge -> real {
    (e: Edge) => if e.requirement == q then e.coverage * plan(KeyOf(assets, requirements, e)) else 0.0
  }

  function CostTerm(plan: Plan, assets: seq<Asset>, requirements: seq<Requirement>): Edge -> real {
    (e: Edge) => e.cost * plan(KeyOf(assets, requirements, e))
  }

  /** The terms of the edge of asset `n` under agreement `q`. */
  lemma TermsAt(plan: Plan, assets: seq<Asset>, requirements: seq<Requirement>, q: nat, n: nat, i: nat)
    requires q < |requirements| && n < |assets| && Eligible(requirements[q], assets[n].id)
    ensures var e, r, a := EdgeOf(assets, requirements[q], q, n), requirements[q], assets[n];
            && CapacityTerm(plan, assets, requirements, i)(e) == (if n == i then Share(plan, a.id)(r) else 0.0)
            && CoverageTerm(plan, assets, requirements, i)(e) == (if q == i then Cover(plan, r)(a) else 0.0)
            && CostTerm(plan, assets, requirements)(e) == Spend(plan, r)(a)
  {
    var e := EdgeOf(assets, requirements[q], q, n);
    assert KeyOf(assets, requirements, e) == (assets[n].id, requirements[q].agreementId);
  }

  /** One agreement's edges, step by step. */
  lemma EdgesForSum(assets: seq<Asset>, r: Requirement, q: nat, n: nat, f: Edge -> real)
    requires n < |assets|
    ensures SumOver(EdgesFor(assets, r, q, n + 1), f)
            == SumOver(EdgesFor(assets, r, q, n), f)
               + if Eligible(r, assets[n].id) then f(EdgeOf(assets, r, q, n)) else 0.0
  {
    var es := EdgesFor(assets, r, q, n);
    if Eligible(r, assets[n].id) {
      SumLast(es, EdgeOf(assets, r, q, n), f);
    } else {
      assert EdgesFor(assets, r, q, n + 1) == es;
    }
  }

  lemma {:induction false} CapacityFor(plan: Plan, assets: seq<Asset>, requirements: seq<Requirement>, i: nat, q: nat, n: nat)
    requires q < |requirements| && n <= |assets| && i < |assets|
    ensures SumOver(EdgesFor(assets, requirements[q], q, n), CapacityTerm(plan, assets, requirements, i))
            == if i < n then Share(plan, assets[i].id)(requirements[q]) else 0.0
  {
    if n > 0 {
      CapacityFor(plan, assets, requirements, i, q, n - 1);
      if Eligible(requirements[q], assets[n - 1].id) {
        TermsAt(plan, assets, requirements, q, n - 1, i);
      }
      EdgesForSum(assets, requirements[q], q, n - 1, CapacityTerm(plan, assets, requirements, i));
    }
  }

  /** The edges of one agreement, summed. */
  ghost function AgreementSum(assets: seq<Asset>, requirements: seq<Requirement>, q: nat, f: Edge -> real): real
    requires q < |requirements|
  {
    SumOver(EdgesFor(assets, requirements[q], q, |assets|), f)
  }

  /** Summed over its edges, each agreement gives its own amount. */
  ghost predicate PerAgreement(assets: seq<Asset>, requirements: seq<Requirement>, f: Edge -> real, g: Requirement -> real) {
    forall q :: 0 <= q < |requirements| ==> AgreementSum(assets, requirements, q, f) == g(requirements[q])
  }

  lemma EdgesStep(assets: seq<Asset>, requirements: seq<Requirement>, k: nat, f: Edge -> real)
    requires 0 < k <= |requirements|
    ensures SumOver(Edges(assets, requirements, k), f)
            == SumOver(Edges(assets, requirements, k - 1), f) + AgreementSum(assets, requirements, k - 1, f)
  {
    SumAppend(Edges(assets, requirements, k - 1), EdgesFor(assets, requirements[k - 1], k - 1, |assets|), f);
  }

  lemma PrefixStep(requirements: seq<Requirement>, k: nat, g: Requirement -> real)
    requires k < |requirements|
    ensures SumOver(requirements[..k + 1], g) == SumOver(requirements[..k], g) + g(requirements[k])
  {
    assert requirements[..k + 1] == requirements[..k] + [requirements[k]];
    SumLast(requirements[..k], requirements[k], g);
  }

  /** The first `k` agreements' sums, and their own amounts, added up. */
  ghost function SumsTo(assets: seq<Asset>, requirements: seq<Requirement>, f: Edge -> real, k: nat): real
    requires k <= |requirements|
  {
    if k == 0 then 0.0 else SumsTo(assets, requirements, f, k - 1) + AgreementSum(assets, requirements, k - 1, f)
  }

  ghost function AmountsTo(requirements: seq<Requirement>, g: Requirement -> real, k: nat): real
    requires k <= |requirements|
  {
    if k == 0 then 0.0 else AmountsTo(requirements, g, k - 1) + g(requirements[k - 1])
  }

  lemma SumsStep(assets: seq<Asset>, requirements: seq<Requirement>, f: Edge -> real, k: nat)
    requires 0 < k <= |requirements|
    ensures SumsTo(assets, requirements, f, k) == SumsTo(assets, requirements, f, k - 1) + AgreementSum(assets, requirements, k - 1, f)
  {
  }

  lemma NoEdges(assets: seq<Asset>, requirements: seq<Requirement>, f: Edge -> real)
    ensures SumOver(Edges(assets, requirements, 0), f) == 0.0
  {
    assert Edges(assets, requirements, 0) == [];
  }

  lemma {:induction false} SumsToIsSum(assets: seq<Asset>, requirements: seq<Requirement>, f: Edge -> real, k: nat)
    requires k <= |requirements|
    ensures SumOver(Edges(assets, requirements, k), f) == SumsTo(assets, requirements, f, k)
    decreases k
  {
    if k == 0 {
      NoEdges(assets, requirements, f);
    } else {
      SumsToIsSum(assets, requirements, f, k - 1);
      var now, before := SumOver(Edges(assets, requirements, k), f), SumOver(Edges(assets, requirements, k - 1), f);
      var added := AgreementSum(assets, requirements, k - 1, f);
      var total, rest := SumsTo(assets, requirements, f, k), SumsTo(assets, requirements, f, k - 1);
      assert before == rest;
      assert now == before + added by {
        EdgesStep(assets, requirements, k, f);
      }
      assert total == rest + added by {
        SumsStep(assets, requirements, f, k);
      }
      assert now == total;
    }
  }

  lemma {:induction false} AmountsToIsSum(requirements: seq<Requirement>, g: Requirement -> real, k: nat)
    requires k <= |requirements|
    ensures SumOver(requirements[..k], g) == AmountsTo(requirements, g, k)
  {
    if k > 0 {
      AmountsToIsSum(requirements, g, k - 1);
      PrefixStep(requirements, k - 1, g);
    }
  }

  lemma {:induction false} SumByAgreement(assets: seq<Asset>, requirements: seq<Requirement>, k: nat, f: Edge -> real, g: Requirement -> real)
    requires k <= |requirements| && PerAgreement(assets, requirements, f, g)
    ensures SumsTo(assets, requirements, f, k) == AmountsTo(requirements, g, k)
  {
    if k > 0 {
      SumByAgreement(assets, requirements, k - 1, f, g);
    }
  }

  lemma SumAllAgreements(assets: seq<Asset>, requirements: seq<Requirement>, f: Edge -> real, g: Requirement -> real)
    requires PerAgreement(assets, requirements, f, g)
    ensures SumOver(Edges(assets, requirements, |requirements|), f) == SumOver(requirements, g)
  {
    SumByAgreement(assets, requirements, |requirements|, f, g);
    SumsToIsSum(assets, requirements, f, |requirements|);
    AmountsToIsSum(requirements, g, |requirements|);
    assert requirements[..|requirements|] == requirements;
  }

  /** Only one agreement's edges count. */
  ghost predicate OnlyAgreement(assets: seq<Asset>, requirements: seq<Requirement>, f: Edge -> real, p: nat, amount: real) {
    forall q :: 0 <= q < |requirements| ==> AgreementSum(assets, requirements, q, f) == if q == p then amount else 0.0
  }

  lemma {:induction false} SumOfOne(assets: seq<Asset>, requirements: seq<Requirement>, k: nat, f: Edge -> real, p: nat, amount: real)
    requires k <= |requirements| && OnlyAgreement(assets, requirements, f, p, amount)
    ensures SumsTo(assets, requirements, f, k) == if p < k then amount else 0.0
  {
    if k > 0 {
      SumOfOne(assets, requirements, k - 1, f, p, amount);
    }
  }

  lemma CapacitySum(plan: Plan, assets: seq<Asset>, requirements: seq<Requirement>, i: nat)
    requires i < |assets|
    ensures PerAgreement(assets, requirements, CapacityTerm(plan, assets, requirements, i), Share(plan, assets[i].id))
  {
    forall q | 0 <= q < |requirements|
      ensures AgreementSum(assets, requirements, q, CapacityTerm(plan, assets, requirements, i))
              == Share(plan, assets[i].id)(requirements[q])
    {
      CapacityFor(plan, assets, requirements, i, q, |assets|);
    }
  }

  /** Edges of one agreement priced asset by asset. */
  ghost predicate PerAsset(assets: seq<Asset>, r: Requirement, q: nat, f: Edge -> real, g: Asset -> real) {
    forall i :: 0 <= i < |assets| ==> g(assets[i]) == if Eligible(r, assets[i].id) then f(EdgeOf(assets, r, q, i)) else 0.0
  }

  lemma {:induction false} EdgesForSumOver(assets: seq<Asset>, r: Requirement, q: nat, n: nat, f: Edge -> real, g: Asset -> real)
    requires n <= |assets| && PerAsset(assets, r, q, f, g)
    ensures SumOver(EdgesFor(assets, r, q, n), f) == SumOver(assets[..n], g)
  {
    if n > 0 {
      EdgesForSumOver(assets, r, q, n - 1, f, g);
      EdgesForSum(assets, r, q, n - 1, f);
      assert assets[..n] == assets[..n - 1] + [assets[n - 1]];
      SumLast(assets[..n - 1], assets[n - 1], g);
    }
  }

  lemma AgreementByAsset(assets: seq<Asset>, requirements: seq<Requirement>, q: nat, f: Edge -> real, g: Asset -> real)
    requires q < |requirements| && PerAsset(assets, requirements[q], q, f, g)
    ensures AgreementSum(assets, requirements, q, f) == SumOver(assets, g)
  {
    EdgesForSumOver(assets, requirements[q], q, |assets|, f, g);
    assert assets[..|assets|] == assets;
  }

  lemma {:induction false} SumOfNothing<T>(xs: seq<T>, f: T -> real)
    requires forall x :: x in xs ==> f(x) == 0.0
    ensures SumOver(xs, f) == 0.0
  {
    if xs != [] {
      SumOfNothing(xs[..|xs| - 1], f);
    }
  }

  lemma CoverPerAsset(plan: Plan, assets: seq<Asset>, requirements: seq<Requirement>, q: nat)
    requires q < |requirements|
    ensures PerAsset(assets, requirements[q], q, CoverageTerm(plan, assets, requirements, q), Cover(plan, requirements[q]))
  {
    forall i | 0 <= i < |assets| && Eligible(requirements[q], assets[i].id)
      ensures Cover(plan, requirements[q])(assets[i])
              == CoverageTerm(plan, assets, requirements, q)(EdgeOf(assets, requirements[q], q, i))
    {
      TermsAt(plan, assets, requirements, q, i, q);
    }
  }

  lemma CoverNothing(plan: Plan, assets: seq<Asset>, requirements: seq<Requirement>, p: nat, q: nat)
    requires q < |requirements| && p != q
    ensures AgreementSum(assets, requirements, q, CoverageTerm(plan, assets, requirements, p)) == 0.0
  {
    var edges := EdgesFor(assets, requirements[q], q, |assets|);
    forall e | e in edges ensures CoverageTerm(plan, assets, requirements, p)(e) == 0.0 {
      EdgesForMembers(assets, requirements[q], q, |assets|, e);
    }
    SumOfNothing(edges, CoverageTerm(plan, assets, requirements, p));
  }

  lemma CoverageSum(plan: Plan, assets: seq<Asset>, requirements: seq<Requirement>, p: nat)
    requires p < |requirements|
    ensures OnlyAgreement(assets, requirements, CoverageTerm(plan, assets, requirements, p), p,
                          PostedValue(plan, assets, requirements[p]))
  {
    forall q | 0 <= q < |requirements|
      ensures AgreementSum(assets, requirements, q, CoverageTerm(plan, assets, requirements, p))
              == if q == p then PostedValue(plan, assets, requirements[p]) else 0.0
    {
      if q == p {
        CoverPerAsset(plan, assets, requirements, p);
        AgreementByAsset(assets, requirements, p, CoverageTerm(plan, assets, requirements, p), Cover(plan, requirements[p]));
      } else {
        CoverNothing(plan, assets, requirements, p, q);
      }
    }
  }

  lemma SpendPerAsset(plan: Plan, assets: seq<Asset>, requirements: seq<Requirement>, q: nat)
    requires q < |requirements|
    ensures PerAsset(assets, requirements[q], q, CostTerm(plan, assets, requirements), Spend(plan, requirements[q]))
  {
    forall i | 0 <= i < |assets| && Eligible(requirements[q], assets[i].id)
      ensures Spend(plan, requirements[q])(assets[i])
              == CostTerm(plan, assets, requirements)(EdgeOf(assets, requirements[q], q, i))
    {
      TermsAt(plan, assets, requirements, q, i, 0);
    }
  }

  lemma CostSum(plan: Plan, assets: seq<Asset>, requirements: seq<Requirement>)
    ensures PerAgreement(assets, requirements, CostTerm(plan, assets, requirements), AgreementCost(plan, assets))
  {
    forall q | 0 <= q < |requirements|
      ensures AgreementSum(assets, requirements, q, CostTerm(plan, assets, requirements))
              == AgreementCost(plan, assets)(requirements[q])
    {
      SpendPerAsset(plan, assets, requirements, q);
      AgreementByAsset(assets, requirements, q, CostTerm(plan, assets, requirements), Spend(plan, requirements[q]));
    }
  }

  // ----- plans as vectors

  /** The plan's value on every edge. */
  ghost function OnEdges(m: Model, plan: Plan): (x: Vec)
    ensures |x| == |m.edges|
    ensures forall j :: 0 <= j < |x| ==> x[j] == plan(KeyOf(m.assets, m.requirements, m.edges[j]))
  {
    seq(|m.edges|, j requires 0 <= j < |m.edges| => plan(KeyOf(m.assets, m.requirements, m.edges[j])))
  }

  lemma {:induction false} DotIsSum<T>(xs: seq<T>, row: Vec, x: Vec, f: T -> real, k: nat)
    requires |row| == |x| == |xs| && k <= |xs|
    requires forall j :: 0 <= j < |xs| ==> row[j] * x[j] == f(xs[j])
    ensures DotTo(row, x, k) == SumOver(xs[..k], f)
  {
    if k > 0 {
      DotIsSum(xs, row, x, f, k - 1);
      assert xs[..k] == xs[..k - 1] + [xs[k - 1]];
      SumLast(xs[..k - 1], xs[k - 1], f);
    }
  }

  /** The row's entries, times the plan, are the terms. */
  ghost predicate RowTerms(m: Model, plan: Plan, row: Vec, f: Edge -> real) {
    && |row| == |m.edges|
    && forall j :: 0 <= j < |m.edges| ==> row[j] * plan(KeyOf(m.assets, m.requirements, m.edges[j])) == f(m.edges[j])
  }

  lemma RowIsSum(m: Model, plan: Plan, row: Vec, f: Edge -> real)
    requires RowTerms(m, plan, row, f)
    ensures Dot(row, OnEdges(m, plan)) == SumOver(m.edges, f)
  {
    assert m.edges[..|m.edges|] == m.edges;
    DotIsSum(m.edges, row, OnEdges(m, plan), f, |m.edges|);
  }

  /** Inputs of a model in canonical order. */
  ghost predicate InOrder(m: Model) {
    ValidModel(m) && m == ModelOf(m.assets, m.requirements, m.limits)
  }

  lemma CapacityTerms(m: Model, plan: Plan, i: nat)
    ensures RowTerms(m, plan, CapacityRow(m.edges, i), CapacityTerm(plan, m.assets, m.requirements, i))
  {
  }

  lemma CoverageTerms(m: Model, plan: Plan, q: nat)
    ensures RowTerms(m, plan, CoverageRow(m.edges, q), CoverageTerm(plan, m.assets, m.requirements, q))
  {
  }

  lemma CostTerms(m: Model, plan: Plan)
    ensures RowTerms(m, plan, EdgeCosts(m.edges), CostTerm(plan, m.assets, m.requirements))
  {
  }

  lemma CapacityIsUse(m: Model, plan: Plan, i: nat)
    requires InOrder(m) && i < |m.assets|
    ensures Dot(CapacityRow(m.edges, i), OnEdges(m, plan)) == UsedValue(plan, m.requirements, m.assets[i])
  {
    var f, g := CapacityTerm(plan, m.assets, m.requirements, i), Share(plan, m.assets[i].id);
    CapacityTerms(m, plan, i);
    RowIsSum(m, plan, CapacityRow(m.edges, i), f);
    CapacitySum(plan, m.assets, m.requirements, i);
    SumAllAgreements(m.assets, m.requirements, f, g);
  }

  lemma CoverageIsPosted(m: Model, plan: Plan, q: nat)
    requires InOrder(m) && q < |m.requirements|
    ensures Dot(CoverageRow(m.edges, q), OnEdges(m, plan)) == PostedValue(plan, m.assets, m.requirements[q])
  {
    var f := CoverageTerm(plan, m.assets, m.requirements, q);
    CoverageTerms(m, plan, q);
    RowIsSum(m, plan, CoverageRow(m.edges, q), f);
    CoverageSum(plan, m.assets, m.requirements, q);
    SumOfOne(m.assets, m.requirements, |m.requirements|, f, q, PostedValue(plan, m.assets, m.requirements[q]));
    SumsToIsSum(m.assets, m.requirements, f, |m.requirements|);
  }

  lemma CostIsPlanCost(m: Model, plan: Plan)
    requires InOrder(m)
    ensures Dot(EdgeCosts(m.edges), OnEdges(m, plan)) == PlanCost(plan, m.assets, m.requirements)
  {
    var f, g := CostTerm(plan, m.assets, m.requirements), AgreementCost(plan, m.assets);
    CostTerms(m, plan);
    RowIsSum(m, plan, EdgeCosts(m.edges), f);
    CostSum(plan, m.assets, m.requirements);
    SumAllAgreements(m.assets, m.requirements, f, g);
  }

  // ----- limits

  /** The weights of the first `n` terms, edge by edge. */
  ghost function WeightsTo(m: Model, terms: seq<LimitTerm>, n: nat): (w: Vec)
    requires n <= |terms|
    ensures |w| == |m.edges|
    ensures forall j :: 0 <= j < |w| ==> w[j] == WeightTo(terms, n, KeyOf(m.assets, m.requirements, m.edges[j]))
  {
    seq(|m.edges|, j requires 0 <= j < |m.edges| => WeightTo(terms, n, KeyOf(m.assets, m.requirements, m.edges[j])))
  }

  /** A valid term names exactly one edge. */
  lemma TermEdge(m: Model, k: Key) returns (j: nat)
    requires InOrder(m) && k in Pairs(m.assets, m.requirements)
    ensures j < |m.edges| && KeyOf(m.assets, m.requirements, m.edges[j]) == k
    ensures forall i :: 0 <= i < |m.edges| && i != j ==> KeyOf(m.assets, m.requirements, m.edges[i]) != k
  {
    var keys := EdgeKeys(m.assets, m.requirements);
    EdgeKeysArePairs(m.assets, m.requirements);
    assert k in (set x | x in keys);
    j :| 0 <= j < |keys| && keys[j] == k;
    forall i | 0 <= i < |m.edges| && i != j
      ensures KeyOf(m.assets, m.requirements, m.edges[i]) != k
    {
      EdgeKeysDistinct(m.assets, m.requirements, i, j);
    }
  }

  lemma WeightsStep(m: Model, terms: seq<LimitTerm>, n: nat, j: nat)
    requires n < |terms| && j < |m.edges| && KeyOf(m.assets, m.requirements, m.edges[j]) == TermKey(terms[n])
    requires forall i :: 0 <= i < |m.edges| && i != j ==> KeyOf(m.assets, m.requirements, m.edges[i]) != TermKey(terms[n])
    ensures WeightsTo(m, terms, n + 1) == WeightsTo(m, terms, n)[j := Value(terms[n].weight)]
  {
  }

  lemma WeightUnset(m: Model, terms: seq<LimitTerm>, n: nat, j: nat)
    requires n < |terms| && DistinctTerms(terms) && j < |m.edges|
    requires KeyOf(m.assets, m.requirements, m.edges[j]) == TermKey(terms[n])
    ensures WeightsTo(m, terms, n)[j] == 0.0
  {
    WeightToMeaning(terms, n, TermKey(terms[n]));
  }

  lemma LimitStep(m: Model, plan: Plan, terms: seq<LimitTerm>, n: nat, j: nat)
    requires n < |terms| && DistinctTerms(terms) && j < |m.edges|
    requires KeyOf(m.assets, m.requirements, m.edges[j]) == TermKey(terms[n])
    requires forall i :: 0 <= i < |m.edges| && i != j ==> KeyOf(m.assets, m.requirements, m.edges[i]) != TermKey(terms[n])
    ensures Dot(WeightsTo(m, terms, n + 1), OnEdges(m, plan))
            == Dot(WeightsTo(m, terms, n), OnEdges(m, plan)) + TermUse(plan)(terms[n])
  {
    WeightsStep(m, terms, n, j);
    WeightUnset(m, terms, n, j);
    WeightDot(WeightsTo(m, terms, n), OnEdges(m, plan), j, Value(terms[n].weight));
  }

  lemma LimitStepAny(m: Model, plan: Plan, terms: seq<LimitTerm>, n: nat)
    requires InOrder(m) && n < |terms| && DistinctTerms(terms)
    requires forall t :: t in terms ==> TermKey(t) in Pairs(m.assets, m.requirements)
    ensures Dot(WeightsTo(m, terms, n + 1), OnEdges(m, plan))
            == Dot(WeightsTo(m, terms, n), OnEdges(m, plan)) + TermUse(plan)(terms[n])
  {
    assert terms[n] in terms;
    var j := TermEdge(m, TermKey(terms[n]));
    LimitStep(m, plan, terms, n, j);
  }

  lemma TermsStep(terms: seq<LimitTerm>, n: nat, f: LimitTerm -> real)
    requires 0 < n <= |terms|
    ensures SumOver(terms[..n], f) == SumOver(terms[..n - 1], f) + f(terms[n - 1])
  {
    assert terms[..n] == terms[..n - 1] + [terms[n - 1]];
    SumLast(terms[..n - 1], terms[n - 1], f);
  }

  lemma {:induction false} LimitSum(m: Model, plan: Plan, terms: seq<LimitTerm>, n: nat)
    requires InOrder(m) && n <= |terms| && DistinctTerms(terms)
    requires forall t :: t in terms ==> TermKey(t) in Pairs(m.assets, m.requirements)
    ensures Dot(WeightsTo(m, terms, n), OnEdges(m, plan)) == SumOver(terms[..n], TermUse(plan))
  {
    var x := OnEdges(m, plan);
    if n == 0 {
      DotZeroTo(WeightsTo(m, terms, 0), x, |x|);
    } else {
      LimitSum(m, plan, terms, n - 1);
      var now, before := Dot(WeightsTo(m, terms, n), x), Dot(WeightsTo(m, terms, n - 1), x);
      var used := TermUse(plan)(terms[n - 1]);
      assert now == before + used by {
        LimitStepAny(m, plan, terms, n - 1);
      }
      var total, rest := SumOver(terms[..n], TermUse(plan)), SumOver(terms[..n - 1], TermUse(plan));
      assert total == rest + used by {
        TermsStep(terms, n, TermUse(plan));
      }
      assert before == rest;
    }
  }

  lemma WeightDot(w: Vec, x: Vec, j: nat, a: real)
    requires |w| == |x| && j < |x| && w[j] == 0.0
    ensures Dot(w[j := a], x) == Dot(w, x) + a * x[j]
  {
    DotSymmetricTo(w[j := a], x, |x|);
    DotSymmetricTo(w, x, |x|);
    DotUpdate(x, w, j, a);
  }

  lemma LimitIsValue(m: Model, plan: Plan, i: nat)
    requires InOrder(m) && i < |m.limits| && ValidLimit(m.limits[i], Pairs(m.assets, m.requirements))
    ensures Dot(m.limitWeights[i], OnEdges(m, plan)) == LimitValue(plan, m.limits[i])
  {
    var terms := m.limits[i].terms;
    LimitSum(m, plan, terms, |terms|);
    assert terms[..|terms|] == terms;
    assert m.limitWeights[i] == Weights(m.assets, m.requirements, m.limits[i]);
    assert WeightsTo(m, terms, |terms|) == m.limitWeights[i];
  }

  // ----- plans and the program

  /** What row `i` of the program measures of a plan, and its bound. */
  ghost function Measure(m: Model, plan: Plan, i: nat): real
    requires ValidModel(m) && i < Slacks(m) + |m.requirements|
  {
    if i < |m.assets| then UsedValue(plan, m.requirements, m.assets[i])
    else if i < Slacks(m) then LimitValue(plan, m.limits[i - |m.assets|])
    else PostedValue(plan, m.assets, m.requirements[i - Slacks(m)])
  }

  ghost function Bound(m: Model, i: nat): real
    requires ValidModel(m) && i < Slacks(m) + |m.requirements|
  {
    if i < |m.assets| then Value(m.assets[i].available)
    else if i < Slacks(m) then Value(m.limits[i - |m.assets|].maximum)
    else Value(m.requirements[i - Slacks(m)].amount)
  }

  ghost predicate LimitsValid(m: Model) {
    forall l :: l in m.limits ==> ValidLimit(l, Pairs(m.assets, m.requirements))
  }

  lemma RowMeasures(m: Model, plan: Plan, i: nat)
    requires InOrder(m) && LimitsValid(m) && i < Slacks(m) + |m.requirements|
    ensures Dot(ProgramOf(m).rows[i], OnEdges(m, plan)) == Measure(m, plan, i)
    ensures ProgramOf(m).rhs[i] == Bound(m, i)
  {
    assert ProgramOf(m).rows[i] == ProgramRow(m, i);
    RowOf(m, plan, i);
  }

  lemma RowOf(m: Model, plan: Plan, i: nat)
    requires InOrder(m) && LimitsValid(m) && i < Slacks(m) + |m.requirements|
    ensures |ProgramRow(m, i)| == |OnEdges(m, plan)| && Dot(ProgramRow(m, i), OnEdges(m, plan)) == Measure(m, plan, i)
  {
    if i < |m.assets| {
      CapacityIsUse(m, plan, i);
    } else if i < Slacks(m) {
      assert m.limits[i - |m.assets|] in m.limits;
      LimitIsValue(m, plan, i - |m.assets|);
    } else {
      CoverageIsPosted(m, plan, i - Slacks(m));
    }
  }

  /** The measures of a plan respect the bounds. */
  ghost predicate MeasuresMeet(m: Model, plan: Plan, exactly: bool)
    requires ValidModel(m)
  {
    && (forall i :: 0 <= i < Slacks(m) ==> Measure(m, plan, i) <= Bound(m, i))
    && (forall i :: Slacks(m) <= i < Slacks(m) + |m.requirements| ==>
          if exactly then Measure(m, plan, i) == Bound(m, i) else Measure(m, plan, i) >= Bound(m, i))
  }

  lemma MeasuresAreMeets(m: Model, plan: Plan, exactly: bool)
    requires ValidModel(m)
    ensures Meets(plan, m.assets, m.requirements, m.limits, exactly) <==>
              MeasuresMeet(m, plan, exactly) && NonnegativePlan(plan, m.assets, m.requirements)
  {
    if MeasuresMeet(m, plan, exactly) {
      forall a | a in m.assets
        ensures UsedValue(plan, m.requirements, a) <= Figure(a.available)
      {
        var i :| 0 <= i < |m.assets| && m.assets[i] == a;
        assert Measure(m, plan, i) <= Bound(m, i);
      }
      forall l | l in m.limits
        ensures LimitValue(plan, l) <= Figure(l.maximum)
      {
        var i :| 0 <= i < |m.limits| && m.limits[i] == l;
        assert Measure(m, plan, |m.assets| + i) <= Bound(m, |m.assets| + i);
      }
      forall r | r in m.requirements
        ensures if exactly then PostedValue(plan, m.assets, r) == Figure(r.amount)
                else PostedValue(plan, m.assets, r) >= Figure(r.amount)
      {
        var i :| 0 <= i < |m.requirements| && m.requirements[i] == r;
        assert Measure(m, plan, Slacks(m) + i) == PostedValue(plan, m.assets, r);
      }
    }
    if Meets(plan, m.assets, m.requirements, m.limits, exactly) {
      MeetsIsMeasured(m, plan, exactly);
    }
  }

  lemma MeetsIsMeasured(m: Model, plan: Plan, exactly: bool)
    requires ValidModel(m) && Meets(plan, m.assets, m.requirements, m.limits, exactly)
    ensures MeasuresMeet(m, plan, exactly)
  {
    forall i | 0 <= i < Slacks(m)
      ensures Measure(m, plan, i) <= Bound(m, i)
    {
      if i < |m.assets| {
        assert m.assets[i] in m.assets;
      } else {
        assert m.limits[i - |m.assets|] in m.limits;
      }
    }
    forall i | Slacks(m) <= i < Slacks(m) + |m.requirements|
      ensures if exactly then Measure(m, plan, i) == Bound(m, i) else Measure(m, plan, i) >= Bound(m, i)
    {
      assert m.requirements[i - Slacks(m)] in m.requirements;
    }
  }

  lemma PairsNonnegative(plan: Plan, assets: seq<Asset>, requirements: seq<Requirement>)
    ensures NonnegativePlan(plan, assets, requirements) <==> forall k :: k in Pairs(assets, requirements) ==> plan(k) >= 0.0
  {
    if forall k :: k in Pairs(assets, requirements) ==> plan(k) >= 0.0 {
      forall a, r | a in assets && r in requirements && a.id in r.schedule && r.schedule[a.id].eligible
        ensures plan((a.id, r.agreementId)) >= 0.0
      {
        assert (a.id, r.agreementId) in Pairs(assets, requirements);
      }
    }
  }

  lemma NonnegativeOnEdges(m: Model, plan: Plan)
    requires InOrder(m)
    ensures Nonnegative(OnEdges(m, plan)) <==> NonnegativePlan(plan, m.assets, m.requirements)
  {
    PairsNonnegative(plan, m.assets, m.requirements);
    NonnegativeOnPairs(m, plan);
  }

  lemma NonnegativeOnPairs(m: Model, plan: Plan)
    requires InOrder(m)
    ensures Nonnegative(OnEdges(m, plan)) <==> forall k :: k in Pairs(m.assets, m.requirements) ==> plan(k) >= 0.0
  {
    var keys := EdgeKeys(m.assets, m.requirements);
    EdgeKeysArePairs(m.assets, m.requirements);
    assert forall k :: k in keys <==> k in Pairs(m.assets, m.requirements);
    assert forall j :: 0 <= j < |keys| ==> OnEdges(m, plan)[j] == plan(keys[j]) && keys[j] in keys;
    if Nonnegative(OnEdges(m, plan)) {
      forall k | k in Pairs(m.assets, m.requirements)
        ensures plan(k) >= 0.0
      {
        var j :| 0 <= j < |keys| && keys[j] == k;
      }
    }
  }

  /** A plan meets the inputs exactly when its vector solves the program. */
  lemma PlansAreSolutions(m: Model, plan: Plan)
    requires InOrder(m) && LimitsValid(m)
    ensures Meets(plan, m.assets, m.requirements, m.limits, true) <==> Feasible(ProgramOf(m), OnEdges(m, plan))
    ensures Meets(plan, m.assets, m.requirements, m.limits, false) <==> Covering(ProgramOf(m), OnEdges(m, plan))
    ensures PlanCost(plan, m.assets, m.requirements) == Dot(ProgramOf(m).cost, OnEdges(m, plan))
  {
    forall i | 0 <= i < Slacks(m) + |m.requirements|
      ensures Dot(ProgramOf(m).rows[i], OnEdges(m, plan)) == Measure(m, plan, i) && ProgramOf(m).rhs[i] == Bound(m, i)
    {
      RowMeasures(m, plan, i);
    }
    MeasuresDecide(m, plan);
    MeasuresAreMeets(m, plan, true);
    MeasuresAreMeets(m, plan, false);
    NonnegativeOnEdges(m, plan);
    CostIsPlanCost(m, plan);
  }

  lemma MeasuresDecide(m: Model, plan: Plan)
    requires ValidModel(m)
    requires forall i :: 0 <= i < Slacks(m) + |m.requirements| ==>
               Dot(ProgramOf(m).rows[i], OnEdges(m, plan)) == Measure(m, plan, i) && ProgramOf(m).rhs[i] == Bound(m, i)
    ensures Feasible(ProgramOf(m), OnEdges(m, plan)) <==> Nonnegative(OnEdges(m, plan)) && MeasuresMeet(m, plan, true)
    ensures Covering(ProgramOf(m), OnEdges(m, plan)) <==> Nonnegative(OnEdges(m, plan)) && MeasuresMeet(m, plan, false)
  {
  }
}
