/**
 From inputs to the program that is solved: validation, canonical order, the edges
 (eligible asset/agreement pairs) and the weighted side limits.
 */
module Models {
  import opened Vectors
  import opened Inputs
  import opened Programs
  import Minimization

  datatype Edge = Edge(asset: nat, requirement: nat, coverage: real, cost: real)

  datatype Model = Model(assets: seq<Asset>, requirements: seq<Requirement>, available: Vec, need: Vec,
                         edges: seq<Edge>, currency: string, limits: seq<AllocationLimit>,
                         limitValues: Vec, limitWeights: seq<Vec>)

  type Key = (string, string)

  function AssetKey(a: Asset): string { a.id }
  function AgreementKey(r: Requirement): string { r.agreementId }
  function LimitKey(l: AllocationLimit): string { l.id }

  predicate Eligible(r: Requirement, id: string) {
    id in r.schedule && r.schedule[id].eligible
  }

  /** What one unit of the asset covers under the agreement. */
  function CoverageOf(r: Requirement, id: string): real {
    if id in r.schedule then 1.0 - Value(r.schedule[id].haircut) else 1.0
  }

  // ----- which inputs are accepted

  ghost function CommonCurrency(assets: seq<Asset>, requirements: seq<Requirement>): string {
    if assets != [] then assets[0].currency else if requirements != [] then requirements[0].currency else ""
  }

  predicate ValidAsset(a: Asset, currency: string) {
    ValidId(a.id) && ValidCurrency(a.currency) && a.currency == currency && Amount(a.available) && Amount(a.cost)
  }

  predicate ValidSchedule(schedule: map<string, Eligibility>, ids: set<string>) {
    forall id :: id in schedule ==>
      id in ids && Amount(schedule[id].haircut) && schedule[id].haircut.value < 1.0
  }

  predicate ValidRequirement(r: Requirement, currency: string, ids: set<string>) {
    && ValidId(r.agreementId) && ValidCurrency(r.currency) && r.currency == currency
    && Amount(r.amount) && ValidSchedule(r.schedule, ids)
  }

  function AssetIds(assets: seq<Asset>): set<string> {
    set a | a in assets :: a.id
  }

  /** Every asset and agreement is well formed, identifiers are unique and there is one currency. */
  ghost predicate ValidData(assets: seq<Asset>, requirements: seq<Requirement>) {
    var currency := CommonCurrency(assets, requirements);
    && (forall a :: a in assets ==> ValidAsset(a, currency))
    && (forall r :: r in requirements ==> ValidRequirement(r, currency, AssetIds(assets)))
    && DistinctKeys(assets, AssetKey) && DistinctKeys(requirements, AgreementKey)
  }

  /** The eligible asset/agreement pairs. */
  function Pairs(assets: seq<Asset>, requirements: seq<Requirement>): set<Key> {
    set a, r | a in assets && r in requirements && Eligible(r, a.id) :: (a.id, r.agreementId)
  }

  ghost predicate WithinSizes(assets: seq<Asset>, requirements: seq<Requirement>) {
    && |assets| <= MAX_ASSETS && |requirements| <= MAX_AGREEMENTS
    && (forall r :: r in requirements ==> |r.schedule| <= MAX_ASSETS)
    && |Pairs(assets, requirements)| <= MAX_EDGES
  }

  function TermKey(t: LimitTerm): Key { (t.assetId, t.agreementId) }

  ghost predicate DistinctTerms(terms: seq<LimitTerm>) {
    DistinctKeys(terms, TermKey)
  }

  ghost predicate ValidLimit(l: AllocationLimit, pairs: set<Key>) {
    && ValidId(l.id) && |l.terms| <= MAX_EDGES && Amount(l.maximum)
    && (forall t :: t in l.terms ==> TermKey(t) in pairs && Amount(t.weight))
    && DistinctTerms(l.terms)
  }

  ghost predicate ValidLimits(limits: seq<AllocationLimit>, pairs: set<Key>) {
    && |limits| <= MAX_LIMITS
    && (forall l :: l in limits ==> ValidLimit(l, pairs))
    && DistinctKeys(limits, LimitKey)
  }

  /** The inputs the allocator accepts. Nothing here depends on input order. */
  ghost predicate Admissible(assets: seq<Asset>, requirements: seq<Requirement>, limits: seq<AllocationLimit>) {
    && ValidData(assets, requirements) && WithinSizes(assets, requirements)
    && ValidLimits(limits, Pairs(assets, requirements))
  }

  // ----- edges

  function EdgeOf(assets: seq<Asset>, r: Requirement, requirement: nat, asset: nat): Edge
    requires asset < |assets|
  {
    Edge(asset, requirement, CoverageOf(r, assets[asset].id), Value(assets[asset].cost))
  }

  /** The edges of one agreement over the first `n` assets. */
  function EdgesFor(assets: seq<Asset>, r: Requirement, requirement: nat, n: nat): seq<Edge>
    requires n <= |assets|
  {
    if n == 0 then [] else
    EdgesFor(assets, r, requirement, n - 1)
    + if Eligible(r, assets[n - 1].id) then [EdgeOf(assets, r, requirement, n - 1)] else []
  }

  /** The edges of the first `k` agreements. */
  function Edges(assets: seq<Asset>, requirements: seq<Requirement>, k: nat): seq<Edge>
    requires k <= |requirements|
  {
    if k == 0 then [] else
    Edges(assets, requirements, k - 1) + EdgesFor(assets, requirements[k - 1], k - 1, |assets|)
  }

  ghost predicate Before(e: Edge, f: Edge) {
    e.requirement < f.requirement || (e.requirement == f.requirement && e.asset < f.asset)
  }

  ghost predicate Increasing(edges: seq<Edge>) {
    forall i, j :: 0 <= i < j < |edges| ==> Before(edges[i], edges[j])
  }

  /** `e` is the edge of an eligible pair. */
  ghost predicate IsEdge(assets: seq<Asset>, requirements: seq<Requirement>, e: Edge) {
    && e.asset < |assets| && e.requirement < |requirements|
    && Eligible(requirements[e.requirement], assets[e.asset].id)
    && e == EdgeOf(assets, requirements[e.requirement], e.requirement, e.asset)
  }

  ghost predicate IsEdgeFor(assets: seq<Asset>, r: Requirement, requirement: nat, n: nat, e: Edge)
    requires n <= |assets|
  {
    e.asset < n && Eligible(r, assets[e.asset].id) && e == EdgeOf(assets, r, requirement, e.asset)
  }

  lemma {:induction false} EdgesForMembers(assets: seq<Asset>, r: Requirement, requirement: nat, n: nat, e: Edge)
    requires n <= |assets|
    ensures e in EdgesFor(assets, r, requirement, n) <==> IsEdgeFor(assets, r, requirement, n, e)
  {
    if n > 0 {
      EdgesForMembers(assets, r, requirement, n - 1, e);
    }
  }

  lemma {:induction false} EdgesForIncreasing(assets: seq<Asset>, r: Requirement, requirement: nat, n: nat)
    requires n <= |assets|
    ensures Increasing(EdgesFor(assets, r, requirement, n))
  {
    if n > 0 {
      EdgesForIncreasing(assets, r, requirement, n - 1);
      var es := EdgesFor(assets, r, requirement, n - 1);
      forall i | 0 <= i < |es|
        ensures IsEdgeFor(assets, r, requirement, n - 1, es[i])
      {
        EdgesForMembers(assets, r, requirement, n - 1, es[i]);
      }
    }
  }

  lemma EdgeForIsEdge(assets: seq<Asset>, requirements: seq<Requirement>, k: nat, e: Edge)
    requires k < |requirements|
    ensures IsEdgeFor(assets, requirements[k], k, |assets|, e) <==> e.requirement == k && IsEdge(assets, requirements, e)
  {
  }

  lemma InAppend<T>(a: seq<T>, b: seq<T>, x: T)
    ensures x in a + b <==> x in a || x in b
  {
  }

  /** The edges of agreement `k` are the edges of the model at `k`. */
  lemma EdgesForAre(assets: seq<Asset>, requirements: seq<Requirement>, k: nat, e: Edge)
    requires k < |requirements|
    ensures e in EdgesFor(assets, requirements[k], k, |assets|) <==> e.requirement == k && IsEdge(assets, requirements, e)
  {
    EdgesForMembers(assets, requirements[k], k, |assets|, e);
    EdgeForIsEdge(assets, requirements, k, e);
  }

  /** `e` is an edge of one of the first `k` agreements. */
  ghost predicate IsEdgeBelow(assets: seq<Asset>, requirements: seq<Requirement>, k: nat, e: Edge) {
    e.requirement < k && IsEdge(assets, requirements, e)
  }

  lemma EdgesAppend(assets: seq<Asset>, requirements: seq<Requirement>, k: nat, e: Edge)
    requires 0 < k <= |requirements|
    ensures e in Edges(assets, requirements, k) <==>
              e in Edges(assets, requirements, k - 1) || e in EdgesFor(assets, requirements[k - 1], k - 1, |assets|)
  {
    InAppend(Edges(assets, requirements, k - 1), EdgesFor(assets, requirements[k - 1], k - 1, |assets|), e);
  }

  lemma {:induction false} EdgesMembers(assets: seq<Asset>, requirements: seq<Requirement>, k: nat, e: Edge)
    requires k <= |requirements|
    ensures e in Edges(assets, requirements, k) <==> IsEdgeBelow(assets, requirements, k, e)
  {
    if k > 0 {
      EdgesAppend(assets, requirements, k, e);
      EdgesMembers(assets, requirements, k - 1, e);
      EdgesForAre(assets, requirements, k - 1, e);
      assert IsEdgeBelow(assets, requirements, k, e) <==>
               IsEdgeBelow(assets, requirements, k - 1, e) || (e.requirement == k - 1 && IsEdge(assets, requirements, e));
    }
  }

  lemma {:induction false} EdgesIncreasing(assets: seq<Asset>, requirements: seq<Requirement>, k: nat)
    requires k <= |requirements|
    ensures Increasing(Edges(assets, requirements, k))
  {
    if k > 0 {
      EdgesIncreasing(assets, requirements, k - 1);
      EdgesForIncreasing(assets, requirements[k - 1], k - 1, |assets|);
      forall e | e in Edges(assets, requirements, k - 1)
        ensures e.requirement < k - 1
      {
        EdgesMembers(assets, requirements, k - 1, e);
      }
      forall e | e in EdgesFor(assets, requirements[k - 1], k - 1, |assets|)
        ensures e.requirement == k - 1
      {
        EdgesForMembers(assets, requirements[k - 1], k - 1, |assets|, e);
      }
      IncreasingAppend(Edges(assets, requirements, k - 1),
                       EdgesFor(assets, requirements[k - 1], k - 1, |assets|), k - 1);
    }
  }

  /** The edges are exactly the eligible pairs, each once, agreement by agreement. */
  lemma EdgesMeaning(assets: seq<Asset>, requirements: seq<Requirement>, k: nat)
    requires k <= |requirements|
    ensures var es := Edges(assets, requirements, k);
            && Increasing(es)
            && (forall e :: e in es <==> e.requirement < k && IsEdge(assets, requirements, e))
  {
    EdgesIncreasing(assets, requirements, k);
    forall e
      ensures e in Edges(assets, requirements, k) <==> e.requirement < k && IsEdge(assets, requirements, e)
    {
      EdgesMembers(assets, requirements, k, e);
    }
  }

  lemma IncreasingAppend(a: seq<Edge>, b: seq<Edge>, k: nat)
    requires Increasing(a) && Increasing(b)
    requires forall e :: e in a ==> e.requirement < k
    requires forall e :: e in b ==> e.requirement == k
    ensures Increasing(a + b)
  {
    var es := a + b;
    forall i, j | 0 <= i < j < |es|
      ensures Before(es[i], es[j])
    {
      if i < |a| <= j {
        assert es[i] in a && es[j] in b;
      }
    }
  }

  /** The identifiers an edge stands for. */
  function EdgeKey(assets: seq<Asset>, requirements: seq<Requirement>, e: Edge): Key
    requires e.asset < |assets| && e.requirement < |requirements|
  {
    (assets[e.asset].id, requirements[e.requirement].agreementId)
  }

  lemma DistinctKeysAt<T(!new), K(!new)>(xs: seq<T>, key: T -> K, i: nat, j: nat)
    requires DistinctKeys(xs, key) && i < |xs| && j < |xs| && key(xs[i]) == key(xs[j])
    ensures i == j
  {
  }

  lemma DistinctKeysApart<T(!new), K(!new)>(xs: seq<T>, key: T -> K, i: nat, j: nat)
    requires DistinctKeys(xs, key) && i < |xs| && j < |xs| && i != j
    ensures key(xs[i]) != key(xs[j])
  {
  }

  lemma EdgeKeysDistinct(assets: seq<Asset>, requirements: seq<Requirement>, i: nat, j: nat)
    requires DistinctKeys(assets, AssetKey) && DistinctKeys(requirements, AgreementKey)
    requires var es := Edges(assets, requirements, |requirements|);
             i < |es| && j < |es| && i != j
    ensures var es := Edges(assets, requirements, |requirements|);
            && IsEdge(assets, requirements, es[i]) && IsEdge(assets, requirements, es[j])
            && EdgeKey(assets, requirements, es[i]) != EdgeKey(assets, requirements, es[j])
  {
    var es := Edges(assets, requirements, |requirements|);
    EdgesMeaning(assets, requirements, |requirements|);
    assert es[i] in es && es[j] in es;
    assert Before(es[i], es[j]) || Before(es[j], es[i]);
    if es[i].requirement != es[j].requirement {
      DistinctKeysApart(requirements, AgreementKey, es[i].requirement, es[j].requirement);
    } else {
      DistinctKeysApart(assets, AssetKey, es[i].asset, es[j].asset);
    }
  }

  ghost function EdgeKeys(assets: seq<Asset>, requirements: seq<Requirement>): (keys: seq<Key>)
    ensures |keys| == |Edges(assets, requirements, |requirements|)|
    ensures forall j :: 0 <= j < |keys| ==>
              && IsEdge(assets, requirements, Edges(assets, requirements, |requirements|)[j])
              && keys[j] == EdgeKey(assets, requirements, Edges(assets, requirements, |requirements|)[j])
  {
    var es := Edges(assets, requirements, |requirements|);
    EdgesMeaning(assets, requirements, |requirements|);
    assert forall j :: 0 <= j < |es| ==> es[j] in es;
    seq(|es|, j requires 0 <= j < |es| => EdgeKey(assets, requirements, es[j]))
  }

  /** A key names an edge exactly when the pair is eligible. */
  lemma EdgeKeysArePairs(assets: seq<Asset>, requirements: seq<Requirement>)
    ensures (set k | k in EdgeKeys(assets, requirements)) == Pairs(assets, requirements)
  {
    var es := Edges(assets, requirements, |requirements|);
    var keys := EdgeKeys(assets, requirements);
    EdgesMeaning(assets, requirements, |requirements|);
    forall k | k in Pairs(assets, requirements)
      ensures k in keys
    {
      var a, r :| a in assets && r in requirements && Eligible(r, a.id) && k == (a.id, r.agreementId);
      var ai :| 0 <= ai < |assets| && assets[ai] == a;
      var ri :| 0 <= ri < |requirements| && requirements[ri] == r;
      assert EdgeOf(assets, r, ri, ai) in es;
      var j :| 0 <= j < |es| && es[j] == EdgeOf(assets, r, ri, ai);
      assert keys[j] == k;
    }
    forall k | k in keys
      ensures k in Pairs(assets, requirements)
    {
      var j :| 0 <= j < |keys| && keys[j] == k;
      assert assets[es[j].asset] in assets && requirements[es[j].requirement] in requirements;
    }
  }

  lemma EdgeCount(assets: seq<Asset>, requirements: seq<Requirement>)
    requires DistinctKeys(assets, AssetKey) && DistinctKeys(requirements, AgreementKey)
    ensures |Edges(assets, requirements, |requirements|)| == |Pairs(assets, requirements)|
  {
    var keys := EdgeKeys(assets, requirements);
    forall i, j | 0 <= i < j < |keys|
      ensures keys[i] != keys[j]
    {
      EdgeKeysDistinct(assets, requirements, i, j);
    }
    Minimization.DistinctSize(keys);
    EdgeKeysArePairs(assets, requirements);
  }

  // ----- limits

  /** The weight of the term with key `k` among the first `n`, zero when there is none. */
  function WeightTo(terms: seq<LimitTerm>, n: nat, k: Key): real
    requires n <= |terms|
  {
    if n == 0 then 0.0 else if TermKey(terms[n - 1]) == k then Value(terms[n - 1].weight) else WeightTo(terms, n - 1, k)
  }

  function WeightOf(terms: seq<LimitTerm>, k: Key): real {
    WeightTo(terms, |terms|, k)
  }

  lemma {:induction false} WeightToMeaning(terms: seq<LimitTerm>, n: nat, k: Key)
    requires n <= |terms| && DistinctTerms(terms)
    ensures forall i :: 0 <= i < n && TermKey(terms[i]) == k ==> WeightTo(terms, n, k) == Value(terms[i].weight)
    ensures (forall i :: 0 <= i < n ==> TermKey(terms[i]) != k) ==> WeightTo(terms, n, k) == 0.0
  {
    if n > 0 {
      WeightToMeaning(terms, n - 1, k);
    }
  }

  /** The weights of a limit, edge by edge. */
  ghost function Weights(assets: seq<Asset>, requirements: seq<Requirement>, l: AllocationLimit): (w: Vec)
    ensures |w| == |Edges(assets, requirements, |requirements|)|
    ensures forall j :: 0 <= j < |w| ==> w[j] == WeightOf(l.terms, EdgeKeys(assets, requirements)[j])
  {
    var keys := EdgeKeys(assets, requirements);
    seq(|keys|, j requires 0 <= j < |keys| => WeightOf(l.terms, keys[j]))
  }

  // ----- the model

  function Availables(assets: seq<Asset>): (v: Vec)
    ensures |v| == |assets|
  {
    seq(|assets|, i requires 0 <= i < |assets| => Value(assets[i].available))
  }

  function Needs(requirements: seq<Requirement>): (v: Vec)
    ensures |v| == |requirements|
  {
    seq(|requirements|, i requires 0 <= i < |requirements| => Value(requirements[i].amount))
  }

  function Maxima(limits: seq<AllocationLimit>): (v: Vec)
    ensures |v| == |limits|
  {
    seq(|limits|, i requires 0 <= i < |limits| => Value(limits[i].maximum))
  }

  /** The model of inputs already in canonical order. */
  ghost function ModelOf(assets: seq<Asset>, requirements: seq<Requirement>, limits: seq<AllocationLimit>): Model {
    Model(assets, requirements, Availables(assets), Needs(requirements),
          Edges(assets, requirements, |requirements|), CommonCurrency(assets, requirements),
          limits, Maxima(limits),
          seq(|limits|, i requires 0 <= i < |limits| => Weights(assets, requirements, limits[i])))
  }

  ghost predicate ModelShape(m: Model) {
    && |m.available| == |m.assets| && |m.need| == |m.requirements|
    && |m.limitValues| == |m.limits| == |m.limitWeights| && Matrix(m.limitWeights, |m.edges|)
  }

  /** The shape and signs every later step relies on. */
  ghost predicate ValidModel(m: Model) {
    && ModelShape(m)
    && Nonnegative(m.available) && Nonnegative(m.need) && Nonnegative(m.limitValues)
    && (forall i :: 0 <= i < |m.limitWeights| ==> Nonnegative(m.limitWeights[i]))
    && (forall j :: 0 <= j < |m.edges| ==> ValidEdge(m, m.edges[j]))
    && Increasing(m.edges)
    && DistinctKeys(m.assets, AssetKey) && DistinctKeys(m.requirements, AgreementKey)
    && DistinctKeys(m.limits, LimitKey)
  }

  ghost predicate ValidEdge(m: Model, e: Edge) {
    e.asset < |m.assets| && e.requirement < |m.requirements| && 0.0 < e.coverage <= 1.0 && e.cost >= 0.0
  }

  lemma EdgeSigns(assets: seq<Asset>, requirements: seq<Requirement>, e: Edge)
    requires ValidData(assets, requirements) && IsEdge(assets, requirements, e)
    ensures 0.0 < e.coverage <= 1.0 && e.cost >= 0.0
  {
    var a, r := assets[e.asset], requirements[e.requirement];
    assert a in assets && r in requirements;
    assert ValidSchedule(r.schedule, AssetIds(assets));
  }

  lemma {:induction false} WeightNonnegative(terms: seq<LimitTerm>, n: nat, k: Key)
    requires n <= |terms| && forall t :: t in terms ==> Amount(t.weight)
    ensures WeightTo(terms, n, k) >= 0.0
  {
    if n > 0 {
      WeightNonnegative(terms, n - 1, k);
      assert terms[n - 1] in terms;
    }
  }

  lemma WeightsNonnegative(assets: seq<Asset>, requirements: seq<Requirement>, l: AllocationLimit, pairs: set<Key>)
    requires ValidLimit(l, pairs)
    ensures Nonnegative(Weights(assets, requirements, l))
  {
    forall j | 0 <= j < |Weights(assets, requirements, l)|
      ensures Weights(assets, requirements, l)[j] >= 0.0
    {
      WeightNonnegative(l.terms, |l.terms|, EdgeKeys(assets, requirements)[j]);
    }
  }

  lemma ModelOfIsValid(assets: seq<Asset>, requirements: seq<Requirement>, limits: seq<AllocationLimit>)
    requires ValidData(assets, requirements) && ValidLimits(limits, Pairs(assets, requirements))
    ensures ValidModel(ModelOf(assets, requirements, limits))
  {
    var m := ModelOf(assets, requirements, limits);
    EdgesMeaning(assets, requirements, |requirements|);
    forall j | 0 <= j < |m.edges|
      ensures ValidEdge(m, m.edges[j])
    {
      assert m.edges[j] in m.edges;
      EdgeSigns(assets, requirements, m.edges[j]);
    }
    forall i | 0 <= i < |limits|
      ensures Nonnegative(m.limitWeights[i]) && m.limitValues[i] >= 0.0
    {
      assert limits[i] in limits;
      WeightsNonnegative(assets, requirements, limits[i], Pairs(assets, requirements));
    }
    assert forall i :: 0 <= i < |assets| ==> assets[i] in assets;
    assert forall i :: 0 <= i < |requirements| ==> requirements[i] in requirements;
  }

  // ----- the program

  function CapacityRow(edges: seq<Edge>, i: nat): (row: Vec)
    ensures |row| == |edges|
    ensures forall j :: 0 <= j < |row| ==> row[j] == if edges[j].asset == i then 1.0 else 0.0
  {
    seq(|edges|, j requires 0 <= j < |edges| => if edges[j].asset == i then 1.0 else 0.0)
  }

  function CoverageRow(edges: seq<Edge>, r: nat): (row: Vec)
    ensures |row| == |edges|
    ensures forall j :: 0 <= j < |row| ==> row[j] == if edges[j].requirement == r then edges[j].coverage else 0.0
  {
    seq(|edges|, j requires 0 <= j < |edges| => if edges[j].requirement == r then edges[j].coverage else 0.0)
  }

  function Slacks(m: Model): nat {
    |m.assets| + |m.limits|
  }

  /** Row `i` of the program: capacities, then limits, then coverages. */
  ghost function ProgramRow(m: Model, i: nat): (row: Vec)
    requires ModelShape(m) && i < Slacks(m) + |m.requirements|
    ensures |row| == |m.edges|
  {
    if i < |m.assets| then CapacityRow(m.edges, i)
    else if i < Slacks(m) then m.limitWeights[i - |m.assets|]
    else CoverageRow(m.edges, i - Slacks(m))
  }

  function EdgeCosts(edges: seq<Edge>): (c: Vec)
    ensures |c| == |edges| && forall j :: 0 <= j < |c| ==> c[j] == edges[j].cost
  {
    seq(|edges|, j requires 0 <= j < |edges| => edges[j].cost)
  }

  ghost function ProgramRows(m: Model): (rows: seq<Vec>)
    requires ModelShape(m)
    ensures |rows| == Slacks(m) + |m.requirements|
    ensures forall i :: 0 <= i < |rows| ==> rows[i] == ProgramRow(m, i)
  {
    seq(Slacks(m) + |m.requirements|, i requires 0 <= i < Slacks(m) + |m.requirements| => ProgramRow(m, i))
  }

  ghost function ProgramOf(m: Model): (p: Program)
    requires ValidModel(m)
    ensures WellFormed(p)
  {
    var rhs := m.available + m.limitValues + m.need;
    assert Nonnegative(rhs);
    Program(ProgramRows(m), rhs, Slacks(m), EdgeCosts(m.edges))
  }

  lemma EntryOf(m: Model, i: nat, j: nat)
    requires ModelShape(m) && i < Slacks(m) + |m.requirements| && j < |m.edges|
    ensures var entry := ProgramRows(m)[i][j];
            if i < |m.assets| then entry == if m.edges[j].asset == i then 1.0 else 0.0
            else if i < Slacks(m) then entry == m.limitWeights[i - |m.assets|][j]
            else entry == if m.edges[j].requirement == i - Slacks(m) then m.edges[j].coverage else 0.0
  {
    assert ProgramRows(m)[i] == ProgramRow(m, i);
  }

  /** The coverage row each edge belongs to. */
  ghost function Owners(m: Model): (owner: seq<nat>)
    ensures |owner| == |m.edges|
    ensures forall j :: 0 <= j < |owner| ==> owner[j] == Slacks(m) + m.edges[j].requirement
  {
    seq(|m.edges|, j requires 0 <= j < |m.edges| => Slacks(m) + m.edges[j].requirement)
  }

  lemma ProgramOwned(m: Model)
    requires ValidModel(m)
    ensures Owned(ProgramOf(m), Owners(m))
  {
    var p := ProgramOf(m);
    forall i | 0 <= i < |p.rows|
      ensures Nonnegative(p.rows[i])
    {
      assert p.rows[i] == ProgramRow(m, i);
    }
  }

  // ----- input order

  ghost predicate Permuted<T>(xs: seq<T>, ys: seq<T>) {
    multiset(xs) == multiset(ys)
  }

  lemma PermutedMembers<T>(xs: seq<T>, ys: seq<T>)
    requires Permuted(xs, ys)
    ensures |xs| == |ys| && forall x :: x in xs <==> x in ys
  {
    assert |multiset(xs)| == |xs| && |multiset(ys)| == |ys|;
    assert forall x :: x in xs <==> x in multiset(xs);
    assert forall x :: x in ys <==> x in multiset(ys);
  }

  /** A member splits the sequence around one of its places. */
  lemma SplitAt<T>(ys: seq<T>, x: T) returns (left: seq<T>, right: seq<T>)
    requires x in ys
    ensures ys == left + [x] + right && multiset(left + right) == multiset(ys) - multiset{x}
  {
    var i :| 0 <= i < |ys| && ys[i] == x;
    left, right := ys[..i], ys[i + 1..];
    assert ys == left + [x] + right;
  }

  /** An item counted twice stands at two positions. */
  lemma {:induction false} TwicePresent<T>(xs: seq<T>, x: T) returns (i: nat, j: nat)
    requires multiset(xs)[x] >= 2
    ensures i < j < |xs| && xs[i] == x && xs[j] == x
  {
    var last := |xs| - 1;
    assert xs == xs[..last] + [xs[last]];
    if xs[last] == x {
      assert multiset(xs[..last])[x] >= 1;
      assert x in xs[..last];
      i :| 0 <= i < last && xs[i] == x;
      j := last;
    } else {
      i, j := TwicePresent(xs[..last], x);
    }
  }

  lemma CountedTwice<T>(ys: seq<T>, i: nat, j: nat)
    requires i < j < |ys| && ys[i] == ys[j]
    ensures multiset(ys)[ys[i]] >= 2
  {
    assert ys == ys[..j] + [ys[j]] + ys[j + 1..];
    assert ys[i] in ys[..j];
    assert multiset(ys) == multiset(ys[..j]) + multiset{ys[j]} + multiset(ys[j + 1..]);
  }

  lemma DistinctKeysMembers<T(!new), K(!new)>(xs: seq<T>, key: T -> K, x: T, y: T)
    requires DistinctKeys(xs, key) && x in xs && y in xs && key(x) == key(y)
    ensures x == y
  {
    var i :| 0 <= i < |xs| && xs[i] == x;
    var j :| 0 <= j < |xs| && xs[j] == y;
    DistinctKeysAt(xs, key, i, j);
  }

  lemma PermutedDistinct<T(!new), K(!new)>(xs: seq<T>, ys: seq<T>, key: T -> K)
    requires Permuted(xs, ys) && DistinctKeys(xs, key)
    ensures DistinctKeys(ys, key)
  {
    forall i, j | 0 <= i < j < |ys|
      ensures key(ys[i]) != key(ys[j])
    {
      if key(ys[i]) == key(ys[j]) {
        PermutedMembers(xs, ys);
        DistinctKeysMembers(xs, key, ys[i], ys[j]);
        CountedTwice(ys, i, j);
        var a, b := TwicePresent(xs, ys[i]);
        assert false;
      }
    }
  }

  lemma SortedHeadIsLeast<T(!new)>(xs: seq<T>, key: T -> string, x: T)
    requires Sorted(xs, key) && x in xs
    ensures !Less(key(x), key(xs[0]))
  {
    var i :| 0 <= i < |xs| && xs[i] == x;
    LessTrichotomy(key(x), key(x));
  }

  lemma SortedHeadsEqual<T(!new)>(xs: seq<T>, ys: seq<T>, key: T -> string)
    requires Permuted(xs, ys) && Sorted(xs, key) && Sorted(ys, key) && DistinctKeys(xs, key) && xs != []
    ensures ys != [] && xs[0] == ys[0]
  {
    PermutedMembers(xs, ys);
    assert xs[0] in ys && ys[0] in xs;
    SortedHeadIsLeast(xs, key, ys[0]);
    SortedHeadIsLeast(ys, key, xs[0]);
    LessTrichotomy(key(xs[0]), key(ys[0]));
    var k :| 0 <= k < |xs| && xs[k] == ys[0];
  }

  lemma TailMultiset<T>(xs: seq<T>)
    requires xs != []
    ensures multiset(xs[1..]) == multiset(xs) - multiset{xs[0]}
  {
    assert xs == [xs[0]] + xs[1..];
  }

  /** Sorted sequences of the same items with distinct keys are the same sequence. */
  lemma {:induction false} SortedUnique<T(!new)>(xs: seq<T>, ys: seq<T>, key: T -> string)
    requires Permuted(xs, ys) && Sorted(xs, key) && Sorted(ys, key) && DistinctKeys(xs, key)
    ensures xs == ys
  {
    if xs == [] {
      PermutedMembers(xs, ys);
    } else {
      SortedHeadsEqual(xs, ys, key);
      TailMultiset(xs);
      TailMultiset(ys);
      SortedUnique(xs[1..], ys[1..], key);
      assert xs == [xs[0]] + xs[1..] && ys == [ys[0]] + ys[1..];
    }
  }
}
