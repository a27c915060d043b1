/**
 Input order is irrelevant: permuting assets, agreements, limits or the terms of a limit
 changes neither admissibility nor the answer, certificate included.
 */
module Ordering {
  import opened Vectors
  import opened Inputs
  import opened Models
  import opened TwoPhase
  import opened Building
  import opened Certificates
  import opened Verifying
  import opened Answers

  /** The same limit up to the order of its terms. */
  ghost predicate Alike(l: AllocationLimit, k: AllocationLimit) {
    l.id == k.id && l.maximum == k.maximum && Permuted(l.terms, k.terms)
  }

  /** `b` lists the limits of `a` in the order of `mid`, each with its terms in any order. */
  ghost predicate Reordered(a: seq<AllocationLimit>, mid: seq<AllocationLimit>, b: seq<AllocationLimit>) {
    Permuted(a, mid) && |mid| == |b| && forall i :: 0 <= i < |b| ==> Alike(mid[i], b[i])
  }

  // ----- admissibility

  lemma AlikeValid(l: AllocationLimit, k: AllocationLimit, pairs: set<Key>)
    requires Alike(l, k) && ValidLimit(l, pairs)
    ensures ValidLimit(k, pairs)
  {
    PermutedMembers(l.terms, k.terms);
    PermutedDistinct(l.terms, k.terms, TermKey);
  }

  lemma ReorderedDistinct(a: seq<AllocationLimit>, mid: seq<AllocationLimit>, b: seq<AllocationLimit>)
    requires Reordered(a, mid, b) && DistinctKeys(a, LimitKey)
    ensures DistinctKeys(mid, LimitKey) && DistinctKeys(b, LimitKey)
  {
    PermutedDistinct(a, mid, LimitKey);
    forall i, j | 0 <= i < j < |b|
      ensures LimitKey(b[i]) != LimitKey(b[j])
    {
      assert Alike(mid[i], b[i]) && Alike(mid[j], b[j]);
    }
  }

  lemma ReorderedValid(a: seq<AllocationLimit>, mid: seq<AllocationLimit>, b: seq<AllocationLimit>, pairs: set<Key>)
    requires Reordered(a, mid, b) && ValidLimits(a, pairs)
    ensures ValidLimits(mid, pairs) && ValidLimits(b, pairs)
  {
    PermutedMembers(a, mid);
    ReorderedDistinct(a, mid, b);
    forall k | k in b
      ensures ValidLimit(k, pairs)
    {
      var i :| 0 <= i < |b| && b[i] == k;
      assert mid[i] in a;
      AlikeValid(mid[i], k, pairs);
    }
  }

  // ----- canonical limits

  lemma IdsAppend<T>(xs: seq<T>, ys: seq<T>, key: T -> string)
    ensures Ids(xs + ys, key) == Ids(xs, key) + Ids(ys, key)
  {
  }

  lemma IdsInsert<T>(left: seq<T>, x: T, right: seq<T>, key: T -> string)
    ensures multiset(Ids(left + [x] + right, key)) == multiset(Ids(left + right, key)) + multiset{key(x)}
  {
    IdsAppend(left, right, key);
    IdsAppend(left, [x], key);
    IdsAppend(left + [x], right, key);
    assert Ids([x], key) == [key(x)];
  }

  lemma {:induction false} IdsPermuted<T>(xs: seq<T>, ys: seq<T>, key: T -> string)
    requires Permuted(xs, ys)
    ensures Permuted(Ids(xs, key), Ids(ys, key))
    decreases |xs|
  {
    PermutedMembers(xs, ys);
    if xs != [] {
      var init, last := xs[..|xs| - 1], xs[|xs| - 1];
      assert last in ys;
      var left, right := SplitAt(ys, last);
      assert xs == init + [last];
      IdsPermuted(init, left + right, key);
      IdsInsert(left, last, right, key);
      IdsAppend(init, [last], key);
      assert Ids([last], key) == [key(last)];
    }
  }

  function Same(id: string): string { id }

  lemma SortedIds<T(!new)>(xs: seq<T>, key: T -> string)
    requires Sorted(xs, key) && DistinctKeys(xs, key)
    ensures Sorted(Ids(xs, key), Same) && DistinctKeys(Ids(xs, key), Same)
  {
  }

  /** Canonical copies list the same identifiers in the same places. */
  lemma CanonicalIds(a: seq<AllocationLimit>, mid: seq<AllocationLimit>, b: seq<AllocationLimit>,
                     sa: seq<AllocationLimit>, sb: seq<AllocationLimit>)
    requires Reordered(a, mid, b) && DistinctKeys(a, LimitKey)
    requires SortedCopy(sa, a, LimitKey) && SortedCopy(sb, b, LimitKey)
    ensures Ids(sa, LimitKey) == Ids(sb, LimitKey)
  {
    ReorderedDistinct(a, mid, b);
    PermutedDistinct(a, sa, LimitKey);
    PermutedDistinct(b, sb, LimitKey);
    IdsPermuted(sa, mid, LimitKey);
    IdsPermuted(b, sb, LimitKey);
    assert Ids(mid, LimitKey) == Ids(b, LimitKey);
    SortedIds(sa, LimitKey);
    SortedIds(sb, LimitKey);
    SortedUnique(Ids(sa, LimitKey), Ids(sb, LimitKey), Same);
  }

  lemma CanonicalAlike(a: seq<AllocationLimit>, mid: seq<AllocationLimit>, b: seq<AllocationLimit>,
                       sa: seq<AllocationLimit>, sb: seq<AllocationLimit>, i: nat)
    requires Reordered(a, mid, b) && DistinctKeys(a, LimitKey)
    requires SortedCopy(sa, a, LimitKey) && SortedCopy(sb, b, LimitKey)
    requires i < |sa|
    ensures |sa| == |sb| && Alike(sa[i], sb[i])
  {
    CanonicalIds(a, mid, b, sa, sb);
    ReorderedDistinct(a, mid, b);
    assert Ids(sa, LimitKey)[i] == Ids(sb, LimitKey)[i];
    PermutedMembers(mid, sa);
    PermutedMembers(b, sb);
    assert sa[i] in mid && sb[i] in b;
    var p :| 0 <= p < |mid| && mid[p] == sa[i];
    var q :| 0 <= q < |b| && b[q] == sb[i];
    assert Alike(mid[q], b[q]);
    DistinctKeysAt(mid, LimitKey, p, q);
  }

  // ----- the same program

  lemma AlikeWeight(s: seq<LimitTerm>, t: seq<LimitTerm>, k: Key)
    requires Permuted(s, t) && DistinctTerms(s) && DistinctTerms(t)
    ensures WeightOf(s, k) == WeightOf(t, k)
  {
    PermutedMembers(s, t);
    WeightToMeaning(s, |s|, k);
    WeightToMeaning(t, |t|, k);
    if i :| 0 <= i < |s| && TermKey(s[i]) == k {
      assert s[i] in t;
      var j :| 0 <= j < |t| && t[j] == s[i];
    } else {
      forall j | 0 <= j < |t|
        ensures TermKey(t[j]) != k
      {
        assert t[j] in s;
      }
    }
  }

  lemma AlikeWeights(assets: seq<Asset>, requirements: seq<Requirement>, l: AllocationLimit, k: AllocationLimit, pairs: set<Key>)
    requires Alike(l, k) && ValidLimit(l, pairs) && ValidLimit(k, pairs)
    ensures Weights(assets, requirements, l) == Weights(assets, requirements, k)
  {
    var u, v := Weights(assets, requirements, l), Weights(assets, requirements, k);
    forall j | 0 <= j < |u|
      ensures u[j] == v[j]
    {
      AlikeWeight(l.terms, k.terms, EdgeKeys(assets, requirements)[j]);
    }
  }

  /** Models that differ only in how their limits' terms are written down. */
  ghost predicate SameModel(m: Model, n: Model) {
    n == m.(limits := n.limits) && Ids(m.limits, LimitKey) == Ids(n.limits, LimitKey)
  }

  lemma SameProgram(m: Model, n: Model)
    requires ValidModel(m) && ValidModel(n) && SameModel(m, n)
    ensures ProgramOf(m) == ProgramOf(n)
  {
    assert |m.limits| == |Ids(m.limits, LimitKey)| == |n.limits|;
    forall i | 0 <= i < Slacks(m) + |m.requirements|
      ensures ProgramRows(m)[i] == ProgramRows(n)[i]
    {
      assert ProgramRow(m, i) == ProgramRow(n, i);
    }
    assert ProgramRows(m) == ProgramRows(n);
  }

  lemma SameAllocation(m: Model, n: Model, x: Vec, j: nat)
    requires m.assets == n.assets && m.requirements == n.requirements && m.edges == n.edges
    requires j < |m.edges| && j < |x| && m.edges[j].asset < |m.assets| && m.edges[j].requirement < |m.requirements|
    ensures AllocationOf(m, x, j) == AllocationOf(n, x, j)
  {
    var e, f := m.edges[j], n.edges[j];
    assert e == f;
    assert m.requirements[e.requirement].agreementId == n.requirements[e.requirement].agreementId;
    assert m.assets[e.asset].id == n.assets[e.asset].id;
    assert AllocationOf(m, x, j).used == AllocationOf(n, x, j).used;
    assert AllocationOf(m, x, j).posted == AllocationOf(n, x, j).posted;
    assert AllocationOf(m, x, j).cost == AllocationOf(n, x, j).cost;
  }

  lemma {:induction false} SameAllocations(m: Model, n: Model, x: Vec, k: nat)
    requires ValidModel(m) && ValidModel(n) && SameModel(m, n) && |x| == |m.edges| && k <= |x|
    ensures AllocationsTo(m, x, k) == AllocationsTo(n, x, k)
  {
    assert n.edges == m.edges && n.assets == m.assets && n.requirements == m.requirements;
    if k > 0 {
      SameAllocations(m, n, x, k - 1);
      assert ValidEdge(m, m.edges[k - 1]) && ValidEdge(n, n.edges[k - 1]);
      SameAllocation(m, n, x, k - 1);
    }
  }

  lemma SameCertificate(m: Model, n: Model, y: Vec)
    requires ValidModel(m) && ValidModel(n) && SameModel(m, n) && |y| == Slacks(m) + |m.requirements|
    ensures Slacks(m) == Slacks(n) && CertificateOf(m, y) == CertificateOf(n, y)
  {
    assert |m.limits| == |Ids(m.limits, LimitKey)| == |n.limits|;
  }

  lemma SameAnswer(m: Model, n: Model)
    requires ValidModel(m) && ValidModel(n) && SameModel(m, n)
    ensures Answer(m) == Answer(n)
  {
    SameProgram(m, n);
    var p := ProgramOf(m);
    if PhaseOneZero(p) {
      var t, c := PhaseTwo(p), PhaseTwoCost(p);
      SameCertificate(m, n, Duals(p, t, c));
      SameAllocations(m, n, Solution(t, |m.edges|), |m.edges|);
    } else {
      SameCertificate(m, n, Duals(p, PhaseOne(p), PhaseOneCost(p)));
    }
  }

  lemma ReorderedModels(m: Model, n: Model, assets: seq<Asset>, requirements: seq<Requirement>, a: seq<AllocationLimit>,
                        assets': seq<Asset>, requirements': seq<Requirement>, b: seq<AllocationLimit>,
                        mid: seq<AllocationLimit>)
    requires Permuted(assets, assets') && Permuted(requirements, requirements') && Reordered(a, mid, b)
    requires ValidLimits(a, Pairs(m.assets, m.requirements))
    requires IsModelOf(m, assets, requirements, a) && IsModelOf(n, assets', requirements', b)
    ensures SameModel(m, n)
  {
    SortedUnique(m.assets, n.assets, AssetKey);
    SortedUnique(m.requirements, n.requirements, AgreementKey);
    var pairs := Pairs(m.assets, m.requirements);
    ReorderedValid(a, mid, b, pairs);
    CanonicalIds(a, mid, b, m.limits, n.limits);
    assert |Ids(m.limits, LimitKey)| == |m.limits| && |Ids(n.limits, LimitKey)| == |n.limits|;
    PermutedMembers(a, m.limits);
    PermutedMembers(b, n.limits);
    forall i | 0 <= i < |m.limits|
      ensures m.limitValues[i] == n.limitValues[i] && m.limitWeights[i] == n.limitWeights[i]
    {
      CanonicalAlike(a, mid, b, m.limits, n.limits, i);
      assert m.limits[i] in a && n.limits[i] in b;
      AlikeWeights(m.assets, m.requirements, m.limits[i], n.limits[i], pairs);
    }
    assert m.limitWeights == n.limitWeights && m.limitValues == n.limitValues;
  }

  /** Permuting assets, agreements, limits or limit terms leaves admissibility and the answer unchanged. */
  lemma InputOrderIrrelevant(assets: seq<Asset>, requirements: seq<Requirement>, limits: seq<AllocationLimit>,
                             assets': seq<Asset>, requirements': seq<Requirement>, limits': seq<AllocationLimit>,
                             mid: seq<AllocationLimit>, m: Model, n: Model)
    requires Permuted(assets, assets') && Permuted(requirements, requirements') && Reordered(limits, mid, limits')
    requires Admissible(assets, requirements, limits)
    requires IsModelOf(m, assets, requirements, limits) && IsModelOf(n, assets', requirements', limits')
    ensures Admissible(assets', requirements', limits')
    ensures Answer(m) == Answer(n)
  {
    CopiesDecide(assets, requirements, assets', requirements');
    PermutedSets(assets, requirements, assets', requirements');
    ReorderedValid(limits, mid, limits', Pairs(assets, requirements));
    PermutedSets(assets, requirements, m.assets, m.requirements);
    ReorderedModels(m, n, assets, requirements, limits, assets', requirements', limits', mid);
    SameAnswer(m, n);
  }
}
