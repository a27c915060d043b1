/**
 Building the allocation model: copies are sorted by identifier, every field is checked,
 edges and limit weights are appended in order. The model is accepted exactly on the
 admissible inputs, whatever their order.
 */
module Building {
  import opened Vectors
  import opened Inputs
  import opened Models

  class AllocationModel {
    var assets: seq<Asset>
    var requirements: seq<Requirement>
    var available: Vec
    var need: Vec
    var edges: seq<Edge>
    var currency: string
    var limits: seq<AllocationLimit>
    var limitValues: Vec
    var limitWeights: seq<Vec>

    function View(): Model
      reads this
    {
      Model(assets, requirements, available, need, edges, currency, limits, limitValues, limitWeights)
    }

    constructor ()
      ensures View() == Model([], [], [], [], [], "", [], [], [])
    {
      assets, requirements, available, need, edges, currency := [], [], [], [], [], "";
      limits, limitValues, limitWeights := [], [], [];
    }

    method Load(assets: seq<Asset>, requirements: seq<Requirement>, available: Vec, need: Vec, edges: seq<Edge>,
                currency: string)
      modifies this
      ensures View() == old(View()).(assets := assets, requirements := requirements, available := available,
                                     need := need, edges := edges, currency := currency)
    {
      this.assets, this.requirements, this.available := assets, requirements, available;
      this.need, this.edges, this.currency := need, edges, currency;
    }

    /** Adds the side limits, each mapped to its weights over the edges. */
    method AddLimits(limits: seq<AllocationLimit>) returns (err: Error)
      requires ValidData(assets, requirements) && View() == ModelOf(assets, requirements, [])
      modifies this
      ensures assets == old(assets) && requirements == old(requirements)
      ensures err.NoError? <==> ValidLimits(limits, Pairs(assets, requirements))
      ensures err.NoError? || err.InvalidInput? || (err.LimitExceeded? && |limits| > MAX_LIMITS)
      ensures err.NoError? ==>
                && SortedCopy(this.limits, limits, LimitKey) && ValidModel(View())
                && View() == ModelOf(assets, requirements, this.limits)
    {
      if |limits| > MAX_LIMITS {
        return LimitExceeded;
      }
      var sl := SortById(limits, LimitKey);
      LimitCopiesDecide(limits, sl, Pairs(assets, requirements));
      var maxima, weights;
      err, maxima, weights := LoadLimits(assets, requirements, edges, sl);
      if err.NoError? {
        this.limits, limitValues, limitWeights := sl, maxima, weights;
        ModelOfIsValid(assets, requirements, sl);
        assert View() == ModelOf(assets, requirements, sl);
      }
    }
  }

  lemma LimitCopiesDecide(limits: seq<AllocationLimit>, sl: seq<AllocationLimit>, pairs: set<Key>)
    requires Permuted(limits, sl)
    ensures |sl| == |limits| && (ValidLimits(limits, pairs) <==> ValidLimits(sl, pairs))
  {
    PermutedMembers(limits, sl);
    if ValidLimits(limits, pairs) {
      PermutedValidLimits(limits, sl, pairs);
    } else if ValidLimits(sl, pairs) {
      PermutedValidLimits(sl, limits, pairs);
    }
  }

  // ----- limits

  ghost predicate Indexes(index: map<Key, nat>, keys: seq<Key>, n: nat) {
    && n <= |keys|
    && (forall k :: k in index ==> index[k] < n && keys[index[k]] == k)
    && (forall j :: 0 <= j < n ==> keys[j] in index)
  }

  ghost predicate DistinctSeq<T(!new)>(xs: seq<T>) {
    forall i, j :: 0 <= i < j < |xs| ==> xs[i] != xs[j]
  }

  lemma EdgeKeysAreDistinct(assets: seq<Asset>, requirements: seq<Requirement>)
    requires DistinctKeys(assets, AssetKey) && DistinctKeys(requirements, AgreementKey)
    ensures DistinctSeq(EdgeKeys(assets, requirements))
  {
    var keys := EdgeKeys(assets, requirements);
    forall i, j | 0 <= i < j < |keys|
      ensures keys[i] != keys[j]
    {
      EdgeKeysDistinct(assets, requirements, i, j);
    }
  }

  method IndexEdges(assets: seq<Asset>, requirements: seq<Requirement>, edges: seq<Edge>) returns (index: map<Key, nat>)
    requires edges == Edges(assets, requirements, |requirements|)
    ensures Indexes(index, EdgeKeys(assets, requirements), |edges|)
  {
    index := map[];
    ghost var keys := EdgeKeys(assets, requirements);
    for j := 0 to |edges|
      invariant Indexes(index, keys, j)
    {
      assert IsEdge(assets, requirements, edges[j]);
      var key := (assets[edges[j].asset].id, requirements[edges[j].requirement].agreementId);
      assert key == keys[j];
      index := index[key := j];
    }
  }

  /** What the first `n` terms have set. */
  ghost predicate TermsLoaded(terms: seq<LimitTerm>, n: nat, keys: seq<Key>, weights: Vec, seen: set<nat>) {
    && n <= |terms| && |weights| == |keys|
    && (forall i :: 0 <= i < n ==> TermKey(terms[i]) in keys && Amount(terms[i].weight))
    && (forall i, j :: 0 <= i < j < n ==> TermKey(terms[i]) != TermKey(terms[j]))
    && (forall j :: 0 <= j < |keys| ==> (j in seen <==> exists i :: 0 <= i < n && TermKey(terms[i]) == keys[j]))
    && (forall j :: 0 <= j < |keys| ==> weights[j] == WeightTo(terms, n, keys[j]))
  }

  lemma TermAccepted(terms: seq<LimitTerm>, n: nat, keys: seq<Key>, weights: Vec, seen: set<nat>, j: nat)
    requires n < |terms| && TermsLoaded(terms, n, keys, weights, seen) && DistinctSeq(keys)
    requires j < |keys| && keys[j] == TermKey(terms[n]) && j !in seen && Amount(terms[n].weight)
    ensures TermsLoaded(terms, n + 1, keys, weights[j := terms[n].weight.value], seen + {j})
  {
    forall l | 0 <= l < |keys|
      ensures l in seen + {j} <==> exists i :: 0 <= i < n + 1 && TermKey(terms[i]) == keys[l]
    {
      if l == j {
        assert TermKey(terms[n]) == keys[l];
      } else if l in seen {
        var i :| 0 <= i < n && TermKey(terms[i]) == keys[l];
      }
    }
  }

  ghost predicate ValidTerms(terms: seq<LimitTerm>, keys: seq<Key>) {
    (forall t :: t in terms ==> TermKey(t) in keys && Amount(t.weight)) && DistinctTerms(terms)
  }

  lemma NoTerms(terms: seq<LimitTerm>, keys: seq<Key>)
    ensures TermsLoaded(terms, 0, keys, Zeros(|keys|), {})
  {
  }

  lemma TermRefused(terms: seq<LimitTerm>, n: nat, keys: seq<Key>, weights: Vec, seen: set<nat>, index: map<Key, nat>)
    requires n < |terms| && TermsLoaded(terms, n, keys, weights, seen) && Indexes(index, keys, |keys|)
    requires var key := TermKey(terms[n]); key !in index || index[key] in seen || !Amount(terms[n].weight)
    ensures !ValidTerms(terms, keys)
  {
    var key := TermKey(terms[n]);
    assert terms[n] in terms;
    if key in index && index[key] in seen {
      var i :| 0 <= i < n && TermKey(terms[i]) == keys[index[key]];
      assert TermKey(terms[i]) == TermKey(terms[n]);
    }
  }

  method LoadTerms(terms: seq<LimitTerm>, index: map<Key, nat>, ghost keys: seq<Key>, n: nat) returns (ok: bool, weights: Vec)
    requires |keys| == n && Indexes(index, keys, n) && DistinctSeq(keys)
    ensures ok <==> ValidTerms(terms, keys)
    ensures ok ==> |weights| == n && forall j :: 0 <= j < n ==> weights[j] == WeightOf(terms, keys[j])
  {
    weights := Zeros(n);
    var seen: set<nat> := {};
    NoTerms(terms, keys);
    for i := 0 to |terms|
      invariant TermsLoaded(terms, i, keys, weights, seen)
    {
      var found, j := FindTerm(terms, index, keys, i, weights, seen);
      if !found {
        return false, weights;
      }
      seen := seen + {j};
      weights := weights[j := terms[i].weight.value];
    }
    TermsAccepted(terms, keys, weights, seen);
    ok := true;
  }

  /** The edge a term names, unless the term is unknown, repeated or without a proper weight. */
  method FindTerm(terms: seq<LimitTerm>, index: map<Key, nat>, ghost keys: seq<Key>, i: nat, ghost weights: Vec, seen: set<nat>)
    returns (found: bool, j: nat)
    requires Indexes(index, keys, |keys|) && DistinctSeq(keys) && i < |terms| && TermsLoaded(terms, i, keys, weights, seen)
    ensures !found ==> !ValidTerms(terms, keys)
    ensures found ==> terms[i].weight.Number? && j < |weights|
                      && TermsLoaded(terms, i + 1, keys, weights[j := terms[i].weight.value], seen + {j})
  {
    var key := (terms[i].assetId, terms[i].agreementId);
    if key !in index || index[key] in seen || !Amount(terms[i].weight) {
      TermRefused(terms, i, keys, weights, seen, index);
      return false, 0;
    }
    j := index[key];
    TermAccepted(terms, i, keys, weights, seen, j);
    found := true;
  }

  lemma TermsAccepted(terms: seq<LimitTerm>, keys: seq<Key>, weights: Vec, seen: set<nat>)
    requires TermsLoaded(terms, |terms|, keys, weights, seen)
    ensures ValidTerms(terms, keys)
  {
  }

  /** What the first `n` limits have set. */
  ghost predicate LimitsLoaded(assets: seq<Asset>, requirements: seq<Requirement>, sl: seq<AllocationLimit>, n: nat,
                               maxima: Vec, weights: seq<Vec>)
  {
    && n <= |sl| && |maxima| == n && |weights| == n
    && (forall i :: 0 <= i < n ==> ValidLimit(sl[i], Pairs(assets, requirements)))
    && (forall i :: 0 < i < n ==> sl[i - 1].id != sl[i].id)
    && (forall i :: 0 <= i < n ==> maxima[i] == Value(sl[i].maximum) && weights[i] == Weights(assets, requirements, sl[i]))
  }

  method LoadLimit(assets: seq<Asset>, requirements: seq<Requirement>, l: AllocationLimit, index: map<Key, nat>, n: nat)
    returns (ok: bool, weights: Vec)
    requires Indexes(index, EdgeKeys(assets, requirements), n) && n == |EdgeKeys(assets, requirements)|
    requires DistinctSeq(EdgeKeys(assets, requirements))
    ensures ok <==> ValidLimit(l, Pairs(assets, requirements))
    ensures ok ==> weights == Weights(assets, requirements, l)
  {
    weights := [];
    EdgeKeysArePairs(assets, requirements);
    ghost var keys := EdgeKeys(assets, requirements);
    assert forall k :: k in keys <==> k in Pairs(assets, requirements);
    if !ValidId(l.id) || |l.terms| > MAX_EDGES || !Amount(l.maximum) {
      return false, weights;
    }
    ok, weights := LoadTerms(l.terms, index, keys, n);
  }

  lemma LimitRefused(sl: seq<AllocationLimit>, pairs: set<Key>, i: nat)
    requires i < |sl|
    requires !ValidLimit(sl[i], pairs) || (i > 0 && sl[i - 1].id == sl[i].id)
    ensures !ValidLimits(sl, pairs)
  {
    assert sl[i] in sl;
    assert i > 0 && sl[i - 1].id == sl[i].id ==> LimitKey(sl[i - 1]) == LimitKey(sl[i]);
  }

  lemma LimitAccepted(assets: seq<Asset>, requirements: seq<Requirement>, sl: seq<AllocationLimit>, n: nat,
                      maxima: Vec, weights: seq<Vec>)
    requires n < |sl| && LimitsLoaded(assets, requirements, sl, n, maxima, weights)
    requires ValidLimit(sl[n], Pairs(assets, requirements)) && (n > 0 ==> sl[n - 1].id != sl[n].id)
    ensures LimitsLoaded(assets, requirements, sl, n + 1, maxima + [sl[n].maximum.value],
                         weights + [Weights(assets, requirements, sl[n])])
  {
    var more, rows := maxima + [sl[n].maximum.value], weights + [Weights(assets, requirements, sl[n])];
    forall i | 0 <= i < n + 1
      ensures more[i] == Value(sl[i].maximum) && rows[i] == Weights(assets, requirements, sl[i])
    {
      if i < n {
        assert more[i] == maxima[i] && rows[i] == weights[i];
      }
    }
  }

  lemma LimitsAccepted(assets: seq<Asset>, requirements: seq<Requirement>, sl: seq<AllocationLimit>,
                       maxima: Vec, weights: seq<Vec>)
    requires Sorted(sl, LimitKey) && |sl| <= MAX_LIMITS
    requires LimitsLoaded(assets, requirements, sl, |sl|, maxima, weights)
    ensures ValidLimits(sl, Pairs(assets, requirements))
  {
    NeighboursMakeDistinct(sl, LimitKey);
  }

  method LoadLimits(assets: seq<Asset>, requirements: seq<Requirement>, edges: seq<Edge>, sl: seq<AllocationLimit>)
    returns (err: Error, maxima: Vec, weights: seq<Vec>)
    requires ValidData(assets, requirements) && edges == Edges(assets, requirements, |requirements|)
    requires Sorted(sl, LimitKey) && |sl| <= MAX_LIMITS
    ensures err.NoError? || err.InvalidInput?
    ensures err.NoError? <==> ValidLimits(sl, Pairs(assets, requirements))
    ensures err.NoError? ==> LimitsLoaded(assets, requirements, sl, |sl|, maxima, weights)
  {
    err, maxima, weights := NoError, [], [];
    var index := IndexEdges(assets, requirements, edges);
    EdgeKeysAreDistinct(assets, requirements);
    for i := 0 to |sl|
      invariant LimitsLoaded(assets, requirements, sl, i, maxima, weights)
    {
      var l := sl[i];
      var ok, row := LoadLimit(assets, requirements, l, index, |edges|);
      if !ok || (i > 0 && sl[i - 1].id == l.id) {
        LimitRefused(sl, Pairs(assets, requirements), i);
        err := InvalidInput;
        return;
      }
      LimitAccepted(assets, requirements, sl, i, maxima, weights);
      maxima := maxima + [l.maximum.value];
      weights := weights + [row];
    }
    LimitsAccepted(assets, requirements, sl, maxima, weights);
  }

  // ----- validity does not depend on order

  lemma PermutedCurrency(assets: seq<Asset>, requirements: seq<Requirement>, sa: seq<Asset>, sr: seq<Requirement>)
    requires Permuted(assets, sa) && Permuted(requirements, sr) && ValidData(assets, requirements)
    ensures CommonCurrency(sa, sr) == CommonCurrency(assets, requirements)
  {
    PermutedMembers(assets, sa);
    PermutedMembers(requirements, sr);
    if sa != [] {
      assert sa[0] in assets;
    } else if sr != [] {
      assert sr[0] in requirements;
    }
  }

  lemma PermutedSets(assets: seq<Asset>, requirements: seq<Requirement>, sa: seq<Asset>, sr: seq<Requirement>)
    requires Permuted(assets, sa) && Permuted(requirements, sr)
    ensures AssetIds(sa) == AssetIds(assets) && Pairs(sa, sr) == Pairs(assets, requirements)
    ensures WithinSizes(sa, sr) <==> WithinSizes(assets, requirements)
  {
    PermutedMembers(assets, sa);
    PermutedMembers(requirements, sr);
  }

  lemma PermutedValidData(assets: seq<Asset>, requirements: seq<Requirement>, sa: seq<Asset>, sr: seq<Requirement>)
    requires Permuted(assets, sa) && Permuted(requirements, sr) && ValidData(assets, requirements)
    ensures ValidData(sa, sr)
  {
    PermutedMembers(assets, sa);
    PermutedMembers(requirements, sr);
    PermutedCurrency(assets, requirements, sa, sr);
    PermutedSets(assets, requirements, sa, sr);
    PermutedDistinct(assets, sa, AssetKey);
    PermutedDistinct(requirements, sr, AgreementKey);
  }

  lemma PermutedValidLimits(limits: seq<AllocationLimit>, sl: seq<AllocationLimit>, pairs: set<Key>)
    requires Permuted(limits, sl) && ValidLimits(limits, pairs)
    ensures ValidLimits(sl, pairs)
  {
    PermutedMembers(limits, sl);
    PermutedDistinct(limits, sl, LimitKey);
  }

  /** In sorted order neighbours with different keys make all keys different. */
  lemma {:induction false} NeighboursDistinct<T(!new)>(xs: seq<T>, key: T -> string, i: nat, j: nat)
    requires Sorted(xs, key) && i < j < |xs|
    requires forall k :: 0 < k < |xs| ==> key(xs[k - 1]) != key(xs[k])
    ensures Less(key(xs[i]), key(xs[j]))
  {
    LessTrichotomy(key(xs[j - 1]), key(xs[j]));
    if i < j - 1 {
      NeighboursDistinct(xs, key, i, j - 1);
      LessTransitive(key(xs[i]), key(xs[j - 1]), key(xs[j]));
    }
  }

  lemma NeighboursMakeDistinct<T(!new)>(xs: seq<T>, key: T -> string)
    requires Sorted(xs, key)
    requires forall k :: 0 < k < |xs| ==> key(xs[k - 1]) != key(xs[k])
    ensures DistinctKeys(xs, key)
  {
    forall i, j | 0 <= i < j < |xs|
      ensures key(xs[i]) != key(xs[j])
    {
      NeighboursDistinct(xs, key, i, j);
      LessTrichotomy(key(xs[i]), key(xs[i]));
    }
  }

  // ----- assets

  /** What the loop over assets has established for the first `n`. */
  ghost predicate AssetsLoaded(sa: seq<Asset>, n: nat, currency: string, ids: set<string>, available: Vec, costs: Vec) {
    && n <= |sa|
    && currency == (if n == 0 then "" else sa[0].currency)
    && (forall i :: 0 <= i < n ==> ValidAsset(sa[i], currency))
    && (forall id :: id in ids <==> exists i :: 0 <= i < n && sa[i].id == id)
    && (forall i, j :: 0 <= i < j < n ==> sa[i].id != sa[j].id)
    && |available| == n && (forall i :: 0 <= i < n ==> available[i] == Value(sa[i].available))
    && |costs| == n && (forall i :: 0 <= i < n ==> costs[i] == Value(sa[i].cost))
  }

  lemma AssetAccepted(sa: seq<Asset>, n: nat, currency: string, ids: set<string>, available: Vec, costs: Vec, c: string)
    requires n < |sa| && AssetsLoaded(sa, n, currency, ids, available, costs)
    requires c == (if currency == "" then sa[n].currency else currency)
    requires ValidAsset(sa[n], c) && sa[n].id !in ids
    ensures AssetsLoaded(sa, n + 1, c, ids + {sa[n].id}, available + [sa[n].available.value], costs + [sa[n].cost.value])
  {
    assert c == sa[0].currency;
    IdsExtend(sa, n, ids);
    forall i | 0 <= i < n
      ensures ValidAsset(sa[i], c) && sa[i].id != sa[n].id
    {
      assert sa[i].id in ids;
    }
    AmountsExtend(sa, n, available, costs);
  }

  lemma AmountsExtend(sa: seq<Asset>, n: nat, available: Vec, costs: Vec)
    requires n < |sa| && Amount(sa[n].available) && Amount(sa[n].cost)
    requires |available| == n && forall i :: 0 <= i < n ==> available[i] == Value(sa[i].available)
    requires |costs| == n && forall i :: 0 <= i < n ==> costs[i] == Value(sa[i].cost)
    ensures forall i :: 0 <= i < n + 1 ==> (available + [sa[n].available.value])[i] == Value(sa[i].available)
    ensures forall i :: 0 <= i < n + 1 ==> (costs + [sa[n].cost.value])[i] == Value(sa[i].cost)
  {
  }

  lemma IdsExtend(sa: seq<Asset>, n: nat, ids: set<string>)
    requires n < |sa| && forall id :: id in ids <==> exists i :: 0 <= i < n && sa[i].id == id
    ensures forall id :: id in ids + {sa[n].id} <==> exists i :: 0 <= i < n + 1 && sa[i].id == id
  {
    forall id
      ensures id in ids + {sa[n].id} <==> exists i :: 0 <= i < n + 1 && sa[i].id == id
    {
      if id == sa[n].id {
        assert 0 <= n < n + 1;
      } else if id in ids {
        var i :| 0 <= i < n && sa[i].id == id;
        assert 0 <= i < n + 1;
      }
    }
  }

  lemma AssetRefused(sa: seq<Asset>, n: nat, currency: string, ids: set<string>, available: Vec, costs: Vec, c: string,
                     requirements: seq<Requirement>)
    requires n < |sa| && AssetsLoaded(sa, n, currency, ids, available, costs)
    requires c == (if currency == "" then sa[n].currency else currency)
    requires !ValidAsset(sa[n], c) || sa[n].id in ids
    ensures !ValidData(sa, requirements)
  {
    assert sa[n] in sa && sa[0] in sa;
    if ValidAsset(sa[n], c) {
      var i :| 0 <= i < n && sa[i].id == sa[n].id;
      assert AssetKey(sa[i]) == AssetKey(sa[n]);
    }
  }

  method LoadAssets(sa: seq<Asset>, ghost requirements: seq<Requirement>)
    returns (err: Error, currency: string, ids: set<string>, available: Vec, costs: Vec)
    ensures err.NoError? || err.InvalidInput?
    ensures err.NoError? ==> AssetsLoaded(sa, |sa|, currency, ids, available, costs)
    ensures err.InvalidInput? ==> !ValidData(sa, requirements)
  {
    err, currency, ids, available, costs := NoError, "", {}, [], [];
    for i := 0 to |sa|
      invariant AssetsLoaded(sa, i, currency, ids, available, costs)
    {
      var a := sa[i];
      var c := if currency == "" then a.currency else currency;
      if !ValidId(a.id) || !ValidCurrency(a.currency) || c != a.currency || a.id in ids
         || !Amount(a.available) || !Amount(a.cost) {
        AssetRefused(sa, i, currency, ids, available, costs, c, requirements);
        err := InvalidInput;
        return;
      }
      AssetAccepted(sa, i, currency, ids, available, costs, c);
      currency, ids := c, ids + {a.id};
      available, costs := available + [a.available.value], costs + [a.cost.value];
    }
  }

  // ----- requirements

  method CheckSchedule(schedule: map<string, Eligibility>, ids: set<string>) returns (ok: bool)
    ensures ok == ValidSchedule(schedule, ids)
  {
    var pending := schedule.Keys;
    while pending != {}
      invariant pending <= schedule.Keys
      invariant forall id :: id in schedule && id !in pending ==>
                  id in ids && Amount(schedule[id].haircut) && schedule[id].haircut.value < 1.0
      decreases |pending|
    {
      var id :| id in pending;
      pending := pending - {id};
      var haircut := schedule[id].haircut;
      if id !in ids || !Amount(haircut) || haircut.value >= 1.0 {
        return false;
      }
    }
    return true;
  }

  method AppendEdges(edges: seq<Edge>, sa: seq<Asset>, costs: Vec, r: Requirement, requirement: nat) returns (more: seq<Edge>)
    requires |costs| == |sa| && forall i :: 0 <= i < |sa| ==> costs[i] == Value(sa[i].cost)
    ensures more == edges + EdgesFor(sa, r, requirement, |sa|)
  {
    more := edges;
    for i := 0 to |sa|
      invariant more == edges + EdgesFor(sa, r, requirement, i)
    {
      var id := sa[i].id;
      if id in r.schedule && r.schedule[id].eligible {
        more := more + [Edge(i, requirement, 1.0 - Value(r.schedule[id].haircut), costs[i])];
      }
    }
  }

  ghost predicate RequirementsLoaded(sa: seq<Asset>, sr: seq<Requirement>, n: nat, currency: string, ids: set<string>,
                                     need: Vec, edges: seq<Edge>)
  {
    && n <= |sr|
    && currency == (if sa != [] then sa[0].currency else if n > 0 then sr[0].currency else "")
    && (forall i :: 0 <= i < n ==> ValidRequirement(sr[i], currency, ids) && |sr[i].schedule| <= MAX_ASSETS)
    && (forall i :: 0 < i < n ==> sr[i - 1].agreementId != sr[i].agreementId)
    && |need| == n && (forall i :: 0 <= i < n ==> need[i] == Value(sr[i].amount))
    && edges == Edges(sa, sr, n)
  }

  lemma LoadedIds(sa: seq<Asset>, currency: string, ids: set<string>, available: Vec, costs: Vec)
    requires AssetsLoaded(sa, |sa|, currency, ids, available, costs)
    ensures ids == AssetIds(sa)
  {
    forall id | id in AssetIds(sa)
      ensures id in ids
    {
      var a :| a in sa && a.id == id;
      var i :| 0 <= i < |sa| && sa[i] == a;
    }
    forall id | id in ids
      ensures id in AssetIds(sa)
    {
      var i :| 0 <= i < |sa| && sa[i].id == id;
      assert sa[i] in sa;
    }
  }

  lemma RequirementAccepted(sa: seq<Asset>, sr: seq<Requirement>, n: nat, currency: string, ids: set<string>,
                            need: Vec, edges: seq<Edge>, c: string)
    requires n < |sr| && RequirementsLoaded(sa, sr, n, currency, ids, need, edges)
    requires currency == "" <==> sa == [] && n == 0
    requires c == (if currency == "" then sr[n].currency else currency)
    requires ValidRequirement(sr[n], c, ids) && |sr[n].schedule| <= MAX_ASSETS
    requires n > 0 ==> sr[n - 1].agreementId != sr[n].agreementId
    ensures RequirementsLoaded(sa, sr, n + 1, c, ids, need + [sr[n].amount.value],
                               edges + EdgesFor(sa, sr[n], n, |sa|))
    ensures c != ""
  {
    assert c == (if sa != [] then sa[0].currency else sr[0].currency);
    forall i | 0 <= i < n + 1
      ensures ValidRequirement(sr[i], c, ids) && |sr[i].schedule| <= MAX_ASSETS
      ensures i > 0 ==> sr[i - 1].agreementId != sr[i].agreementId
    {
      if i < n {
        assert ValidRequirement(sr[i], currency, ids) && currency == c;
      }
    }
    NeedsExtend(sr, n, need);
  }

  lemma NeedsExtend(sr: seq<Requirement>, n: nat, need: Vec)
    requires n < |sr| && Amount(sr[n].amount) && |need| == n && forall i :: 0 <= i < n ==> need[i] == Value(sr[i].amount)
    ensures forall i :: 0 <= i < n + 1 ==> (need + [sr[n].amount.value])[i] == Value(sr[i].amount)
  {
  }

  lemma RequirementRefused(sa: seq<Asset>, sr: seq<Requirement>, n: nat, currency: string, ids: set<string>,
                           need: Vec, edges: seq<Edge>, c: string)
    requires n < |sr| && RequirementsLoaded(sa, sr, n, currency, ids, need, edges) && ids == AssetIds(sa)
    requires currency == "" <==> sa == [] && n == 0
    requires c == (if currency == "" then sr[n].currency else currency)
    requires !ValidRequirement(sr[n], c, ids) || (n > 0 && sr[n - 1].agreementId == sr[n].agreementId)
    ensures !ValidData(sa, sr)
  {
    assert sr[n] in sr && sr[0] in sr;
    if n > 0 && sr[n - 1].agreementId == sr[n].agreementId {
      assert AgreementKey(sr[n - 1]) == AgreementKey(sr[n]);
    }
  }

  method LoadRequirements(sa: seq<Asset>, sr: seq<Requirement>, assetCurrency: string, ids: set<string>, costs: Vec,
                          ghost available: Vec)
    returns (err: Error, currency: string, need: Vec, edges: seq<Edge>)
    requires AssetsLoaded(sa, |sa|, assetCurrency, ids, available, costs)
    ensures err.NoError? || err.InvalidInput? || err.LimitExceeded?
    ensures err.NoError? ==> RequirementsLoaded(sa, sr, |sr|, currency, ids, need, edges)
    ensures err.InvalidInput? ==> !ValidData(sa, sr)
    ensures err.LimitExceeded? ==> !WithinSizes(sa, sr)
  {
    err, currency, need, edges := NoError, assetCurrency, [], [];
    LoadedIds(sa, assetCurrency, ids, available, costs);
    for i := 0 to |sr|
      invariant err.NoError? && RequirementsLoaded(sa, sr, i, currency, ids, need, edges)
      invariant currency == "" <==> sa == [] && i == 0
    {
      err, currency := CheckRequirement(sa, sr, i, currency, ids, need, edges);
      if !err.NoError? {
        return;
      }
      edges := AppendEdges(edges, sa, costs, sr[i], i);
      need := need + [sr[i].amount.value];
    }
  }

  /** Checks one agreement; an accepted one fixes the currency. */
  method CheckRequirement(sa: seq<Asset>, sr: seq<Requirement>, i: nat, currency: string, ids: set<string>, ghost need: Vec,
                          ghost edges: seq<Edge>)
    returns (err: Error, c: string)
    requires i < |sr| && RequirementsLoaded(sa, sr, i, currency, ids, need, edges) && ids == AssetIds(sa)
    requires currency == "" <==> sa == [] && i == 0
    ensures err.NoError? || err.InvalidInput? || err.LimitExceeded?
    ensures err.NoError? ==> c != "" && sr[i].amount.Number?
    ensures err.NoError? ==> RequirementsLoaded(sa, sr, i + 1, c, ids, need + [sr[i].amount.value], edges + EdgesFor(sa, sr[i], i, |sa|))
    ensures err.InvalidInput? ==> !ValidData(sa, sr)
    ensures err.LimitExceeded? ==> !WithinSizes(sa, sr)
  {
    var r := sr[i];
    c := if currency == "" then r.currency else currency;
    if !ValidId(r.agreementId) || !ValidCurrency(r.currency) || c != r.currency
       || (i > 0 && sr[i - 1].agreementId == r.agreementId) || !Amount(r.amount) {
      RequirementRefused(sa, sr, i, currency, ids, need, edges, c);
      return InvalidInput, c;
    }
    if |r.schedule| > MAX_ASSETS {
      assert r in sr;
      return LimitExceeded, c;
    }
    var ok := CheckSchedule(r.schedule, ids);
    if !ok {
      RequirementRefused(sa, sr, i, currency, ids, need, edges, c);
      return InvalidInput, c;
    }
    RequirementAccepted(sa, sr, i, currency, ids, need, edges, c);
    return NoError, c;
  }

  lemma LoadedIsValid(sa: seq<Asset>, sr: seq<Requirement>, assetCurrency: string, currency: string, ids: set<string>,
                      available: Vec, costs: Vec, need: Vec, edges: seq<Edge>)
    requires Sorted(sr, AgreementKey)
    requires AssetsLoaded(sa, |sa|, assetCurrency, ids, available, costs)
    requires RequirementsLoaded(sa, sr, |sr|, currency, ids, need, edges)
    ensures ValidData(sa, sr) && currency == CommonCurrency(sa, sr)
    ensures available == Availables(sa) && need == Needs(sr)
    ensures |edges| == |Pairs(sa, sr)|
  {
    LoadedIds(sa, assetCurrency, ids, available, costs);
    NeighboursMakeDistinct(sr, AgreementKey);
    assert DistinctKeys(sa, AssetKey);
    EdgeCount(sa, sr);
    LoadedAmounts(sa, sr, available, need);
    forall a | a in sa
      ensures ValidAsset(a, currency)
    {
      var i :| 0 <= i < |sa| && sa[i] == a;
    }
    forall r | r in sr
      ensures ValidRequirement(r, currency, AssetIds(sa))
    {
      var i :| 0 <= i < |sr| && sr[i] == r;
    }
  }

  /** Of the size bounds only the number of edges is left to check. */
  lemma LoadedSizes(sa: seq<Asset>, sr: seq<Requirement>, currency: string, ids: set<string>, need: Vec, edges: seq<Edge>)
    requires RequirementsLoaded(sa, sr, |sr|, currency, ids, need, edges) && ValidData(sa, sr)
    requires |sa| <= MAX_ASSETS && |sr| <= MAX_AGREEMENTS
    ensures WithinSizes(sa, sr) <==> |edges| <= MAX_EDGES
  {
    EdgeCount(sa, sr);
    forall r | r in sr
      ensures |r.schedule| <= MAX_ASSETS
    {
      var i :| 0 <= i < |sr| && sr[i] == r;
    }
  }

  lemma LoadedAmounts(sa: seq<Asset>, sr: seq<Requirement>, available: Vec, need: Vec)
    requires |available| == |sa| && forall i :: 0 <= i < |sa| ==> available[i] == Value(sa[i].available)
    requires |need| == |sr| && forall i :: 0 <= i < |sr| ==> need[i] == Value(sr[i].amount)
    ensures available == Availables(sa) && need == Needs(sr)
  {
  }

  /** `copy` is the canonical order of `original`. */
  ghost predicate SortedCopy<T(!new)>(copy: seq<T>, original: seq<T>, key: T -> string) {
    Sorted(copy, key) && Permuted(original, copy)
  }

  ghost predicate BuiltFrom(m: Model, assets: seq<Asset>, requirements: seq<Requirement>) {
    && SortedCopy(m.assets, assets, AssetKey) && SortedCopy(m.requirements, requirements, AgreementKey)
    && ValidData(m.assets, m.requirements)
    && m == ModelOf(m.assets, m.requirements, [])
  }

  /** What building from canonical copies says about the inputs themselves. */
  lemma CopiesDecide(assets: seq<Asset>, requirements: seq<Requirement>, sa: seq<Asset>, sr: seq<Requirement>)
    requires Permuted(assets, sa) && Permuted(requirements, sr)
    ensures ValidData(assets, requirements) <==> ValidData(sa, sr)
    ensures WithinSizes(assets, requirements) <==> WithinSizes(sa, sr)
  {
    PermutedSets(assets, requirements, sa, sr);
    if ValidData(assets, requirements) {
      PermutedValidData(assets, requirements, sa, sr);
    } else if ValidData(sa, sr) {
      PermutedValidData(sa, sr, assets, requirements);
    }
  }

  /** Loading canonical copies; no object is involved. */
  method LoadCopies(sa: seq<Asset>, sr: seq<Requirement>)
    returns (err: Error, currency: string, available: Vec, need: Vec, edges: seq<Edge>)
    requires Sorted(sr, AgreementKey) && |sa| <= MAX_ASSETS && |sr| <= MAX_AGREEMENTS
    ensures err.NoError? <==> ValidData(sa, sr) && WithinSizes(sa, sr)
    ensures err.NoError? || (err.InvalidInput? && !ValidData(sa, sr)) || (err.LimitExceeded? && !WithinSizes(sa, sr))
    ensures err.NoError? ==>
              && currency == CommonCurrency(sa, sr) && available == Availables(sa) && need == Needs(sr)
              && edges == Edges(sa, sr, |sr|)
  {
    var assetCurrency, ids, costs;
    err, assetCurrency, ids, available, costs := LoadAssets(sa, sr);
    currency, need, edges := "", [], [];
    if !err.NoError? {
      return;
    }
    err, currency, need, edges := LoadRequirements(sa, sr, assetCurrency, ids, costs, available);
    if !err.NoError? {
      return;
    }
    LoadedIsValid(sa, sr, assetCurrency, currency, ids, available, costs, need, edges);
    LoadedSizes(sa, sr, currency, ids, need, edges);
    if |edges| > MAX_EDGES {
      err := LimitExceeded;
    }
  }

  lemma ModelWithoutLimits(sa: seq<Asset>, sr: seq<Requirement>)
    ensures ModelOf(sa, sr, []) == Model(sa, sr, Availables(sa), Needs(sr), Edges(sa, sr, |sr|),
                                         CommonCurrency(sa, sr), [], [], [])
  {
  }

  method BuildAllocationModel(assets: seq<Asset>, requirements: seq<Requirement>) returns (m: AllocationModel, err: Error)
    ensures fresh(m)
    ensures err.NoError? <==> ValidData(assets, requirements) && WithinSizes(assets, requirements)
    ensures err.NoError? || (err.InvalidInput? && !ValidData(assets, requirements))
            || (err.LimitExceeded? && !WithinSizes(assets, requirements))
    ensures err.NoError? ==> BuiltFrom(m.View(), assets, requirements)
  {
    m := new AllocationModel();
    err := LimitExceeded;
    if |assets| > MAX_ASSETS || |requirements| > MAX_AGREEMENTS {
      return;
    }
    var sa := SortById(assets, AssetKey);
    var sr := SortById(requirements, AgreementKey);
    PermutedMembers(assets, sa);
    PermutedMembers(requirements, sr);
    CopiesDecide(assets, requirements, sa, sr);
    var currency, available, need, edges;
    err, currency, available, need, edges := LoadCopies(sa, sr);
    if err.NoError? {
      m.Load(sa, sr, available, need, edges, currency);
      ModelWithoutLimits(sa, sr);
    }
  }
}
