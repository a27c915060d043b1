/**
 Permutation Shapley attributions: walk each sampled order of the features, switch them on one
 by one, and credit every feature with the change it makes. Predictions of the same coalition
 are remembered. Model outputs are read as reals.
 */
module Explaining {

  type Features = map<string, real>

  /** The vector a coalition sees: present features keep their value, absent ones take their baseline or are dropped. */
  ghost function Coalition(values: Features, baseline: Features, present: set<string>): Features {
    map f | f in values && (f in present || f in baseline) :: if f in present then values[f] else baseline[f]
  }

  ghost function WorthOf(model: Features -> real, values: Features, baseline: Features): set<string> -> real {
    present => model(Coalition(values, baseline, present))
  }

  function Elements(order: seq<string>): set<string> {
    set f | f in order
  }

  ghost predicate Distinct(order: seq<string>) {
    forall i, j :: 0 <= i < j < |order| ==> order[i] != order[j]
  }

  /** An order of exactly the vector's features. */
  ghost predicate IsOrder(order: seq<string>, values: Features) {
    Distinct(order) && Elements(order) == values.Keys
  }

  ghost predicate AreOrders(orders: seq<seq<string>>, values: Features) {
    forall k :: 0 <= k < |orders| ==> IsOrder(orders[k], values)
  }

  function IndexOf(order: seq<string>, f: string): (i: nat)
    requires f in order
    ensures i < |order| && order[i] == f && f !in order[..i]
  {
    if order[0] == f then 0 else 1 + IndexOf(order[1..], f)
  }

  /** The change a feature makes when its turn comes. */
  function Marginal(worth: set<string> -> real, order: seq<string>, f: string): real {
    if f !in order then 0.0
    else var i := IndexOf(order, f); worth(Elements(order[..i + 1])) - worth(Elements(order[..i]))
  }

  /** The sum of a feature's changes over the orders. */
  function Credit(worth: set<string> -> real, orders: seq<seq<string>>, f: string): real {
    if |orders| == 0 then 0.0
    else Credit(worth, orders[..|orders| - 1], f) + Marginal(worth, orders[|orders| - 1], f)
  }

  /** The attribution of one feature: its average change. */
  ghost predicate Attributes(worth: set<string> -> real, orders: seq<seq<string>>, values: Features, given: Features)
    requires |orders| > 0
  {
    && given.Keys == values.Keys
    && forall f :: f in values ==> given[f] == Average(|orders|, Credit(worth, orders, f))
  }

  function Average(n: nat, total: real): real
    requires n > 0
  {
    total / n as real
  }

  // ----- sums over sets of features

  ghost function Sum(m: string -> real, keys: set<string>): real {
    if keys == {} then 0.0 else var f :| f in keys; m(f) + Sum(m, keys - {f})
  }

  lemma {:induction false} SumWithout(m: string -> real, keys: set<string>, f: string)
    requires f in keys
    ensures Sum(m, keys) == m(f) + Sum(m, keys - {f})
    decreases keys
  {
    var g :| g in keys && Sum(m, keys) == m(g) + Sum(m, keys - {g});
    if g != f {
      SumWithout(m, keys - {g}, f);
      SumWithout(m, keys - {f}, g);
      assert keys - {g} - {f} == keys - {f} - {g};
    }
  }

  lemma {:induction false} SumAdds(a: string -> real, b: string -> real, c: string -> real, keys: set<string>)
    requires forall f :: f in keys ==> c(f) == a(f) + b(f)
    ensures Sum(c, keys) == Sum(a, keys) + Sum(b, keys)
    decreases keys
  {
    if keys != {} {
      var f :| f in keys;
      SumWithout(a, keys, f);
      SumWithout(b, keys, f);
      SumWithout(c, keys, f);
      SumAdds(a, b, c, keys - {f});
    }
  }

  lemma {:induction false} SumSame(a: string -> real, b: string -> real, keys: set<string>)
    requires forall f :: f in keys ==> a(f) == b(f)
    ensures Sum(a, keys) == Sum(b, keys)
    decreases keys
  {
    if keys != {} {
      var f :| f in keys;
      SumWithout(a, keys, f);
      SumWithout(b, keys, f);
      SumSame(a, b, keys - {f});
    }
  }

  // ----- efficiency

  ghost function Marginals(worth: set<string> -> real, order: seq<string>): string -> real {
    f => Marginal(worth, order, f)
  }

  lemma NotBefore(order: seq<string>, i: nat)
    requires i < |order| && Distinct(order)
    ensures order[i] !in order[..i]
  {
  }

  lemma IndexIs(order: seq<string>, i: nat)
    requires i < |order| && Distinct(order)
    ensures IndexOf(order, order[i]) == i
  {
    var k := IndexOf(order, order[i]);
    assert order[k] == order[i];
  }

  lemma ElementsAppend(xs: seq<string>, x: string)
    ensures Elements(xs + [x]) == Elements(xs) + {x}
  {
  }

  lemma ElementsGrow(order: seq<string>, i: nat)
    requires i < |order| && Distinct(order)
    ensures Elements(order[..i + 1]) == Elements(order[..i]) + {order[i]} && order[i] !in order[..i]
    ensures IndexOf(order, order[i]) == i
  {
    assert order[..i + 1] == order[..i] + [order[i]];
    ElementsAppend(order[..i], order[i]);
    NotBefore(order, i);
    IndexIs(order, i);
  }

  lemma TelescopesNext(worth: set<string> -> real, order: seq<string>, i: nat)
    requires Distinct(order) && i < |order|
    ensures Sum(Marginals(worth, order), Elements(order[..i + 1]))
         == Sum(Marginals(worth, order), Elements(order[..i])) + worth(Elements(order[..i + 1])) - worth(Elements(order[..i]))
  {
    var m, now, before := Marginals(worth, order), Elements(order[..i + 1]), Elements(order[..i]);
    assert now - {order[i]} == before && order[i] in now by {
      ElementsGrow(order, i);
    }
    assert Sum(m, now) == m(order[i]) + Sum(m, before) by {
      SumWithout(m, now, order[i]);
    }
    assert m(order[i]) == worth(now) - worth(before) by {
      IndexIs(order, i);
    }
  }

  lemma TelescopesNone(worth: set<string> -> real, order: seq<string>)
    ensures Sum(Marginals(worth, order), Elements(order[..0])) == worth(Elements(order[..0])) - worth({})
  {
    assert Elements(order[..0]) == {};
  }

  /** The changes of the features switched on so far telescope. */
  lemma {:induction false} Telescopes(worth: set<string> -> real, order: seq<string>, i: nat)
    requires Distinct(order) && i <= |order|
    ensures Sum(Marginals(worth, order), Elements(order[..i])) == worth(Elements(order[..i])) - worth({})
  {
    if i == 0 {
      TelescopesNone(worth, order);
    } else {
      Telescopes(worth, order, i - 1);
      TelescopesNext(worth, order, i - 1);
    }
  }

  ghost function Credits(worth: set<string> -> real, orders: seq<seq<string>>): string -> real {
    f => Credit(worth, orders, f)
  }

  lemma CreditGrows(worth: set<string> -> real, orders: seq<seq<string>>, k: nat, f: string)
    requires k < |orders|
    ensures Credit(worth, orders[..k + 1], f) == Credit(worth, orders[..k], f) + Marginal(worth, orders[k], f)
  {
    assert orders[..k + 1][..k] == orders[..k];
  }

  /** `x` added up `n` times. */
  function Times(n: nat, x: real): real {
    if n == 0 then 0.0 else Times(n - 1, x) + x
  }

  lemma {:induction false} TimesIsProduct(n: nat, x: real)
    ensures Times(n, x) == n as real * x
  {
    if n > 0 {
      TimesIsProduct(n - 1, x);
      assert n as real * x == (n - 1) as real * x + x;
    }
  }

  lemma {:induction false} SumOfZeros(m: string -> real, keys: set<string>)
    requires forall f :: f in keys ==> m(f) == 0.0
    ensures Sum(m, keys) == 0.0
    decreases keys
  {
    if keys != {} {
      var f :| f in keys;
      SumWithout(m, keys, f);
      SumOfZeros(m, keys - {f});
    }
  }

  lemma {:induction false} CreditsAddUp(worth: set<string> -> real, orders: seq<seq<string>>, values: Features, k: nat)
    requires AreOrders(orders, values) && k <= |orders|
    ensures Sum(Credits(worth, orders[..k]), values.Keys) == Times(k, worth(values.Keys) - worth({}))
  {
    if k == 0 {
      SumOfZeros(Credits(worth, orders[..k]), values.Keys);
    } else {
      CreditsAddUp(worth, orders, values, k - 1);
      var last := orders[k - 1];
      OrderTelescopes(worth, last, values);
      forall f ensures Credits(worth, orders[..k])(f) == Credits(worth, orders[..k - 1])(f) + Marginals(worth, last)(f) {
        CreditGrows(worth, orders, k - 1, f);
      }
      SumAdds(Credits(worth, orders[..k - 1]), Marginals(worth, last), Credits(worth, orders[..k]), values.Keys);
    }
  }

  lemma OrderTelescopes(worth: set<string> -> real, order: seq<string>, values: Features)
    requires IsOrder(order, values)
    ensures Sum(Marginals(worth, order), values.Keys) == worth(values.Keys) - worth({})
  {
    Telescopes(worth, order, |order|);
    assert order[..|order|] == order;
  }

  ghost function Given(given: Features): string -> real {
    f => if f in given then given[f] else 0.0
  }

  /** The attributions add up to the prediction less the baseline prediction, whatever the model and the orders. */
  lemma Efficiency(worth: set<string> -> real, orders: seq<seq<string>>, values: Features, given: Features)
    requires |orders| > 0 && AreOrders(orders, values) && Attributes(worth, orders, values, given)
    ensures Sum(Given(given), values.Keys) == worth(values.Keys) - worth({})
  {
    assert orders[..|orders|] == orders;
    CreditsAddUp(worth, orders, values, |orders|);
    SharesTotal(worth, orders, values, given);
    TimesInjective(|orders|, Sum(Given(given), values.Keys), worth(values.Keys) - worth({}));
  }

  lemma {:induction false} TimesAdds(n: nat, a: real, b: real)
    ensures Times(n, a + b) == Times(n, a) + Times(n, b)
  {
    if n > 0 {
      TimesAdds(n - 1, a, b);
    }
  }

  lemma {:induction false} SumTimes(n: nat, a: string -> real, b: string -> real, keys: set<string>)
    requires forall f :: f in keys ==> Times(n, a(f)) == b(f)
    ensures Times(n, Sum(a, keys)) == Sum(b, keys)
    decreases keys
  {
    if keys == {} {
      TimesIsProduct(n, 0.0);
    } else {
      var f :| f in keys;
      SumWithout(a, keys, f);
      SumWithout(b, keys, f);
      SumTimes(n, a, b, keys - {f});
      TimesAdds(n, a(f), Sum(a, keys - {f}));
    }
  }

  lemma SharesTotal(worth: set<string> -> real, orders: seq<seq<string>>, values: Features, given: Features)
    requires |orders| > 0 && Attributes(worth, orders, values, given)
    ensures Sum(Credits(worth, orders), values.Keys) == Times(|orders|, Sum(Given(given), values.Keys))
  {
    forall f | f in values ensures Times(|orders|, Given(given)(f)) == Credits(worth, orders)(f) {
      TimesAverage(|orders|, Credit(worth, orders, f));
    }
    SumTimes(|orders|, Given(given), Credits(worth, orders), values.Keys);
  }

  lemma TimesAverage(n: nat, total: real)
    requires n > 0
    ensures Times(n, Average(n, total)) == total
  {
    TimesIsProduct(n, Average(n, total));
  }

  lemma TimesInjective(n: nat, a: real, b: real)
    requires n > 0 && Times(n, a) == Times(n, b)
    ensures a == b
  {
    TimesIsProduct(n, a);
    TimesIsProduct(n, b);
    CancelFactor(n as real, a, b);
  }

  lemma AverageOfTimes(n: nat, x: real)
    requires n > 0
    ensures Average(n, Times(n, x)) == x
  {
    TimesAverage(n, Times(n, x));
    TimesInjective(n, Average(n, Times(n, x)), x);
  }

  lemma CancelFactor(n: real, a: real, b: real)
    requires n > 0.0 && n * a == n * b
    ensures a == b
  {
    assert n * (a - b) == 0.0;
  }

  // ----- models whose features act independently

  /** Switching a feature on changes the worth by its own amount, whatever else is on. */
  ghost predicate Additive(worth: set<string> -> real, keys: set<string>, own: Features) {
    && own.Keys == keys
    && forall f, present :: f in keys && present <= keys && f !in present ==> worth(present + {f}) - worth(present) == own[f]
  }

  lemma AdditiveMarginal(worth: set<string> -> real, order: seq<string>, values: Features, own: Features, f: string)
    requires IsOrder(order, values) && Additive(worth, values.Keys, own) && f in values
    ensures Marginal(worth, order, f) == own[f]
  {
    assert f in Elements(order);
    var i := IndexOf(order, f);
    ElementsGrow(order, i);
    assert Elements(order[..i]) <= Elements(order);
  }

  lemma {:induction false} AdditiveCredit(worth: set<string> -> real, orders: seq<seq<string>>, values: Features, own: Features, f: string, k: nat)
    requires AreOrders(orders, values) && Additive(worth, values.Keys, own) && f in values && k <= |orders|
    ensures Credit(worth, orders[..k], f) == Times(k, own[f])
  {
    if k > 0 {
      AdditiveCredit(worth, orders, values, own, f, k - 1);
      AdditiveMarginal(worth, orders[k - 1], values, own, f);
      CreditGrows(worth, orders, k - 1, f);
    }
  }

  /** Every sample gives each feature exactly its own amount. */
  lemma AdditiveIsExact(worth: set<string> -> real, orders: seq<seq<string>>, values: Features, own: Features, given: Features)
    requires |orders| > 0 && AreOrders(orders, values) && Additive(worth, values.Keys, own)
    requires Attributes(worth, orders, values, given)
    ensures given == own
  {
    assert orders[..|orders|] == orders;
    forall f | f in values ensures given[f] == own[f] {
      AdditiveCredit(worth, orders, values, own, f, |orders|);
      AverageOfTimes(|orders|, own[f]);
    }
  }

  // ----- the explainer

  /** What is remembered is what the model says. */
  ghost predicate Remembers(cache: map<set<string>, real>, worth: set<string> -> real) {
    forall present :: present in cache ==> cache[present] == worth(present)
  }

  /** The coalition's vector, feature by feature. */
  method BuildCoalition(values: Features, baseline: Features, present: set<string>) returns (out: Features)
    ensures out == Coalition(values, baseline, present)
  {
    out := map[];
    var left := values.Keys;
    while left != {}
      invariant left <= values.Keys && out.Keys <= values.Keys - left
      invariant forall f :: f in values && f !in left ==> (f in out <==> f in present || f in baseline)
      invariant forall f :: f in out ==> f in values && (f in present || f in baseline)
      invariant forall f :: f in out ==> out[f] == if f in present then values[f] else baseline[f]
      decreases |left|
    {
      var f :| f in left;
      left := left - {f};
      if f in present {
        out := out[f := values[f]];
      } else if f in baseline {
        out := out[f := baseline[f]];
      }
    }
  }

  /** Nothing absent leaves the vector itself; everything absent leaves the baselines there are. */
  lemma CoalitionEnds(values: Features, baseline: Features)
    ensures Coalition(values, baseline, values.Keys) == values
    ensures Coalition(values, baseline, {}) == map f | f in values && f in baseline :: baseline[f]
    ensures values.Keys == baseline.Keys ==> Coalition(values, baseline, {}) == baseline
  {
  }

  method Predict(model: Features -> real, values: Features, baseline: Features, present: set<string>,
                 cache: map<set<string>, real>) returns (value: real, extended: map<set<string>, real>)
    requires Remembers(cache, WorthOf(model, values, baseline))
    ensures value == model(Coalition(values, baseline, present))
    ensures Remembers(extended, WorthOf(model, values, baseline))
    ensures extended.Keys == cache.Keys + {present}
  {
    if present in cache {
      return cache[present], cache;
    }
    var seen := BuildCoalition(values, baseline, present);
    value := model(seen);
    extended := cache[present := value];
  }

  /** `orders` are the shuffles drawn, one per sample. */
  method Explain(model: Features -> real, values: Features, baseline: Features, orders: seq<seq<string>>) returns (given: Features)
    requires |orders| > 0 && AreOrders(orders, values)
    ensures Attributes(WorthOf(model, values, baseline), orders, values, given)
    ensures Sum(Given(given), values.Keys) == model(values) - model(map f | f in values && f in baseline :: baseline[f])
  {
    ghost var worth := WorthOf(model, values, baseline);
    var cache: map<set<string>, real> := map[];
    var contributions := map f | f in values :: 0.0;
    for k := 0 to |orders|
      invariant Remembers(cache, worth) && contributions.Keys == values.Keys
      invariant forall f :: f in values ==> contributions[f] == Credit(worth, orders[..k], f)
    {
      contributions, cache := Walk(model, values, baseline, orders[k], contributions, cache);
      forall f ensures Credit(worth, orders[..k + 1], f) == Credit(worth, orders[..k], f) + Marginal(worth, orders[k], f) {
        CreditGrows(worth, orders, k, f);
      }
    }
    assert orders[..|orders|] == orders;
    given := map f | f in values :: Average(|orders|, contributions[f]);
    Efficiency(worth, orders, values, given);
    CoalitionEnds(values, baseline);
  }

  lemma StepMarginal(worth: set<string> -> real, order: seq<string>, i: nat)
    requires i < |order| && Distinct(order)
    ensures order[i] in Elements(order) && order[i] !in order[..i]
    ensures Elements(order[..i + 1]) == Elements(order[..i]) + {order[i]} && order[..i + 1] == order[..i] + [order[i]]
    ensures Marginal(worth, order, order[i]) == worth(Elements(order[..i]) + {order[i]}) - worth(Elements(order[..i]))
  {
    ElementsGrow(order, i);
  }

  /** The features before position `i` have been credited. */
  ghost predicate CreditedUpTo(worth: set<string> -> real, order: seq<string>, i: nat, before: Features, after: Features)
    requires i <= |order|
  {
    && after.Keys == before.Keys
    && forall f :: f in before ==> after[f] == before[f] + if f in order[..i] then Marginal(worth, order, f) else 0.0
  }

  lemma CreditedStep(worth: set<string> -> real, order: seq<string>, i: nat, before: Features, after: Features)
    requires i < |order| && Distinct(order) && order[i] in before && CreditedUpTo(worth, order, i, before, after)
    ensures CreditedUpTo(worth, order, i + 1, before, after[order[i] := after[order[i]] + Marginal(worth, order, order[i])])
  {
    StepMarginal(worth, order, i);
  }

  lemma CreditedAll(worth: set<string> -> real, order: seq<string>, values: Features, before: Features, after: Features)
    requires IsOrder(order, values) && before.Keys == values.Keys && CreditedUpTo(worth, order, |order|, before, after)
    ensures forall f :: f in values ==> after[f] == before[f] + Marginal(worth, order, f)
  {
    assert order[..|order|] == order;
    assert forall f :: f in values ==> f in Elements(order);
  }

  /** One sample: the features of one order switched on in turn. */
  method Walk(model: Features -> real, values: Features, baseline: Features, order: seq<string>, contributions: Features,
              cache: map<set<string>, real>) returns (credited: Features, extended: map<set<string>, real>)
    requires IsOrder(order, values) && contributions.Keys == values.Keys
    requires Remembers(cache, WorthOf(model, values, baseline))
    ensures Remembers(extended, WorthOf(model, values, baseline)) && credited.Keys == values.Keys
    ensures forall f :: f in values ==>
      credited[f] == contributions[f] + Marginal(WorthOf(model, values, baseline), order, f)
  {
    ghost var worth := WorthOf(model, values, baseline);
    credited, extended := contributions, cache;
    var present: set<string> := {};
    var prev, cur: real;
    prev, extended := Predict(model, values, baseline, present, extended);
    for i := 0 to |order|
      invariant Walking(worth, order, i, present, prev, contributions, credited) && Remembers(extended, worth)
    {
      var f := order[i];
      WalkStep(worth, order, i, present, prev, contributions, credited, values);
      present := present + {f};
      cur, extended := Predict(model, values, baseline, present, extended);
      credited := credited[f := credited[f] + (cur - prev)];
      prev := cur;
    }
    CreditedAll(worth, order, values, contributions, credited);
  }

  /** Half-way through an order: the first `i` features are on and credited. */
  ghost predicate Walking(worth: set<string> -> real, order: seq<string>, i: nat, present: set<string>, prev: real,
                          before: Features, after: Features)
    requires i <= |order|
  {
    present == Elements(order[..i]) && prev == worth(present) && CreditedUpTo(worth, order, i, before, after)
  }

  lemma WalkStep(worth: set<string> -> real, order: seq<string>, i: nat, present: set<string>, prev: real, before: Features,
                 after: Features, values: Features)
    requires i < |order| && IsOrder(order, values) && before.Keys == values.Keys
    requires Walking(worth, order, i, present, prev, before, after)
    ensures var f, cur := order[i], worth(present + {order[i]});
            f in after && Walking(worth, order, i + 1, present + {f}, cur, before, after[f := after[f] + (cur - prev)])
  {
    StepMarginal(worth, order, i);
    CreditedStep(worth, order, i, before, after);
  }

  // ----- the linear model

  datatype Linear = Linear(bias: real, weights: Features)

  ghost function Term(weights: Features, values: Features): string -> real {
    f => if f in weights && f in values then weights[f] * values[f] else 0.0
  }

  /** The score: zero, marked degraded, when a weighed feature is missing. */
  ghost function Score(m: Linear, values: Features): real {
    if m.weights.Keys <= values.Keys then m.bias + Sum(Term(m.weights, values), m.weights.Keys) else 0.0
  }

  method Predicted(m: Linear, values: Features) returns (value: real, degraded: bool)
    ensures value == Score(m, values) && (degraded <==> exists f :: f in m.weights && f !in values)
  {
    if exists f :: f in m.weights && f !in values {
      return 0.0, true;
    }
    value, degraded := m.bias, false;
    var pending := m.weights.Keys;
    while pending != {}
      invariant pending <= m.weights.Keys
      invariant value + Sum(Term(m.weights, values), pending) == Score(m, values)
      decreases |pending|
    {
      var f :| f in pending;
      SumWithout(Term(m.weights, values), pending, f);
      value := value + m.weights[f] * values[f];
      pending := pending - {f};
    }
  }

  /** The baseline a linear model is explained against: zero for every weighed feature. */
  function ZeroBaseline(m: Linear): Features {
    map f | f in m.weights :: 0.0
  }

  /** What a feature is worth to the model on its own. */
  function Own(m: Linear, values: Features): Features {
    map f | f in values :: if f in m.weights then m.weights[f] * values[f] else 0.0
  }

  ghost function LinearWorth(m: Linear, values: Features, baseline: Features): set<string> -> real {
    p => Score(m, Coalition(values, baseline, p))
  }

  /** Own amounts of the features that are present. */
  ghost function Present(own: Features, present: set<string>): string -> real {
    f => if f in own && f in present then own[f] else 0.0
  }

  lemma PresentStep(own: Features, keys: set<string>, present: set<string>, f: string)
    requires f in own && f !in present && keys <= own.Keys
    ensures Sum(Present(own, present + {f}), keys) - Sum(Present(own, present), keys) == if f in keys then own[f] else 0.0
  {
    var a, b := Present(own, present + {f}), Present(own, present);
    if f in keys {
      SumWithout(a, keys, f);
      SumWithout(b, keys, f);
      SumSame(a, b, keys - {f});
    } else {
      SumSame(a, b, keys);
    }
  }

  lemma CoalitionTerm(m: Linear, values: Features, present: set<string>, f: string)
    requires f in m.weights && f in values
    ensures Term(m.weights, Coalition(values, ZeroBaseline(m), present))(f) == Present(Own(m, values), present)(f)
  {
    if f in present {
      assert Coalition(values, ZeroBaseline(m), present)[f] == values[f];
    } else {
      assert Coalition(values, ZeroBaseline(m), present)[f] == 0.0;
    }
  }

  /** Zeroed features leave the vector complete, and the score is the bias and what is present. */
  lemma LinearCoalition(m: Linear, values: Features, present: set<string>)
    requires m.weights.Keys <= values.Keys
    ensures LinearWorth(m, values, ZeroBaseline(m))(present) == m.bias + Sum(Present(Own(m, values), present), m.weights.Keys)
  {
    var seen := Coalition(values, ZeroBaseline(m), present);
    assert m.weights.Keys <= seen.Keys;
    var a, b := Term(m.weights, seen), Present(Own(m, values), present);
    forall f | f in m.weights.Keys ensures a(f) == b(f) {
      CoalitionTerm(m, values, present, f);
    }
    SumSame(a, b, m.weights.Keys);
  }

  lemma LinearIsAdditive(m: Linear, values: Features)
    requires m.weights.Keys <= values.Keys
    ensures Additive(LinearWorth(m, values, ZeroBaseline(m)), values.Keys, Own(m, values))
  {
    var worth, own := LinearWorth(m, values, ZeroBaseline(m)), Own(m, values);
    forall f, present | f in values.Keys && present <= values.Keys && f !in present
      ensures worth(present + {f}) - worth(present) == own[f]
    {
      LinearCoalition(m, values, present);
      LinearCoalition(m, values, present + {f});
      PresentStep(own, m.weights.Keys, present, f);
      assert f in m.weights.Keys || own[f] == 0.0;
    }
  }

  /**
   On a complete vector the linear model's attributions against the zero baseline are exactly
   weight times value, whatever orders were drawn, and zero for features it does not weigh.
   */
  lemma LinearIsExact(m: Linear, values: Features, orders: seq<seq<string>>, given: Features)
    requires m.weights.Keys <= values.Keys && |orders| > 0 && AreOrders(orders, values)
    requires Attributes(LinearWorth(m, values, ZeroBaseline(m)), orders, values, given)
    ensures given.Keys == values.Keys
    ensures forall f :: f in values ==> given[f] == if f in m.weights then m.weights[f] * values[f] else 0.0
  {
    LinearIsAdditive(m, values);
    AdditiveIsExact(LinearWorth(m, values, ZeroBaseline(m)), orders, values, Own(m, values), given);
  }

  /** The explanation of a linear model: for a complete vector, weight times value. */
  method ExplainLinear(m: Linear, model: Features -> real, values: Features, orders: seq<seq<string>>) returns (given: Features)
    requires (forall v :: model(v) == Score(m, v)) && m.weights.Keys <= values.Keys && |orders| > 0 && AreOrders(orders, values)
    ensures given.Keys == values.Keys
    ensures forall f :: f in values ==> given[f] == if f in m.weights then m.weights[f] * values[f] else 0.0
    ensures Sum(Given(given), values.Keys) == Score(m, values) - m.bias
  {
    given := Explain(model, values, ZeroBaseline(m), orders);
    SameCredits(WorthOf(model, values, ZeroBaseline(m)), LinearWorth(m, values, ZeroBaseline(m)), orders, values, given);
    LinearIsExact(m, values, orders, given);
    Efficiency(LinearWorth(m, values, ZeroBaseline(m)), orders, values, given);
    FullAndEmpty(m, values);
  }

  /** Attributions depend only on what each coalition is worth. */
  lemma SameCredits(worth: set<string> -> real, other: set<string> -> real, orders: seq<seq<string>>, values: Features, given: Features)
    requires |orders| > 0 && Attributes(worth, orders, values, given) && forall p :: worth(p) == other(p)
    ensures Attributes(other, orders, values, given)
  {
    forall f ensures Credit(worth, orders, f) == Credit(other, orders, f) {
      SameCredit(worth, other, orders, f);
    }
  }

  lemma {:induction false} SameCredit(worth: set<string> -> real, other: set<string> -> real, orders: seq<seq<string>>, f: string)
    requires forall p :: worth(p) == other(p)
    ensures Credit(worth, orders, f) == Credit(other, orders, f)
  {
    if |orders| > 0 {
      SameCredit(worth, other, orders[..|orders| - 1], f);
      var last := orders[|orders| - 1];
      assert Marginal(worth, last, f) == Marginal(other, last, f);
    }
  }

  /** With everything present the zero baseline scores the vector itself, with nothing present the bias. */
  lemma FullAndEmpty(m: Linear, values: Features)
    requires m.weights.Keys <= values.Keys
    ensures LinearWorth(m, values, ZeroBaseline(m))(values.Keys) == Score(m, values)
    ensures LinearWorth(m, values, ZeroBaseline(m))({}) == m.bias
  {
    assert Coalition(values, ZeroBaseline(m), values.Keys) == values;
    LinearCoalition(m, values, {});
    SumOfZeros(Present(Own(m, values), {}), m.weights.Keys);
  }

  /** The features before position `i` include every weighed one. */
  ghost predicate Complete(m: Linear, order: seq<string>, i: nat)
    requires i <= |order|
  {
    m.weights.Keys <= Elements(order[..i])
  }

  /** No weighed feature comes at position `i` or later. */
  ghost predicate NoneFrom(m: Linear, order: seq<string>, i: nat) {
    forall j :: i <= j < |order| ==> order[j] !in m.weights
  }

  lemma CompleteIff(m: Linear, values: Features, order: seq<string>, i: nat)
    requires m.weights.Keys <= values.Keys && IsOrder(order, values) && i <= |order|
    ensures Complete(m, order, i) <==> NoneFrom(m, order, i)
  {
    if NoneFrom(m, order, i) {
      forall g | g in m.weights ensures g in Elements(order[..i]) {
        assert g in Elements(order);
        var j :| 0 <= j < |order| && order[j] == g;
        assert order[..i][j] == g;
      }
    }
    if Complete(m, order, i) {
      forall j | i <= j < |order| ensures order[j] !in m.weights {
        ElementsGrow(order, j);
        assert order[j] !in order[..j];
        assert forall g :: g in order[..i] ==> g in order[..j];
      }
    }
  }

  /**
   Dropping features instead of zeroing them makes every coalition without all the weighed
   features degraded: the whole score goes to the last weighed feature of the order, and every
   other feature gets nothing.
   */
  lemma DroppingCreditsTheLast(m: Linear, values: Features, order: seq<string>, i: nat)
    requires m.weights.Keys <= values.Keys && IsOrder(order, values) && i < |order|
    ensures Marginal(LinearWorth(m, values, map[]), order, order[i])
         == if order[i] in m.weights && NoneFrom(m, order, i + 1) then Score(m, values) else 0.0
  {
    var worth := LinearWorth(m, values, map[]);
    var before, after := worth(Elements(order[..i])), worth(Elements(order[..i + 1]));
    assert Marginal(worth, order, order[i]) == after - before by {
      ElementsGrow(order, i);
    }
    assert before == if NoneFrom(m, order, i) then Score(m, values) else 0.0 by {
      DroppedWorth(m, values, order, i);
      CompleteIff(m, values, order, i);
    }
    assert after == if NoneFrom(m, order, i + 1) then Score(m, values) else 0.0 by {
      DroppedWorth(m, values, order, i + 1);
      CompleteIff(m, values, order, i + 1);
    }
    assert NoneFrom(m, order, i) <==> order[i] !in m.weights && NoneFrom(m, order, i + 1);
  }

  /** Without a baseline a prefix is worth the full score once it holds every weighed feature, and nothing before. */
  lemma DroppedWorth(m: Linear, values: Features, order: seq<string>, i: nat)
    requires m.weights.Keys <= values.Keys && i <= |order|
    ensures LinearWorth(m, values, map[])(Elements(order[..i])) == if Complete(m, order, i) then Score(m, values) else 0.0
  {
    var seen := Coalition(values, map[], Elements(order[..i]));
    assert m.weights.Keys <= seen.Keys <==> Complete(m, order, i);
    if Complete(m, order, i) {
      SumSame(Term(m.weights, seen), Term(m.weights, values), m.weights.Keys);
    }
  }
}
