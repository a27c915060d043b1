/**
 The allocator's inputs, answers and error values.

 `Exact` stands for the decoded text of a bounded exact number: either unavailable
 (empty, malformed or out of bounds) or a rational. Decoding and printing are exact,
 so a number stands for itself; printing may refuse a value it cannot bound.
 */
module Inputs {

  datatype Exact = Unavailable | Number(value: real)

  datatype Error = NoError | Cancelled | InvalidInput | LimitExceeded | InvalidCertificate

  datatype Asset = Asset(id: string, currency: string, available: Exact, cost: Exact)

  datatype Eligibility = Eligibility(eligible: bool, haircut: Exact)

  datatype Requirement = Requirement(agreementId: string, currency: string, amount: Exact,
                                     schedule: map<string, Eligibility>)

  datatype LimitTerm = LimitTerm(assetId: string, agreementId: string, weight: Exact)

  datatype AllocationLimit = AllocationLimit(id: string, maximum: Exact, terms: seq<LimitTerm>)

  datatype Allocation = Allocation(agreementId: string, assetId: string, used: Exact, posted: Exact, cost: Exact)

  datatype Certificate = Certificate(capacity: map<string, Exact>, coverage: map<string, Exact>,
                                     limits: map<string, Exact>)

  datatype AllocationResult = AllocationResult(currency: string, feasible: bool, allocations: seq<Allocation>,
                                               cost: Exact, certificate: Certificate)

  const MAX_ASSETS := 32
  const MAX_AGREEMENTS := 32
  const MAX_EDGES := 512
  const MAX_LIMITS := 64

  /** An amount the allocator accepts: available and not negative. */
  predicate Amount(e: Exact) {
    e.Number? && e.value >= 0.0
  }

  /** The number itself; zero where there is none. */
  function Value(e: Exact): real {
    if e.Number? then e.value else 0.0
  }

  // ----- identifiers

  function EncodedLength(s: string): nat {
    if s == "" then 0 else
    var c := s[0] as int;
    (if c < 0x80 then 1 else if c < 0x800 then 2 else if c < 0x1_0000 then 3 else 4) + EncodedLength(s[1..])
  }

  predicate IsSpace(c: char) {
    var u := c as int;
    || 0x09 <= u <= 0x0D || u == 0x20 || u == 0x85 || u == 0xA0 || u == 0x1680
    || 0x2000 <= u <= 0x200A || u == 0x2028 || u == 0x2029 || u == 0x202F || u == 0x205F || u == 0x3000
  }

  /** Nonempty, without surrounding space, at most 256 encoded bytes. */
  predicate ValidId(s: string) {
    s != "" && !IsSpace(s[0]) && !IsSpace(s[|s| - 1]) && EncodedLength(s) <= 256
  }

  predicate ValidCurrency(c: string) {
    |c| == 3 && forall i :: 0 <= i < 3 ==> 'A' <= c[i] <= 'Z'
  }

  // ----- the order of identifiers

  /** Code point order, which is also the order of the encoded bytes. */
  predicate Less(a: string, b: string) {
    b != "" && (a == "" || a[0] < b[0] || (a[0] == b[0] && Less(a[1..], b[1..])))
  }

  lemma {:induction false} LessTrichotomy(a: string, b: string)
    ensures Less(a, b) || Less(b, a) || a == b
    ensures !(Less(a, b) && Less(b, a))
    ensures !Less(a, a)
  {
    if a != "" && b != "" {
      LessTrichotomy(a[1..], b[1..]);
      assert a == [a[0]] + a[1..] && b == [b[0]] + b[1..];
    }
    if a != "" {
      LessTrichotomy(a[1..], a[1..]);
    }
  }

  /** The order is lexicographic: where the two first differ the earlier one is smaller, or it ends there. */
  ghost predicate FirstDifference(a: string, b: string, k: nat) {
    k <= |a| && k < |b| && a[..k] == b[..k] && (k == |a| || a[k] < b[k])
  }

  lemma {:induction false} LessIsLexicographic(a: string, b: string)
    ensures Less(a, b) <==> exists k: nat :: FirstDifference(a, b, k)
  {
    if a != "" && b != "" && a[0] == b[0] {
      LessIsLexicographic(a[1..], b[1..]);
      if k: nat :| FirstDifference(a[1..], b[1..], k) {
        assert a[..k + 1] == [a[0]] + a[1..][..k] && b[..k + 1] == [b[0]] + b[1..][..k];
        assert FirstDifference(a, b, k + 1);
      }
      if k: nat :| FirstDifference(a, b, k) {
        assert k > 0;
        assert a[1..][..k - 1] == a[..k][1..] && b[1..][..k - 1] == b[..k][1..];
        assert FirstDifference(a[1..], b[1..], k - 1);
      }
    } else if b != "" && (a == "" || a[0] < b[0]) {
      assert FirstDifference(a, b, 0);
    } else {
      forall k: nat
        ensures !FirstDifference(a, b, k)
      {
        assert 0 < k <= |a| && k <= |b| ==> a[..k][0] == a[0] && b[..k][0] == b[0];
      }
    }
  }

  lemma {:induction false} LessTransitive(a: string, b: string, c: string)
    requires Less(a, b) && Less(b, c)
    ensures Less(a, c)
  {
    if a != "" && a[0] == b[0] == c[0] {
      LessTransitive(a[1..], b[1..], c[1..]);
    }
  }

  // ----- sorting by identifier

  /** In identifier order, later items never before earlier ones. */
  ghost predicate Sorted<T(!new)>(xs: seq<T>, key: T -> string) {
    forall i, j :: 0 <= i < j < |xs| ==> !Less(key(xs[j]), key(xs[i]))
  }

  ghost predicate DistinctKeys<T(!new), K(!new)>(xs: seq<T>, key: T -> K) {
    forall i, j :: 0 <= i < j < |xs| ==> key(xs[i]) != key(xs[j])
  }

  lemma NotLessTransitive(a: string, b: string, c: string)
    requires !Less(b, a) && !Less(c, b)
    ensures !Less(c, a)
  {
    LessTrichotomy(a, b);
    LessTrichotomy(b, c);
    if Less(a, b) && Less(b, c) {
      LessTransitive(a, b, c);
    }
    LessTrichotomy(c, a);
  }

  /** Inserting `x` where everything before is not after it and everything behind is after it keeps the order. */
  lemma InsertKeepsOrder<T(!new)>(xs: seq<T>, key: T -> string, x: T, p: nat)
    requires Sorted(xs, key) && p <= |xs|
    requires p > 0 ==> !Less(key(x), key(xs[p - 1]))
    requires forall i :: p <= i < |xs| ==> Less(key(x), key(xs[i]))
    ensures Sorted(xs[..p] + [x] + xs[p..], key)
  {
    var ys := xs[..p] + [x] + xs[p..];
    forall i, j | 0 <= i < j < |ys|
      ensures !Less(key(ys[j]), key(ys[i]))
    {
      if j < p {
        assert ys[i] == xs[i] && ys[j] == xs[j];
      } else if j == p {
        assert ys[i] == xs[i] && ys[j] == x;
        if i < p - 1 {
          NotLessTransitive(key(xs[i]), key(xs[p - 1]), key(x));
        }
      } else {
        assert ys[j] == xs[j - 1];
        if i == p {
          LessTrichotomy(key(x), key(xs[j - 1]));
        } else {
          assert ys[i] == xs[if i < p then i else i - 1];
        }
      }
    }
  }

  method InsertSorted<T(!new)>(xs: seq<T>, key: T -> string, x: T) returns (ys: seq<T>)
    requires Sorted(xs, key)
    ensures Sorted(ys, key) && multiset(ys) == multiset(xs) + multiset{x}
  {
    var p := |xs|;
    while p > 0 && Less(key(x), key(xs[p - 1]))
      invariant 0 <= p <= |xs|
      invariant forall i :: p <= i < |xs| ==> Less(key(x), key(xs[i]))
    {
      p := p - 1;
    }
    ys := xs[..p] + [x] + xs[p..];
    InsertKeepsOrder(xs, key, x, p);
    assert multiset(xs) == multiset(xs[..p]) + multiset(xs[p..]) by {
      assert xs == xs[..p] + xs[p..];
    }
  }

  method SortById<T(!new)>(xs: seq<T>, key: T -> string) returns (ys: seq<T>)
    ensures Sorted(ys, key) && multiset(ys) == multiset(xs)
  {
    ys := [];
    for i := 0 to |xs|
      invariant Sorted(ys, key) && multiset(ys) == multiset(xs[..i])
    {
      assert xs[..i + 1] == xs[..i] + [xs[i]];
      ys := InsertSorted(ys, key, xs[i]);
    }
    assert xs[..|xs|] == xs;
  }
}
