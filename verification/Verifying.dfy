/**
 `VerifyConstrainedAllocation`: rebuild the model from the original inputs, then accept
 exactly the results whose certificate closes.
 */
module Verifying {
  import opened Vectors
  import opened Inputs
  import opened Programs
  import opened Models
  import opened Building
  import opened Certificates

  /** The stated multipliers, none of them positive on a bound. */
  ghost predicate SignedCertificate(m: Model, c: Certificate) {
    && |c.limits| == |m.limits| && |c.capacity| == |m.assets| && |c.coverage| == |m.requirements|
    && Readable(c.limits, Ids(m.limits, LimitKey), true)
    && Readable(c.capacity, Ids(m.assets, AssetKey), true)
    && Readable(c.coverage, Ids(m.requirements, AgreementKey), false)
  }

  method ReadCertificate(m: Model, c: Certificate)
    returns (ok: bool, capacity: Vec, limitDual: Vec, coverage: Vec, dualValue: real)
    requires ValidModel(m)
    ensures ok <==> SignedCertificate(m, c)
    ensures ok ==> && |capacity| == |m.assets| && |limitDual| == |m.limits| && |coverage| == |m.requirements|
                   && capacity == Stated(c.capacity, Ids(m.assets, AssetKey))
                   && limitDual == Stated(c.limits, Ids(m.limits, LimitKey))
                   && coverage == Stated(c.coverage, Ids(m.requirements, AgreementKey))
    ensures ok ==> dualValue == Dot(Multipliers(m, c), ProgramOf(m).rhs)
  {
    ok, capacity, limitDual, coverage, dualValue := false, [], [], [], 0.0;
    if |c.limits| != |m.limits| || |c.capacity| != |m.assets| || |c.coverage| != |m.requirements| {
      return;
    }
    var fromLimits, fromCapacity, fromCoverage;
    ok, limitDual, fromLimits := ReadMultipliers(c.limits, Ids(m.limits, LimitKey), m.limitValues, true);
    if !ok {
      return;
    }
    ok, capacity, fromCapacity := ReadMultipliers(c.capacity, Ids(m.assets, AssetKey), m.available, true);
    if !ok {
      return;
    }
    ok, coverage, fromCoverage := ReadMultipliers(c.coverage, Ids(m.requirements, AgreementKey), m.need, false);
    if !ok {
      return;
    }
    dualValue := fromLimits + fromCapacity + fromCoverage;
    DualValueSplit(m, capacity, limitDual, coverage);
  }

  /** The primal half: postings consistent, within bounds, and costing what both sides state. */
  ghost predicate PrimalCloses(m: Model, result: AllocationResult, dualValue: real)
    requires ValidModel(m) && result.cost.Number?
  {
    && ConsistentAllocations(m, result.allocations)
    && Feasible(ProgramOf(m), Posting(m, result.allocations))
    && Dot(ProgramOf(m).cost, Posting(m, result.allocations)) == result.cost.value == dualValue
  }

  method CheckPrimal(m: Model, result: AllocationResult, dualValue: real) returns (ok: bool)
    requires ValidModel(m) && result.cost.Number?
    ensures ok <==> PrimalCloses(m, result, dualValue)
  {
    var used, posted, limitUsed, total;
    ok, used, posted, limitUsed, total := AddUp(m, result.allocations);
    if !ok {
      return;
    }
    PostingNonnegative(m, result.allocations);
    BoundsDecideFeasible(m, Posting(m, result.allocations), used, posted, limitUsed, total);
    ok := WithinBounds(m, used, posted, limitUsed) && total == result.cost.value && total == dualValue;
  }

  lemma DualFeasibleFromParts(m: Model, result: AllocationResult)
    requires ValidModel(m) && CompleteCertificate(m, result.certificate)
    ensures DualFeasible(ProgramOf(m), Multipliers(m, result.certificate), PricedAgainst(m, result.feasible)) <==>
              && SignedCertificate(m, result.certificate)
              && (forall j :: 0 <= j < |m.edges| ==>
                    PricedBelow(m, Multipliers(m, result.certificate), result.feasible, j))
  {
    var c := result.certificate;
    DualFeasibleByParts(m, result.feasible, Stated(c.capacity, Ids(m.assets, AssetKey)),
                        Stated(c.limits, Ids(m.limits, LimitKey)),
                        Stated(c.coverage, Ids(m.requirements, AgreementKey)));
  }

  /** Acceptance in the order the verifier checks it. */
  lemma AcceptsByParts(m: Model, result: AllocationResult)
    requires ValidModel(m)
    ensures Accepts(m, result) <==>
              && result.currency == m.currency && |result.allocations| <= |m.edges|
              && SignedCertificate(m, result.certificate)
              && (forall j :: 0 <= j < |m.edges| ==>
                    PricedBelow(m, Multipliers(m, result.certificate), result.feasible, j))
              && Amount(result.cost)
              && var dualValue := Dot(Multipliers(m, result.certificate), ProgramOf(m).rhs);
                 if result.feasible then PrimalCloses(m, result, dualValue)
                 else result.allocations == [] && result.cost.value == 0.0 && dualValue > 0.0
  {
    if CompleteCertificate(m, result.certificate) {
      DualFeasibleFromParts(m, result);
    }
  }

  method VerifyModel(m: Model, result: AllocationResult) returns (ok: bool)
    requires ValidModel(m)
    ensures ok <==> Accepts(m, result)
  {
    AcceptsByParts(m, result);
    if result.currency != m.currency || |result.allocations| > |m.edges| {
      return false;
    }
    var capacity, limitDual, coverage, dualValue;
    ok, capacity, limitDual, coverage, dualValue := ReadCertificate(m, result.certificate);
    if !ok {
      return;
    }
    ok := PriceEdges(m, result.feasible, capacity, limitDual, coverage);
    if !ok || !Amount(result.cost) {
      return false;
    }
    if !result.feasible {
      return |result.allocations| == 0 && result.cost.value == 0.0 && dualValue > 0.0;
    }
    ok := CheckPrimal(m, result, dualValue);
  }

  /** `m` is the canonical model of the inputs. */
  ghost predicate IsModelOf(m: Model, assets: seq<Asset>, requirements: seq<Requirement>, limits: seq<AllocationLimit>) {
    && SortedCopy(m.assets, assets, AssetKey) && SortedCopy(m.requirements, requirements, AgreementKey)
    && SortedCopy(m.limits, limits, LimitKey)
    && m == ModelOf(m.assets, m.requirements, m.limits)
    && ValidModel(m)
  }

  /** Builds the model with its limits; the admissible inputs are exactly those it accepts. */
  method Prepare(assets: seq<Asset>, requirements: seq<Requirement>, limits: seq<AllocationLimit>)
    returns (m: AllocationModel, err: Error)
    ensures fresh(m)
    ensures err.NoError? <==> Admissible(assets, requirements, limits)
    ensures err.NoError? || err.InvalidInput? || err.LimitExceeded?
    ensures err.NoError? ==> IsModelOf(m.View(), assets, requirements, limits)
  {
    m, err := BuildAllocationModel(assets, requirements);
    if !err.NoError? {
      return;
    }
    PermutedSets(assets, requirements, m.assets, m.requirements);
    err := m.AddLimits(limits);
  }
}
