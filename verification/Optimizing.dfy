/**
 The allocator: build, two-phase simplex, certificate, independent verification.
 Work limits, printing limits and cancellation may refuse; no refusal is ever
 reported as an answer, and no answer is ever reported without a valid certificate.
 */
module Optimizing {
  import opened Vectors
  import opened Inputs
  import opened Tableaus
  import opened Bland
  import opened Minimization
  import opened Programs
  import opened Models
  import opened TwoPhase
  import opened Certificates
  import opened Verifying
  import opened Promises
  import opened Answers
  import opened Budgets
  import opened Simplex

  /** What stays in bounds: entries during a pivot, and numbers as text. */
  datatype Bounds = Bounds(fits: Fits, printable: real -> bool)

  /** Exact printing: the number itself, or a refusal when its text would be out of bounds. */
  method ExactFromRat(r: real, printable: real -> bool) returns (e: Exact)
    ensures e == if printable(r) then Number(r) else Unavailable
  {
    e := if printable(r) then Number(r) else Unavailable;
  }

  method PhaseOneCosts(width: nat, from: nat) returns (costs: Vec)
    requires from <= width
    ensures |costs| == width && forall j :: 0 <= j < width ==> costs[j] == if j < from then 0.0 else 1.0
  {
    costs := Zeros(width);
    for j := from to width
      invariant |costs| == width
      invariant forall k :: 0 <= k < width ==> costs[k] == if from <= k < j then 1.0 else 0.0
    {
      costs := costs[j := 1.0];
    }
  }

  method PhaseTwoCosts(edges: seq<Edge>, width: nat) returns (costs: Vec)
    requires |edges| <= width
    ensures costs == EdgeCosts(edges) + Zeros(width - |edges|)
  {
    costs := Zeros(width);
    for j := 0 to |edges|
      invariant |costs| == width
      invariant forall k :: 0 <= k < width ==> costs[k] == if k < j then edges[k].cost else 0.0
    {
      costs := costs[j := edges[j].cost];
    }
  }

  /** Prints a table of multipliers; refuses as soon as one cannot be printed. */
  method PrintTable(ids: seq<string>, values: Vec, printable: real -> bool) returns (ok: bool, table: map<string, Exact>)
    requires |ids| == |values|
    ensures ok <==> RowFits(printable, values)
    ensures ok ==> table == TableTo(ids, values, |ids|)
  {
    table := map[];
    for i := 0 to |ids|
      invariant table == TableTo(ids, values, i) && forall k :: 0 <= k < i ==> printable(values[k])
    {
      var exact := ExactFromRat(values[i], printable);
      if exact.Unavailable? {
        return false, table;
      }
      table := table[ids[i] := exact];
    }
    ok := true;
  }

  lemma SplitFits(printable: real -> bool, v: Vec, a: nat, s: nat)
    requires a <= s <= |v|
    ensures RowFits(printable, v) <==>
              RowFits(printable, v[..a]) && RowFits(printable, v[a..s]) && RowFits(printable, v[s..])
  {
    if RowFits(printable, v[..a]) && RowFits(printable, v[a..s]) && RowFits(printable, v[s..]) {
      forall j | 0 <= j < |v|
        ensures printable(v[j])
      {
        assert v[j] == if j < a then v[..a][j] else if j < s then v[a..s][j - a] else v[s..][j - s];
      }
    }
  }

  method PrintCertificate(m: Model, dual: Vec, printable: real -> bool) returns (ok: bool, c: Certificate)
    requires |dual| == Slacks(m) + |m.requirements|
    ensures ok <==> RowFits(printable, dual)
    ensures ok ==> c == CertificateOf(m, dual)
  {
    var a, s := |m.assets|, |m.assets| + |m.limits|;
    var capacity, limits, coverage;
    c := Certificate(map[], map[], map[]);
    SplitFits(printable, dual, a, s);
    ok, capacity := PrintTable(Ids(m.assets, AssetKey), dual[..a], printable);
    if !ok {
      return;
    }
    ok, limits := PrintTable(Ids(m.limits, LimitKey), dual[a..s], printable);
    if !ok {
      return;
    }
    ok, coverage := PrintTable(Ids(m.requirements, AgreementKey), dual[s..], printable);
    c := Certificate(capacity, coverage, limits);
  }

  /** An edge that is used prints its three numbers. */
  ghost predicate EdgePrints(m: Model, values: Vec, j: nat, printable: real -> bool)
    requires j < |m.edges| == |values|
  {
    values[j] == 0.0 || ThreePrint(values[j], m.edges[j], printable)
  }

  predicate ThreePrint(value: real, e: Edge, printable: real -> bool) {
    printable(value) && printable(PostedOn(value, e)) && printable(CostOn(value, e))
  }

  function PostedOn(value: real, e: Edge): real {
    value * e.coverage
  }

  function CostOn(value: real, e: Edge): real {
    value * e.cost
  }

  /** Everything the answer has to print can be printed. */
  ghost predicate AnswerPrints(m: Model, feasible: bool, dual: Vec, values: Vec, objective: real, printable: real -> bool)
    requires |values| == |m.edges|
  {
    && RowFits(printable, dual)
    && (feasible ==> printable(objective) && forall j :: 0 <= j < |values| ==> EdgePrints(m, values, j, printable))
  }

  /** The solution stays within the work limits and its answer can be printed. */
  ghost predicate WithinLimits(m: Model, bounds: Bounds)
    requires ValidModel(m)
  {
    var p := ProgramOf(m);
    && Affordable(p, bounds.fits)
    && if PhaseOneZero(p) then
         var t, c := PhaseTwo(p), PhaseTwoCost(p);
         AnswerPrints(m, true, Duals(p, t, c), Solution(t, |m.edges|), Objective(t, c), bounds.printable)
       else
         var t, c := PhaseOne(p), PhaseOneCost(p);
         AnswerPrints(m, false, Duals(p, t, c), Solution(t, |m.edges|), Objective(t, c), bounds.printable)
  }

  /** Prints the used edges in order. */
  method PrintAllocations(m: Model, values: Vec, printable: real -> bool) returns (ok: bool, allocations: seq<Allocation>)
    requires ValidModel(m) && |values| == |m.edges|
    ensures ok <==> forall j :: 0 <= j < |values| ==> EdgePrints(m, values, j, printable)
    ensures ok ==> allocations == AllocationsTo(m, values, |values|)
  {
    allocations := [];
    for j := 0 to |m.edges|
      invariant allocations == AllocationsTo(m, values, j)
      invariant forall k :: 0 <= k < j ==> EdgePrints(m, values, k, printable)
    {
      if values[j] == 0.0 {
        assert AllocationsTo(m, values, j + 1) == allocations;
        continue;
      }
      var fits, allocation := PrintEdge(m, values, j, printable);
      if !fits {
        assert !EdgePrints(m, values, j, printable);
        return false, allocations;
      }
      allocations := allocations + [allocation];
    }
    ok := true;
  }

  method PrintEdge(m: Model, values: Vec, j: nat, printable: real -> bool) returns (ok: bool, allocation: Allocation)
    requires ValidModel(m) && |values| == |m.edges| && j < |values|
    ensures ok <==> ThreePrint(values[j], m.edges[j], printable)
    ensures ValidEdge(m, m.edges[j]) && (ok ==> allocation == AllocationOf(m, values, j))
  {
    var e := m.edges[j];
    assert ValidEdge(m, e);
    var used := ExactFromRat(values[j], printable);
    var posted := ExactFromRat(PostedOn(values[j], e), printable);
    var cost := ExactFromRat(CostOn(values[j], e), printable);
    ok := used.Number? && posted.Number? && cost.Number?;
    allocation := Allocation(m.requirements[e.requirement].agreementId, m.assets[e.asset].id, used, posted, cost);
  }

  /** The tableau and costs at which the two phases end. */
  ghost predicate Ended(p: Program, t: Tableau, feasible: bool, costs: Vec)
    requires WellFormed(p)
  {
    && (feasible <==> PhaseOneZero(p))
    && if feasible then t == PhaseTwo(p) && costs == PhaseTwoCost(p) else t == PhaseOne(p) && costs == PhaseOneCost(p)
  }

  lemma EndedTracked(p: Program, t: Tableau, feasible: bool, costs: Vec)
    requires WellFormed(p) && Ended(p, t, feasible, costs)
    ensures Tracked(p, t) && |costs| == t.columns
  {
  }

  /** Phase one: minimise the artificial columns. */
  method RunPhaseOne(ctx: Context, fits: Fits, t: AllocationTableau, n: nat, slacks: nat, ghost p: Program, ghost from: nat)
    returns (err: Error, feasible: bool, costs: Vec)
    requires WellFormed(p) && |p.cost| == n && p.slacks == slacks
    requires t.View() == Start(p) && t.pivots == 0 && from <= ctx.polls && Live(ctx.cancelled, from, ctx.polls)
    modifies t, ctx
    ensures err.NoError? || err.Cancelled? || err.LimitExceeded?
    ensures t.pivots <= MAX_PIVOTS && Heeded(err, ctx.cancelled, from, ctx.polls)
    ensures err.LimitExceeded? ==> PhaseOneBudget(p, fits) < 0
    ensures err.NoError? ==> PhaseOneBudget(p, fits) == MAX_PIVOTS - t.pivots
    ensures err.NoError? ==> t.View() == PhaseOne(p) && costs == PhaseOneCost(p) && (feasible <==> PhaseOneZero(p))
  {
    feasible := false;
    costs := PhaseOneCosts(t.columns, n + slacks);
    assert costs == PhaseOneCost(p);
    PhaseOneBegins(p, fits);
    err := t.Minimize(ctx, fits, costs, t.columns, PhaseOne(p), PhaseOneBudget(p, fits), from);
    if err.NoError? {
      var objective := t.ObjectiveValue(costs);
      feasible := objective == 0.0;
    }
  }

  /** Phase two: drop the artificial columns and minimise the posting costs. */
  method RunPhaseTwo(ctx: Context, fits: Fits, t: AllocationTableau, edges: seq<Edge>, slacks: nat, ghost p: Program,
                     ghost left: nat, ghost from: nat)
    returns (err: Error, costs: Vec)
    requires WellFormed(p) && p.cost == EdgeCosts(edges) && p.slacks == slacks && t.columns == Width(p)
    requires PhaseOneZero(p) && t.View() == PhaseOne(p) && t.pivots <= MAX_PIVOTS && left == MAX_PIVOTS - t.pivots
    requires from <= ctx.polls && Live(ctx.cancelled, from, ctx.polls)
    modifies t, ctx
    ensures err.NoError? || err.Cancelled? || err.LimitExceeded?
    ensures Heeded(err, ctx.cancelled, from, ctx.polls)
    ensures err.LimitExceeded? ==> PhaseTwoBudget(p, left, fits) < 0
    ensures err.NoError? ==> PhaseTwoBudget(p, left, fits) >= 0 && costs == PhaseTwoCost(p) && t.View() == PhaseTwo(p)
  {
    costs := PostingCosts(edges, t.columns, p);
    PurgeBegins(p, t.pivots, fits);
    PhaseTwoFollows(p, left, fits);
    err := PurgeAndMinimize(ctx, fits, t, costs, |edges| + slacks, p, PhasePurged(p), PurgedBudget(p, left, fits),
                            PhaseTwo(p), PhaseTwoBudget(p, left, fits), from);
  }

  method PurgeAndMinimize(ctx: Context, fits: Fits, t: AllocationTableau, costs: Vec, limit: nat, ghost p: Program,
                          ghost purged: Tableau, ghost middle: int, ghost goal: Tableau, ghost budget: int, ghost from: nat)
    returns (err: Error)
    requires limit == ArtificialFrom(p) && from <= ctx.polls && Live(ctx.cancelled, from, ctx.polls)
    requires Purging(p, t.View(), 0, t.pivots, fits, purged, middle) && Follows(costs, limit, purged, middle, fits, goal, budget)
    modifies t, ctx
    ensures err.NoError? || err.Cancelled? || err.LimitExceeded?
    ensures Heeded(err, ctx.cancelled, from, ctx.polls)
    ensures err.LimitExceeded? ==> budget < 0
    ensures err.NoError? ==> budget >= 0 && t.View() == goal
  {
    err := t.RemoveArtificial(ctx, fits, limit, p, purged, middle, from);
    if err.NoError? {
      err := t.Minimize(ctx, fits, costs, limit, goal, budget, from);
    }
  }

  method PostingCosts(edges: seq<Edge>, width: nat, ghost p: Program) returns (costs: Vec)
    requires p.cost == EdgeCosts(edges) && width == Width(p)
    ensures costs == PhaseTwoCost(p)
  {
    costs := PhaseTwoCosts(edges, width);
  }

  /** Both phases on the mutable tableau. */
  method Solve(ctx: Context, fits: Fits, t: AllocationTableau, edges: seq<Edge>, slacks: nat, ghost p: Program, ghost from: nat)
    returns (err: Error, feasible: bool, costs: Vec)
    requires WellFormed(p) && p.cost == EdgeCosts(edges) && p.slacks == slacks
    requires t.View() == Start(p) && t.pivots == 0 && from <= ctx.polls && Live(ctx.cancelled, from, ctx.polls)
    modifies t, ctx
    ensures err.NoError? || err.Cancelled? || err.LimitExceeded?
    ensures Heeded(err, ctx.cancelled, from, ctx.polls)
    ensures (err.LimitExceeded? ==> !Affordable(p, fits)) && (err.NoError? ==> Affordable(p, fits))
    ensures err.NoError? ==> Ended(p, t.View(), feasible, costs)
  {
    err, feasible, costs := RunPhaseOne(ctx, fits, t, |edges|, slacks, p, from);
    if err.NoError? && feasible {
      err, costs := RunPhaseTwo(ctx, fits, t, edges, slacks, p, MAX_PIVOTS - t.pivots, from);
    }
  }

  /** Multipliers, edge values and objective at the end of the phases. */
  method ReadOff(t: AllocationTableau, n: nat, count: nat, costs: Vec, ghost p: Program)
    returns (dual: Vec, values: Vec, objective: real)
    requires WellFormed(p) && n == |p.cost| && count == |p.rows| && Tracked(p, t.View()) && |costs| == t.columns
    ensures dual == Duals(p, t.View(), costs) && values == Solution(t.View(), n)
    ensures objective == Objective(t.View(), costs)
  {
    dual := t.Dual(costs, n, count);
    values := t.SolutionValues(n);
    objective := t.ObjectiveValue(costs);
  }

  /** Prints the answer. */
  method Report(m: Model, feasible: bool, dual: Vec, values: Vec, objective: real, printable: real -> bool)
    returns (err: Error, result: AllocationResult)
    requires ValidModel(m) && |dual| == Slacks(m) + |m.requirements| && |values| == |m.edges|
    ensures err.NoError? || err.LimitExceeded?
    ensures err.NoError? <==> AnswerPrints(m, feasible, dual, values, objective, printable)
    ensures err.NoError? ==>
              result == if feasible then FeasibleAnswer(m, values, dual, objective) else InfeasibleAnswer(m, dual)
  {
    result := AllocationResult(m.currency, feasible, [], Number(0.0), Certificate(map[], map[], map[]));
    var ok, c := PrintCertificate(m, dual, printable);
    if !ok {
      return LimitExceeded, result;
    }
    result := result.(certificate := c);
    if feasible {
      var allocations;
      ok, allocations := PrintAllocations(m, values, printable);
      if !ok {
        return LimitExceeded, result;
      }
      var cost := ExactFromRat(objective, printable);
      if cost.Unavailable? {
        return LimitExceeded, result;
      }
      result := result.(allocations := allocations, cost := cost);
    }
    err := NoError;
  }

  /** An outcome for an admissible model: an answer exactly when the limits allow it, else a refusal. */
  ghost predicate Concluded(m: Model, bounds: Bounds, err: Error, result: AllocationResult)
    requires ValidModel(m)
  {
    && (err.NoError? || err.Cancelled? || err.LimitExceeded?)
    && (!err.Cancelled? ==> (err.NoError? <==> WithinLimits(m, bounds)))
    && (err.NoError? ==> result == Answer(m))
  }

  /** Solves and prints a built model. */
  method Conclude(ctx: Context, bounds: Bounds, model: Model, ghost from: nat) returns (err: Error, result: AllocationResult)
    requires ValidModel(model) && from <= ctx.polls && Live(ctx.cancelled, from, ctx.polls)
    modifies ctx
    ensures Heeded(err, ctx.cancelled, from, ctx.polls)
    ensures Concluded(model, bounds, err, result)
  {
    result := Unanswered;
    var t := new AllocationTableau(model);
    var feasible, costs;
    err, feasible, costs := Solve(ctx, bounds.fits, t, model.edges, |model.assets| + |model.limits|, ProgramOf(model), from);
    if !err.NoError? {
      return;
    }
    EndedTracked(ProgramOf(model), t.View(), feasible, costs);
    var dual, values, objective := ReadOff(t, |model.edges|, |model.assets| + |model.limits| + |model.requirements|,
                                           costs, ProgramOf(model));
    err, result := Report(model, feasible, dual, values, objective, bounds.printable);
  }

  /**
   What the allocator's outcome says. Inputs that are not admitted are refused. Admitted ones,
   unless the context was cancelled, are answered exactly when the limits allow it, with the answer
   to their model, which is certified and settles the inputs.
   */
  ghost predicate Optimized(assets: seq<Asset>, requirements: seq<Requirement>, limits: seq<AllocationLimit>, bounds: Bounds,
                            m: Model, err: Error, result: AllocationResult)
  {
    && !err.InvalidCertificate?
    && (!Admitted(assets, requirements, limits) ==> err.Cancelled? || err.InvalidInput? || err.LimitExceeded?)
    && (Admitted(assets, requirements, limits) && !err.Cancelled? ==>
          IsModelOf(m, assets, requirements, limits) && Concluded(m, bounds, err, result))
    && (err.NoError? ==> Certified(result, assets, requirements, limits) && Settles(result, assets, requirements, limits))
  }

  lemma Declined(assets: seq<Asset>, requirements: seq<Requirement>, limits: seq<AllocationLimit>, bounds: Bounds, m: Model,
                 err: Error, result: AllocationResult)
    requires err.Cancelled? || ((err.InvalidInput? || err.LimitExceeded?) && !Admitted(assets, requirements, limits))
    ensures Optimized(assets, requirements, limits, bounds, m, err, result)
  {
  }

  /**
   The allocator. An admissible input is answered exactly when no poll finds the context cancelled
   and the work and printing limits allow it; an answer is verified and settles the inputs; the
   certificate error is unreachable, and a refusal claims nothing about feasibility.
   */
  method OptimizeConstrained(ctx: Context, bounds: Bounds, assets: seq<Asset>, requirements: seq<Requirement>,
                             limits: seq<AllocationLimit>)
    returns (err: Error, result: AllocationResult, ghost m: Model)
    modifies ctx
    ensures Heeded(err, ctx.cancelled, old(ctx.polls), ctx.polls)
    ensures Optimized(assets, requirements, limits, bounds, m, err, result)
  {
    result, m := Unanswered, NoModel;
    var cancelled := ctx.Done();
    if cancelled {
      err := Cancelled;
      Declined(assets, requirements, limits, bounds, m, err, result);
      return;
    }
    err, result, m := Proceed(ctx, bounds, assets, requirements, limits, old(ctx.polls));
  }

  /** Builds the model and goes on with it. */
  method Proceed(ctx: Context, bounds: Bounds, assets: seq<Asset>, requirements: seq<Requirement>,
                 limits: seq<AllocationLimit>, ghost from: nat)
    returns (err: Error, result: AllocationResult, ghost m: Model)
    requires from <= ctx.polls && Live(ctx.cancelled, from, ctx.polls)
    modifies ctx
    ensures Heeded(err, ctx.cancelled, from, ctx.polls)
    ensures Optimized(assets, requirements, limits, bounds, m, err, result)
  {
    result := Unanswered;
    var model;
    err, model := PrepareModel(assets, requirements, limits);
    m := model;
    if err.NoError? {
      err, result := SolveAndCheck(ctx, bounds, assets, requirements, limits, model, from);
    } else {
      Declined(assets, requirements, limits, bounds, m, err, result);
    }
  }

  const Unanswered := AllocationResult("", false, [], Unavailable, Certificate(map[], map[], map[]))
  const NoModel := Model([], [], [], [], [], "", [], [], [])

  /** The model of the inputs as a value. */
  method PrepareModel(assets: seq<Asset>, requirements: seq<Requirement>, limits: seq<AllocationLimit>)
    returns (err: Error, model: Model)
    ensures err.NoError? || ((err.InvalidInput? || err.LimitExceeded?) && !Admitted(assets, requirements, limits))
    ensures err.NoError? ==> Admissible(assets, requirements, limits) && IsModelOf(model, assets, requirements, limits)
  {
    AdmittedIff(assets, requirements, limits);
    var built;
    built, err := Prepare(assets, requirements, limits);
    model := if err.NoError? then built.View() else NoModel;
  }

  /** Solves the model of the inputs and has the answer checked against the inputs. */
  method SolveAndCheck(ctx: Context, bounds: Bounds, assets: seq<Asset>, requirements: seq<Requirement>,
                       limits: seq<AllocationLimit>, model: Model, ghost from: nat)
    returns (err: Error, result: AllocationResult)
    requires Admissible(assets, requirements, limits) && IsModelOf(model, assets, requirements, limits)
    requires from <= ctx.polls && Live(ctx.cancelled, from, ctx.polls)
    modifies ctx
    ensures Heeded(err, ctx.cancelled, from, ctx.polls)
    ensures Optimized(assets, requirements, limits, bounds, model, err, result)
  {
    err, result := Conclude(ctx, bounds, model, from);
    if err.NoError? {
      AnswerCertified(model, bounds, result, assets, requirements, limits);
      err := VerifyConstrainedAllocation(assets, requirements, limits, result);
    }
  }

  /** The answer to the model of the inputs is certified. */
  lemma AnswerCertified(m: Model, bounds: Bounds, result: AllocationResult, assets: seq<Asset>, requirements: seq<Requirement>,
                        limits: seq<AllocationLimit>)
    requires Admissible(assets, requirements, limits) && IsModelOf(m, assets, requirements, limits)
    requires Concluded(m, bounds, NoError, result)
    ensures Admitted(assets, requirements, limits) && Certified(result, assets, requirements, limits)
  {
    AnswerAccepted(m);
    AdmittedIff(assets, requirements, limits);
    AcceptsIsCertified(m, result, assets, requirements, limits);
  }

  /** Inputs have one canonical model. */
  lemma ModelUnique(m: Model, n: Model, assets: seq<Asset>, requirements: seq<Requirement>, limits: seq<AllocationLimit>)
    requires IsModelOf(m, assets, requirements, limits) && IsModelOf(n, assets, requirements, limits)
    ensures m == n
  {
    SortedUnique(m.assets, n.assets, AssetKey);
    SortedUnique(m.requirements, n.requirements, AgreementKey);
    SortedUnique(m.limits, n.limits, LimitKey);
  }
}
