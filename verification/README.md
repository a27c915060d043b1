# Verified models of Kanz

This project states, and proves, what the hardest parts of the Kanz repository are for. It has three parts.

**The exact collateral allocator** (`kanz/internal/collateral`). A two-phase primal simplex over exact rationals with
Bland's rule, from the caller's unsorted inputs to the printed answer, and the independent verifier that re-checks it.
`Vectors`, `Tableaus`, `Bland`, `Minimization`, `Programs` and `TwoPhase` hold the mathematics; `Inputs`, `Models` and
`Building` the data and the model builder; `Budgets` the work limits and cancellation; `Simplex` the mutable tableau;
`Certificates` and `Verifying` the verifier; `Plans` and `Promises` what its answers mean, written from the caller's input
fields alone; `Answers`, `Optimizing` and `Ordering` the whole allocator.
The chain is: a pivot keeps the solutions; Bland's rule never comes back to a basis; the phases therefore end, and decide
feasibility; the multipliers read off the tableau certify the answer; the verifier accepts exactly certified answers;
so the allocator never reports a certificate failure, answers every admissible input that the work limits and the context let it
finish, and what it reports is optimal, or truly infeasible, for
the original inputs in whatever order they came, even against plans that post more than required.

**Exact arithmetic around it.** `Margins` (margin calls over whole runs), `Decimals`, `Printing` (the browser's decimal
printers), `WireDecimals` (wire decimals and exact text), `Gaussian` and `Calibration` (least-squares proxy calibration).

**State machines and indexes.** `Dedup` and `Consumers` (the bus consumer under every interleaving), `Outbox` and
`Delivering` (audit delivery with any number of workers, crashes and lost publishes), `Registries` and `Promoting`
(role indexes and gated promotion), `FeatureStores` (the point-in-time index against the plain table), `Explaining`
(permutation Shapley attributions), `Imports` (the transitive import walk).

Loops and objects of the original are methods and classes here, proved against specification functions; what the
original promises is then proved of those functions as lemmas. Main results are stated on input fields, logs of calls or
runs, not on the functions that compute them. `dafny verify dfyconfig.toml` checks everything.

## Readings and idealisations

- `big.Rat` is read as `real`: the code is exact. Floats in the calibrator, the explainer and the linear model are read
  as reals too; nothing is claimed about rounding.
- Which numbers stay within the bit bound of a pivot, which can be printed, and at which polls the context is found
  cancelled are parameters of the allocator; its theorems hold for all of them, and say exactly when it refuses. A refusal
  is never a claim about feasibility.
- Clocks, handlers, brokers, shuffles and models are parameters.
- Event identities in the outbox are never issued twice (they are time-ordered random UUIDs), the journal is append-only,
  and its insert trigger enqueues atomically.

## Things the proofs bring out

- A queued audit record that cannot be decoded, or names another tenant, is never removed, and while no other worker
  holds it no later record of its tenant is ever locked (`Outbox.PoisonHoldsBack`).
- The tenant scan starts behind the empty name (`Delivering.Worker.Scan`). That loses nothing: row security in
  `kanz/services/identity/migrations/0004_access_audit.sql` raises on an empty scope, so no such tenant can be written.
- The dedup window's survival bound is tight at every capacity: recording the last of `max - 1` other keys once more
  pushes out a fresh key (`Dedup.SurvivalIsTight`).
- Explaining a linear model by dropping features gives the whole score to the last weighed feature of each order and
  nothing to any other (`Explaining.DroppingCreditsTheLast`); `service.py` describes the average of this.
- Bits, digits and text length never decide a wire decimal: every number whose stripped form fits passes them
  (`WireDecimals.ToProtoExact`).

## Model

| member | source | states |
|---|---|---|
| Tableaus.PivotSameKernel | kanz/internal/collateral/simplex.go:114-144 | A pivot on any nonzero entry keeps the solution set of the rows, both ways |
| Tableaus.PivotCanonical | kanz/internal/collateral/simplex.go:114-144 | A pivot keeps the basis columns unit columns, with the entering column in place of the leaving one |
| Tableaus.PivotProper | kanz/internal/collateral/simplex.go:92-103 | A pivot on a least-ratio row keeps every right-hand side nonnegative |
| Tableaus.RayUnique | kanz/internal/collateral/simplex.go:64-72 | The basis determines the point: a solution that is zero off the basis is the one read off the tableau |
| Tableaus.PivotMovesPoint | kanz/internal/collateral/simplex.go:114-144 | A pivot moves the basic point along the entering ray by exactly the ratio |
| Bland.ReducedOnKernel | kanz/internal/collateral/simplex.go:79-88 | On every solution of the rows the reduced costs price the same as the costs |
| Bland.PivotObjective | kanz/internal/collateral/simplex.go:73-113 | A pivot changes the objective by ratio times reduced cost, so it never rises |
| Bland.NoCycle | kanz/internal/collateral/simplex.go:73-113 | No run of Bland pivots comes back to a basis it left |
| Bland.BlandNeverRevisits | kanz/internal/collateral/simplex.go:73-113 | Any two states of a minimisation run have different bases |
| Minimization.RunIsShort | kanz/internal/collateral/simplex.go:73-118 | A run has at most two to the number of columns states, so the pivot cap only bounds work |
| Minimization.SomeRowLeaves | kanz/internal/collateral/simplex.go:92-108 | With nonnegative costs some row always leaves: the unbounded-direction error is unreachable |
| Programs.WeakDuality | kanz/internal/collateral/certificate.go:5-8 | Feasible multipliers bound the cost of every feasible allocation from below |
| Programs.CertifiedOptimum | kanz/internal/collateral/certificate.go:5-8 | Equal primal and dual values make an allocation globally optimal |
| Programs.CertifiedInfeasible | kanz/internal/collateral/certificate.go:5-8 | A Farkas witness leaves no nonnegative allocation that meets the rows |
| Programs.TrimmedIsFeasible | kanz/internal/collateral/optimize.go:160-163 | Scaling an over-posting allocation down to exact coverage keeps every limit and does not cost more |
| Programs.ExactCoverageLosesNothing | kanz/internal/collateral/optimize.go:160-163 | For every over-posting allocation there is an exact one that costs no more |
| TwoPhase.PivotLinked | kanz/internal/collateral/simplex.go:55-63 | A pivot keeps each row the combination of original rows that its identity-block entries say |
| TwoPhase.DualsReproduce | kanz/internal/collateral/simplex.go:55-63 | The multipliers applied to the original rows give the basic cost row, column by column |
| TwoPhase.DualValue | kanz/internal/collateral/simplex.go:48-63 | The multipliers price the original right-hand sides at exactly the objective |
| TwoPhase.OptimalDuals | kanz/internal/collateral/simplex.go:55-63 | Where no column enters, the multipliers are dual feasible |
| TwoPhase.WithoutRowSolutions | kanz/internal/collateral/simplex.go:164-172 | Deleting a row that is zero outside the artificial columns keeps the solutions with artificials at zero |
| TwoPhase.PurgePivot | kanz/internal/collateral/simplex.go:145-175 | Pivoting an artificial variable out at level zero keeps everything phase two needs |
| TwoPhase.PurgeDelete | kanz/internal/collateral/simplex.go:164-172 | Deleting a redundant row keeps everything phase two needs |
| TwoPhase.PhaseOneCertified | kanz/internal/collateral/optimize.go:181-188 | A positive phase-one objective yields a Farkas witness |
| TwoPhase.PhaseTwoCertified | kanz/internal/collateral/optimize.go:190-201 | After phase two the solution is feasible, the multipliers dual feasible and the three values equal |
| TwoPhase.TwoPhaseDecides | kanz/internal/collateral/optimize.go:179-201 | Phase one ends at zero exactly when some allocation exists, and then phase two ends at one of least cost |
| Inputs.SortById | kanz/internal/collateral/optimize.go:93-94 | A sorted permutation of the input |
| Inputs.LessIsLexicographic | kanz/internal/collateral/optimize.go:93-94 | Identifiers are ordered at the first place they differ, a proper prefix first |
| Models.EdgesMeaning | kanz/internal/collateral/optimize.go:145-152 | The edges are exactly the eligible pairs, each once, in order |
| Models.EdgeCount | kanz/internal/collateral/optimize.go:154-156 | There are as many edges as eligible pairs of distinct identifiers |
| Models.ModelOfIsValid | kanz/internal/collateral/optimize.go:88-158 | Valid inputs give a well-formed model: coverage in (0,1], nonnegative capacities, needs, costs and weights |
| Models.SortedUnique | kanz/internal/collateral/optimize.go:92-94 | With distinct identifiers there is one sorted order, whichever sort produced it |
| Building.BuildAllocationModel | kanz/internal/collateral/optimize.go:88-158 | Accepts exactly the valid inputs within the size bounds, says which of the two failed, and builds their sorted model |
| Building.AllocationModel.AddLimits | kanz/internal/collateral/limits.go:9-45 | Accepts exactly the valid limits and extends the model by their bounds and edge weights, in identifier order |
| Budgets.UnderwayStep | kanz/internal/collateral/simplex.go:109-118 | The next pivot either goes through and leaves one pivot less, or the pivots have run out or an entry has outgrown the bound |
| Simplex.AllocationTableau.constructor | kanz/internal/collateral/simplex.go:21-47 | The first tableau is the original program with its identity block |
| Simplex.AllocationTableau.ObjectiveValue | kanz/internal/collateral/simplex.go:48-54 | The cost of the basic point |
| Simplex.AllocationTableau.Dual | kanz/internal/collateral/simplex.go:55-63 | The basic costs through the identity-block columns |
| Simplex.AllocationTableau.SolutionValues | kanz/internal/collateral/simplex.go:64-72 | The edge values of the basic point |
| Simplex.AllocationTableau.FindEntering | kanz/internal/collateral/simplex.go:78-91 | The lowest column with negative reduced cost, or none |
| Simplex.AllocationTableau.FindLeaving | kanz/internal/collateral/simplex.go:92-103 | The row of least ratio and, among ties, least basic column |
| Simplex.AllocationTableau.Pivot | kanz/internal/collateral/simplex.go:114-144 | In place, the pivoted tableau; refused exactly when the cap is reached, an entry of that tableau outgrows the bound, or a poll finds the context cancelled |
| Simplex.AllocationTableau.Minimize | kanz/internal/collateral/simplex.go:73-113 | In place, the one optimal tableau Bland's rule reaches, with the pivots left; refused exactly when the budget of that run is exceeded or the context cancelled; never a certificate error |
| Simplex.AllocationTableau.RemoveArtificial | kanz/internal/collateral/simplex.go:145-175 | In place, the tableau without artificial basics and redundant rows, with the pivots left; refused exactly when the budget is exceeded or the context cancelled; never a certificate error |
| Certificates.PriceEdges | kanz/internal/collateral/certificate.go:54-68 | Passes exactly when every edge is priced at or below its cost, or below zero for an infeasible result |
| Certificates.AddUp | kanz/internal/collateral/certificate.go:79-111 | Passes exactly the consistent, duplicate-free allocations and totals what they use, post and cost |
| Certificates.BoundsDecideFeasible | kanz/internal/collateral/certificate.go:112-126 | The bound checks on the totals hold exactly when the allocation is feasible |
| Certificates.AcceptedIsOptimal | kanz/internal/collateral/certificate.go:12-131 | An accepted feasible result is feasible and costs no more than any allocation, over-posting ones included |
| Certificates.AcceptedIsInfeasible | kanz/internal/collateral/certificate.go:73-78 | An accepted infeasible result leaves no allocation at all, over-posting ones included |
| Verifying.Prepare | kanz/internal/collateral/certificate.go:13-19 | Builds the model exactly for admissible inputs |
| Verifying.VerifyModel | kanz/internal/collateral/certificate.go:20-131 | Says yes exactly to certified results |
| Plans.PlansAreSolutions | kanz/internal/collateral/optimize.go:160-163 | A posting plan meets the agreements, capacities and limits exactly when its edge vector solves the program, at the same cost |
| Promises.AdmittedIff | kanz/internal/collateral/optimize.go:88-158 | The checks admit exactly the inputs described by their fields: identifiers, one currency, nonnegative figures, haircuts below one, listed assets, eligible limit terms, sizes |
| Promises.StatesIff | kanz/internal/collateral/certificate.go:79-111 | The per-allocation checks pass exactly when each allocation states an eligible pair, once, with posted value used times one less the haircut and cost used times the unit cost |
| Promises.PricesIff | kanz/internal/collateral/certificate.go:20-68 | The multiplier checks pass exactly when the tables are complete, not positive on capacities and limits, and price no eligible pair above its cost |
| Promises.WorthIs | kanz/internal/collateral/certificate.go:20-53 | The dual value is the sum of multiplier times figure over assets, agreements and limits |
| Promises.AcceptsIsCertified | kanz/internal/collateral/certificate.go:12-131 | Whatever the order of the inputs, the verifier accepts exactly the answers certified by their fields |
| Promises.CertifiedSettles | kanz/internal/collateral/certificate.go:12-131 | A certified answer settles the caller's own inputs: eligible pairs listed once with posted and cost as the haircut and unit cost say, and least cost among all plans; or no plan at all |
| Promises.VerifyConstrainedAllocation | kanz/internal/collateral/certificate.go:12-131 | No error exactly for certified answers to admitted inputs, which settle the inputs; a certificate error exactly for the other answers to admitted inputs |
| Answers.AnswerAccepted | kanz/internal/collateral/optimize.go:202-239 | The printed answer of the two phases is always accepted by the verifier |
| Optimizing.OptimizeConstrained | kanz/internal/collateral/optimize.go:168-240 | Cancelled exactly when the last poll found it; otherwise an admitted input is answered exactly when pivots, entries and printed numbers stay within their bounds; the answer is certified and settles the input fields: haircuts, costs, capacities and limits; never a certificate error |
| Optimizing.ModelUnique | kanz/internal/collateral/optimize.go:92-94 | Inputs have one model, so builder and verifier speak of the same program |
| Ordering.InputOrderIrrelevant | kanz/internal/collateral/optimize.go:92-94 | Permuting assets, agreements, limits or the terms of limits gives the same answer and certificate |
| Margins.CalculateMargin | kanz/internal/collateral/margin_exact.go:34-79 | Answers exactly admissible calls whose requirement and movement fit 512 bits in lowest terms; less independent amount and initial margin the requirement is the excess over the threshold, or zero; the movement is nothing below the minimum transfer, else the least multiple of the increment at or above the gap |
| Margins.OneMovement | kanz/internal/collateral/margin_exact.go:57-69 | The terms determine the movement |
| Margins.MovementMonotone | kanz/internal/collateral/margin_exact.go:52-69 | More exposure never calls for a smaller movement |
| Margins.MovesNothingIffSettled | kanz/internal/collateral/margin_exact.go:57-69 | A call moves nothing exactly when holdings cover within one increment or the gap is below the minimum |
| Margins.RunSettles | kanz/internal/collateral/margin_exact.go:29-33 | Over any run of calls holdings never go negative and each call leaves the holder settled |
| Margins.SecondCallMovesNothing | kanz/internal/collateral/margin_exact.go:57-69 | An immediate second call moves nothing |
| Decimals.NumeralDenotes | kanz-web/src/api/decimal.ts:164-164 | The numeral of a number denotes it |
| Printing.FormatDecimal | kanz-web/src/api/decimal.ts:46-74 | Renders exactly the well-formed wire decimals, exactly, with one place per negative power, no leading zeros and no minus on zero |
| Printing.FormatRational | kanz-web/src/api/decimal.ts:127-171 | Renders exactly the rationals whose denominator is a product of at most 64 twos and 64 fives, exactly, with the fewest places that can, no leading zeros and no minus on zero |
| Printing.TerminatingIffRenderable | kanz-web/src/api/decimal.ts:145-159 | In lowest terms, what is refused has no exact rendering of at most 64 places |
| Printing.SignDenotes | kanz-web/src/api/decimal.ts:183-188 | Dropping the minus of a zero figure does not change what is denoted |
| Printing.StripLeadingZeros | kanz-web/src/api/decimal.ts:178-181 | Exactly the leading zeros go, and one zero stays of all zeros |
| WireDecimals.CanonicalUnique | kanz/internal/dec/exact_proto.go:39-42 | A rational has one decimal form without trailing zeros |
| WireDecimals.ToProtoExact | kanz/internal/dec/exact_proto.go:22-48 | Succeeds exactly when the stripped form has an int64 coefficient and an exponent in [-60,60], and gives that form |
| WireDecimals.ExactFromRat | kanz/internal/dec/exact.go:29-41 | Prints exactly the rationals within 512 bits, as text of at most 400 characters that reads back as the same rational; a fraction exactly when it is not whole and no decimal fits |
| WireDecimals.ReadsAsOne | kanz/internal/dec/exact.go:17-27 | Text reads as one rational in lowest terms |
| Gaussian.Triangulate | kanz/internal/alternatives/calibrate.go:110-129 | Succeeds exactly when every column the elimination reaches has an entry of at least 1e-12 from the diagonal down; then the triangular system has the solutions of the original |
| Gaussian.BackSubstitute | kanz/internal/alternatives/calibrate.go:130-138 | Solves a triangular system |
| Gaussian.SolveGaussian | kanz/internal/alternatives/calibrate.go:106-139 | Succeeds exactly in that case; the answer is the only solution of the original system |
| Calibration.NormalEquationsFit | kanz/internal/alternatives/calibrate.go:54-74 | The normal equations hold exactly where the squared residual is least over all coefficients |
| Calibration.UniqueIsIndependent | kanz/internal/alternatives/calibrate.go:74-77 | A fit is only ever reported for linearly independent series |
| Calibration.FitProxy | kanz/internal/alternatives/calibrate.go:49-103 | Fits exactly when elimination of the normal equations finds its pivots; labelled least-squares loadings and R² in [0,1] |
| Calibration.CalibrateProxy | kanz/internal/alternatives/calibrate.go:34-104 | Fits exactly the usable series whose normal equations elimination can solve |
| Dedup.DedupWindow.Seen | kanz-py/kanz_bus/dedup.py:47-53 | A key is a duplicate exactly when recorded less than the time to live ago |
| Dedup.DedupWindow.Record | kanz-py/kanz_bus/dedup.py:55-61 | Records the key after making room if the window is full, never beyond capacity |
| Dedup.DedupWindow.CollectGarbage | kanz-py/kanz_bus/dedup.py:63-69 | Drops the expired and then only oldest entries, no more than needed for one free place |
| Dedup.RecordKeepsCapacity | kanz-py/kanz_bus/dedup.py:55-69 | The window never exceeds its capacity and invents no entries |
| Dedup.RecordedKeySurvives | kanz-py/kanz_bus/dedup.py:55-69 | In any run an unexpired key stays while fewer than capacity less one other keys were recorded since |
| Dedup.EvictedInRun | kanz-py/kanz_bus/dedup.py:55-69 | A call drops an entry exactly when the window is full and the entry has expired, or the window is still full without the expired and capacity less one unexpired entries are newer |
| Dedup.SurvivalIsTight | kanz-py/kanz_bus/dedup.py:55-69 | At every capacity from two on, a run loses an unexpired key with only capacity less one other keys recorded since |
| Consumers.RunKeeps | kanz-py/kanz_bus/consumer.py:77-155 | The invariant of every interleaving: sound stages, truthful effects, one effect per delivery, window within capacity |
| Consumers.NoSilentDrop | kanz-py/kanz_bus/consumer.py:77-123 | An acked message was parked itself, or its key was settled by a handler success or a parking |
| Consumers.DuplicateIsRecent | kanz-py/kanz_bus/consumer.py:90-91 | A message dropped as duplicate has a key settled less than the time to live ago |
| Consumers.RedeliveryIsDropped | kanz-py/kanz_bus/consumer.py:90-91 | In any interleaving with a clock that moves on, a redelivery of a key settled by an earlier step less than the time to live ago, with fewer than capacity less one other keys settled since, is acked without running the handler |
| Consumers.BoundedAttempts | kanz-py/kanz_bus/consumer.py:102-118 | The handler runs at most the configured times, and the parked header counts its runs |
| Consumers.StepMakesProgress | kanz-py/kanz_bus/consumer.py:77-123 | Every delivery ends after at most twice the attempts of its own steps, whatever others do |
| Consumers.Consumer.constructor | kanz-py/kanz_bus/consumer.py:67-75 | At least one attempt, a fresh machine |
| Consumers.Consumer.Deliver | kanz-py/kanz_bus/consumer.py:78-123 | One undisturbed delivery is a run of the machine; acked exactly for a duplicate, a success, or a parked failure; a success or parking is logged and the key remembered |
| Consumers.Consumer.Dispatch | kanz-py/kanz_bus/consumer.py:101-121 | The attempt loop stops at the first answer that is not a failure or at the last attempt |
| Consumers.Consumer.Attempt | kanz-py/kanz_bus/consumer.py:103-111 | Only a handler success records the key |
| Consumers.Consumer.Park | kanz-py/kanz_bus/consumer.py:117-155 | Only a successful publish parks and records; a failed one surfaces |
| Outbox.RunKeeps | kanz/internal/auditdelivery/worker.go:87-128 | The invariant of every run of commits, workers, publishes and crashes |
| Outbox.AtLeastOnce | kanz/internal/auditdelivery/worker.go:87-128 | A committed record is for ever after queued or published, and no two workers hold one row |
| Outbox.PublishedBeforeRemoved | kanz/internal/auditdelivery/worker.go:116-125 | A row leaves the queue only after its own event was published |
| Outbox.SameIdSameEvent | kanz/internal/auditdelivery/worker.go:240-242 | All publications under one event identity are the same event of the same tenant |
| Outbox.PublishedIsEvidence | kanz/internal/auditdelivery/worker.go:240-242 | In every run a published event carries the identity, tenant, time and whole decision of one committed record, and its partition key |
| Outbox.PoisonStays | kanz/internal/auditdelivery/worker.go:109-115 | A record that cannot be attributed is never removed |
| Outbox.PoisonHoldsBack | kanz/internal/auditdelivery/worker.go:102-115 | Unless another worker holds it, nothing above it is locked for its tenant |
| Delivering.Worker.DeliverOne | kanz/internal/auditdelivery/worker.go:87-128 | Takes the tenant's lowest row and removes it exactly when its decision speaks for the tenant and the publish succeeds; what is published is that record's evidence; touches no other tenant |
| Delivering.Worker.DeliverTenant | kanz/internal/auditdelivery/worker.go:188-200 | Removes the tenant's lowest rows as long as they are attributed and their publishes accepted, sixteen at most; healthy exactly when not stopped by a failure |
| Delivering.OneShare | kanz/internal/auditdelivery/worker.go:188-200 | The queue and the broker's answers determine the share |
| Delivering.Worker.Scan | kanz/internal/auditdelivery/worker.go:166-210 | Visits every named tenant once, in order, with consecutive attempts; each gets its share; healthy exactly when every share is; the reported backlog is what is still queued; everything removed was published |
| Delivering.NextTenant | kanz/internal/auditdelivery/worker.go:174-187 | The least directory entry after the cursor |
| Registries.ScrubbedMeaning | kanz-py/kanz_inference/registry/registry.py:286-296 | Scrubbing takes exactly one model out of both indexes |
| Registries.RegisterGivesRole | kanz-py/kanz_inference/registry/registry.py:211-223 | A registration gives the role asked for and moves no other model but the replaced primary |
| Registries.UnregisterTakesRole | kanz-py/kanz_inference/registry/registry.py:278-296 | An unregistered model has no role and no other role changes |
| Registries.RunKeeps | kanz-py/kanz_inference/registry/registry.py:163-223 | In every run the indexes name only registered models of their feature set, no model has two roles, shadow lists have no duplicates |
| Registries.PrimaryWasValidated | kanz-py/kanz_inference/registry/registry.py:202-209 | Whoever is primary at any moment was put there by a registration under a current passing validation |
| Registries.PromotionSwaps | kanz-py/kanz_inference/governance/promotion.py:232-236 | Promotion exchanges two roles, keeps the members of the feature set and touches no other |
| Registries.Registry.Register | kanz-py/kanz_inference/registry/registry.py:163-223 | Accepted, the model is stored and is primary of its feature set if asked, else in its shadow list, whether new or known; no other role changes but that of the primary it replaces; refused, nothing changes |
| Registries.Registry.Unregister | kanz-py/kanz_inference/registry/registry.py:278-284 | Forgets the model and its roles; every other model keeps its role |
| Registries.Registry.RecordValidation | kanz-py/kanz_inference/registry/registry.py:225-236 | Refuses an empty identifier; otherwise the latest record wins and no role changes |
| Registries.Registry.RemoveFromRoleIndexes | kanz-py/kanz_inference/registry/registry.py:286-296 | Entry by entry, exactly the scrubbed indexes |
| Promoting.BeatsIsTheGate | kanz-py/kanz_inference/governance/promotion.py:215-220 | The gate on squared errors is the gate on root mean square errors |
| Promoting.MeanSquareOrders | kanz-py/kanz_inference/governance/promotion.py:226-227 | Mean squared errors order challengers as their roots do |
| Promoting.FindBest | kanz-py/kanz_inference/governance/promotion.py:194-227 | The first challenger of least error among those that pass every gate, or none passes |
| Promoting.PassesIff | kanz-py/kanz_inference/governance/promotion.py:194-220 | A tally qualifies exactly when the calls that made it pass the gates |
| Promoting.Evaluate | kanz-py/kanz_inference/governance/promotion.py:181-242 | On the calls made to the store: promotes a challenger of least mean squared error among those whose summed errors, counts and validation pass the gates, if still validated at the swap; otherwise changes nothing |
| Promoting.ComparisonStore.Observe | kanz-py/kanz_inference/governance/promotion.py:94-109 | The tallies go on telling the log of calls: observations, sign disagreements and summed distance of each pair; the pending prediction is the latest |
| Promoting.ComparisonStore.RecordOutcome | kanz-py/kanz_inference/governance/promotion.py:111-123 | Scores each waiting pair exactly once and no other; over the log of calls a pair's champion error is the sum of squared distances of the champion's predictions from the outcomes, the challenger error that of the challenger's |
| FeatureStores.Bisect | kanz-py/kanz_inference/featurestore/store.py:160-165 | The boundary between keys before and after the target |
| FeatureStores.InMemoryFeatureStore.Get | kanz-py/kanz_inference/featurestore/store.py:146-168 | The answer of the query on the plain table |
| FeatureStores.InMemoryFeatureStore.PutVector | kanz-py/kanz_inference/featurestore/store.py:170-186 | Insert or replace on the plain table; arrays stay parallel and strictly sorted |
| FeatureStores.Replay | kanz-py/kanz_inference/featurestore/sqlite_store.py:113-156 | After any puts both stores answer every point-in-time query alike: the last put for the newest time within the bound |
| FeatureStores.AnswersAreOfPuts | kanz-py/kanz_inference/featurestore/sqlite_store.py:113-156 | The query answers with the last put for the newest time within the bound, and with nothing exactly when no put is within it |
| FeatureStores.OneAnswer | kanz-py/kanz_inference/featurestore/sqlite_store.py:113-137 | The query has one answer |
| FeatureStores.PutsCommute | kanz-py/kanz_inference/featurestore/sqlite_store.py:139-156 | Puts at different times, or for different subjects, commute |
| FeatureStores.NoFutureLeakage | kanz-py/kanz_inference/featurestore/store.py:160-168 | A vector later than the bound, by seconds and then nanoseconds, cannot change the answer |
| Explaining.Explain | kanz-py/kanz_inference/explain/explainer.py:89-117 | With the memo, each feature gets its average change over the orders drawn, and all of them add up to the model at the values less the model at the baseline |
| Explaining.Walk | kanz-py/kanz_inference/explain/explainer.py:106-115 | One order credits each feature its change, once |
| Explaining.Predict | kanz-py/kanz_inference/explain/explainer.py:97-102 | The memo never changes a prediction |
| Explaining.BuildCoalition | kanz-py/kanz_inference/explain/explainer.py:119-131 | Present features keep their values, absent ones take their baseline or are dropped |
| Explaining.Efficiency | kanz-py/kanz_inference/explain/explainer.py:89-117 | Contributions add up to prediction less baseline prediction, for any model and orders |
| Explaining.AdditiveIsExact | kanz-py/kanz_inference/explain/explainer.py:89-117 | Where features act independently every sample gives each exactly its own amount |
| Explaining.Predicted | kanz-py/kanz_inference/models/linear.py:117-139 | The score, or zero and degraded when a weighed feature is missing |
| Explaining.LinearIsExact | kanz-py/kanz_inference/service.py:152-179 | Against the zero baseline each feature gets weight times value, whatever the orders |
| Explaining.ExplainLinear | kanz-py/kanz_inference/service.py:152-179 | The explainer run on a linear model gives exactly those amounts, which add up to the score less the bias |
| Explaining.DroppingCreditsTheLast | kanz-py/kanz_inference/service.py:155-161 | Dropping instead of zeroing credits everything to the last weighed feature of the order and nothing to any other |
| Imports.IndexByName | kanz-schemas/tools/registry-ingest/main.go:51-54 | Exactly the names of the files, each with the last file of that name |
| Imports.Walker.Walk | kanz-schemas/tools/registry-ingest/main.go:92-108 | Marks and lists what is newly reached, each once, after its imports |
| Imports.MarshalSubset | kanz-schemas/tools/registry-ingest/main.go:88-113 | Fails exactly when a reachable import is missing; lists exactly the reachable files, each once, imports first when acyclic |
| Imports.ClosedIsComplete | kanz-schemas/tools/registry-ingest/main.go:88-113 | A set closed under imports holds everything reachable |

## Left out

- Optimizing.OptimizeConstrained: the bit bounds inside a pivot and for printing are arbitrary predicates on numbers rather than 8192 and 512 bits; the exact-text codec appears there as a decoded number.
- Gaussian.SolveGaussian: works on values instead of overwriting the caller's two slices, which no caller reads afterwards; floating-point rounding is not modelled.
- Verifying.VerifyModel: looks edges up by index instead of by copy and search.
- Delivering.Worker.Scan: failing database queries, which only end a scan early, the age gauge and the wait for notifications are not modelled.
- Delivering.Worker.DeliverOne: the constant fields of the event (subject, type, class, domain, version, schema reference) and its ingestion time, the same as its event time, are not modelled.
- Promoting.Evaluate: the per-candidate reasons are not modelled.
- Consumers.Consumer.Deliver: subjects, other headers and lineage propagation are not modelled.
- Registries.Registry.Register: models are opaque and the confidence threshold and artifact address are not carried.
- Registry replication (`coordination.py`), where replicas do not re-apply events in log order.
- The floating-point margin calculator, SIMM, financing and fund metrics, which rest on square roots and powers.
- Identifiers are taken as valid UTF-8, where byte order and code point order agree.
- `Level`, `Quartile`, `ParseExact`, `ParseProtoExact`, `list_models` and the other one-line lookups, which would only add easy members.
- Compliance rules, cash views, protobuf framing, envelope validation, broker, database and HTTP clients, and the user interface.
