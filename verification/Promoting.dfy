/**
 Gated promotion: the comparison of champion and challengers, and the promoter that picks the
 challenger with the least error among those that pass every gate. Root mean square errors are
 compared through their squares.
 */
module Promoting {

  import opened Registries
  import opened Wrappers

  type Pair = (string, string)

  datatype Gates = Gates(minObservations: int, minScored: int, margin: real)

  datatype Tally = Tally(observations: nat, divergence: real, disagreements: nat, scored: nat, primaryError: real, challengerError: real)

  const Untallied := Tally(0, 0.0, 0, 0, 0.0, 0.0)

  /** What the comparison says of a pair; zero when never observed. */
  function TallyOf(tallies: map<Pair, Tally>, p: Pair): Tally {
    if p in tallies then tallies[p] else Untallied
  }

  function Square(x: real): (y: real)
    ensures y >= 0.0
  {
    x * x
  }

  /** The challenger's mean squared error, the square of its root mean square error. */
  function MeanSquare(t: Tally): real
    requires t.scored > 0
  {
    t.challengerError / t.scored as real
  }

  /** The challenger's root mean square error beats the champion's by the margin, said of the squared errors they share. */
  predicate Beats(t: Tally, margin: real) {
    t.challengerError <= t.primaryError * Square(1.0 - margin)
  }

  /** The challenger has soaked, is scored, is currently validated and beats the champion by the margin. */
  predicate Qualifies(s: State, g: Gates, t: Tally, id: string, now: int) {
    && t.observations >= g.minObservations && t.scored >= g.minScored && Validated(s, id, now)
    && t.scored > 0 && Beats(t, g.margin)
  }

  datatype Decision = NoPrimary | Kept(champion: string) | Promotion(winner: string, champion: string) | Raised(winner: string)

  /** `w` is the first challenger with the least error among those that qualify. */
  ghost predicate Best(s: State, g: Gates, tallies: map<Pair, Tally>, champion: string, ids: seq<string>, now: int, k: nat)
    requires k < |ids|
  {
    && Qualifies(s, g, TallyOf(tallies, (champion, ids[k])), ids[k], now)
    && var least := MeanSquare(TallyOf(tallies, (champion, ids[k])));
       && (forall i :: 0 <= i < |ids| && Qualifies(s, g, TallyOf(tallies, (champion, ids[i])), ids[i], now) ==>
             least <= MeanSquare(TallyOf(tallies, (champion, ids[i]))))
       && (forall i :: 0 <= i < k && Qualifies(s, g, TallyOf(tallies, (champion, ids[i])), ids[i], now) ==>
             least < MeanSquare(TallyOf(tallies, (champion, ids[i]))))
  }

  ghost predicate IsBest(s: State, g: Gates, tallies: map<Pair, Tally>, champion: string, ids: seq<string>, now: int, w: string) {
    exists k :: 0 <= k < |ids| && ids[k] == w && Best(s, g, tallies, champion, ids, now, k)
  }

  ghost predicate NoneQualifies(s: State, g: Gates, tallies: map<Pair, Tally>, champion: string, ids: seq<string>, now: int) {
    forall i :: 0 <= i < |ids| ==> !Qualifies(s, g, TallyOf(tallies, (champion, ids[i])), ids[i], now)
  }

  /** The best of the challengers, if any qualifies. */
  method FindBest(s: State, g: Gates, tallies: map<Pair, Tally>, champion: string, ids: seq<string>, now: int)
      returns (best: Option<nat>)
    ensures if best.None? then NoneQualifies(s, g, tallies, champion, ids, now)
            else best.value < |ids| && Best(s, g, tallies, champion, ids, now, best.value)
  {
    best := None;
    for i := 0 to |ids|
      invariant if best.None? then NoneQualifies(s, g, tallies, champion, ids[..i], now)
                else best.value < i && Best(s, g, tallies, champion, ids[..i], now, best.value)
    {
      var c := TallyOf(tallies, (champion, ids[i]));
      assert ids[..i + 1] == ids[..i] + [ids[i]];
      if c.observations < g.minObservations || c.scored < g.minScored || !Validated(s, ids[i], now) {
        continue;
      }
      if c.scored == 0 || !Beats(c, g.margin) {
        continue;
      }
      if best.None? || MeanSquare(c) < MeanSquare(TallyOf(tallies, (champion, ids[best.value]))) {
        best := Some(i);
      }
    }
    assert ids[..|ids|] == ids;
  }

  /** The evaluation on given tallies. */
  method EvaluateTallies(registry: Registry, tallies: map<Pair, Tally>, f: string, g: Gates, now: int, swap: int)
    returns (decision: Decision)
    requires Inv(registry.Contents())
    modifies registry
    ensures Inv(registry.Contents())
    ensures Members(registry.Contents(), f) == Members(old(registry.Contents()), f)
    ensures OthersUntouched(old(registry.Contents()), registry.Contents(), f) && registry.byId == old(registry.byId)
    ensures var s := old(registry.Contents()); match decision
      case NoPrimary => f !in s.primary && registry.Contents() == s
      case Kept(c) =>
        && f in s.primary && c == s.primary[f] && registry.Contents() == s
        && NoneQualifies(s, g, tallies, c, Listed(s.shadows, f), now)
      case Raised(w) =>
        && f in s.primary && registry.Contents() == s && IsBest(s, g, tallies, s.primary[f], Listed(s.shadows, f), now, w)
        && Validated(s, w, now) && !Validated(s, w, swap)
      case Promotion(w, c) =>
        && f in s.primary && c == s.primary[f] && f in registry.primaryFor && registry.primaryFor[f] == w
        && IsBest(s, g, tallies, c, Listed(s.shadows, f), now, w)
        && Validated(s, w, swap) && c in Listed(registry.shadowsFor, f)
  {
    ghost var s := registry.Contents();
    if f !in registry.primaryFor {
      return NoPrimary;
    }
    var c := registry.primaryFor[f];
    assert Serves(s, f, c);
    var ids := Listed(registry.shadowsFor, f);
    var view := State(registry.byId, registry.primaryFor, registry.shadowsFor, registry.validations);
    var best := FindBest(view, g, tallies, c, ids, now);
    if best.None? {
      return Kept(c);
    }
    var w := ids[best.value];
    assert Serves(s, f, w);
    PromotionSwaps(s, f, w);
    var swapped := SwapRoles(registry, w, c, swap);
    return if swapped then Promotion(w, c) else Raised(w);
  }

  /** Registers the winner as primary and, if that is accepted, the champion as shadow. */
  method SwapRoles(registry: Registry, w: string, c: string, swap: int) returns (swapped: bool)
    requires Inv(registry.Contents()) && w in registry.byId && c in registry.byId
    modifies registry
    ensures swapped <==> Validated(old(registry.Contents()), w, swap)
    ensures registry.Contents() ==
            if swapped then Promoted(old(registry.Contents()), old(registry.byId)[w], old(registry.byId)[c]) else old(registry.Contents())
  {
    var champion, winner := registry.byId[c], registry.byId[w];
    assert WellFormed(winner.metadata) && winner.metadata.id == w && WellFormed(champion.metadata);
    swapped := registry.Register(winner, true, swap);
    if swapped {
      var kept := registry.Register(champion, false, swap);
    }
  }

  // Comparing without roots

  lemma SquaresOrder(a: real, b: real, aa: real, bb: real)
    requires a >= 0.0 && b >= 0.0 && aa == a * a && bb == b * b
    ensures a <= b <==> aa <= bb
  {
    var up, sum := b - a, b + a;
    var product := up * sum;
    assert product == bb - aa;
    if up > 0.0 {
      PositiveProduct(up, sum, product);
    } else if up < 0.0 {
      PositiveProduct(-up, sum, -product);
    }
  }

  lemma PositiveProduct(a: real, b: real, product: real)
    requires a > 0.0 && b > 0.0 && product == a * b
    ensures product > 0.0
  {
  }

  lemma ScaledOrder(a: real, b: real, n: real, an: real, bn: real)
    requires n > 0.0 && an == a * n && bn == b * n
    ensures a <= b <==> an <= bn
  {
    var gap := b - a;
    var product := gap * n;
    assert product == bn - an;
    if gap > 0.0 {
      PositiveProduct(gap, n, product);
    } else if gap < 0.0 {
      PositiveProduct(-gap, n, -product);
    }
  }

  /** The gate on squared errors is the gate on root mean square errors. */
  lemma BeatsIsTheGate(t: Tally, margin: real, primary: real, challenger: real)
    requires t.scored > 0 && 0.0 <= margin < 1.0 && primary >= 0.0 && challenger >= 0.0
    requires Square(primary) * t.scored as real == t.primaryError && Square(challenger) * t.scored as real == t.challengerError
    ensures challenger <= primary * (1.0 - margin) <==> Beats(t, margin)
  {
    var rest, n := 1.0 - margin, t.scored as real;
    var bound := primary * rest;
    NonnegativeBound(primary, rest, bound);
    var p, c, r := Square(primary), Square(challenger), Square(rest);
    assert Square(bound) == p * r by {
      Regrouped(primary, rest);
    }
    SquaresOrder(challenger, bound, c, Square(bound));
    ScaledOrder(c, p * r, n, t.challengerError, t.primaryError * r);
  }

  lemma NonnegativeBound(a: real, b: real, product: real)
    requires a >= 0.0 && b >= 0.0 && product == a * b
    ensures product >= 0.0
  {
  }

  lemma Regrouped(a: real, b: real)
    ensures Square(a * b) == Square(a) * Square(b)
  {
    var ab := a * b;
    assert ab * ab == a * a * (b * b);
  }

  /** Mean squared errors order challengers as their roots do. */
  lemma MeanSquareOrders(s: Tally, t: Tally, rs: real, rt: real)
    requires s.scored > 0 && t.scored > 0 && rs >= 0.0 && rt >= 0.0
    requires Square(rs) == MeanSquare(s) && Square(rt) == MeanSquare(t)
    ensures rs < rt <==> MeanSquare(s) < MeanSquare(t)
  {
    SquaresOrder(rt, rs, Square(rt), Square(rs));
  }

  // The comparison store

  type Predictions = map<Pair, (real, real)>

  /** The subjects whose outcome the pair still waits for. */
  ghost function Waiting(pending: map<string, Predictions>, p: Pair): set<string> {
    set s | s in pending && p in pending[s]
  }

  /** No pair is scored, or waits to be scored, more often than it was observed. */
  ghost predicate Balanced(tallies: map<Pair, Tally>, pending: map<string, Predictions>) {
    forall p :: Even(tallies, pending, p)
  }

  ghost predicate Even(tallies: map<Pair, Tally>, pending: map<string, Predictions>, p: Pair) {
    && TallyOf(tallies, p).scored + |Waiting(pending, p)| <= TallyOf(tallies, p).observations
    && TallyOf(tallies, p).disagreements <= TallyOf(tallies, p).observations
    && TallyOf(tallies, p).primaryError >= 0.0 && TallyOf(tallies, p).challengerError >= 0.0
  }

  function Observed(t: Tally, primary: real, shadow: real): Tally {
    t.(observations := t.observations + 1,
       divergence := t.divergence + (if shadow < primary then primary - shadow else shadow - primary),
       disagreements := t.disagreements + if primary * shadow < 0.0 then 1 else 0)
  }

  function Scored(t: Tally, predictions: (real, real), actual: real): Tally {
    t.(scored := t.scored + 1, primaryError := t.primaryError + Square(predictions.0 - actual),
       challengerError := t.challengerError + Square(predictions.1 - actual))
  }

  /** The pairs that waited, except those still left, have been scored once; the others are as they were. */
  ghost predicate ScoredWith(before: map<Pair, Tally>, after: map<Pair, Tally>, waiting: Predictions, left: set<Pair>, actual: real) {
    && (forall p :: p in waiting && p !in left ==> TallyOf(after, p) == Scored(TallyOf(before, p), waiting[p], actual))
    && (forall p :: p !in waiting || p in left ==> TallyOf(after, p) == TallyOf(before, p))
  }

  lemma WaitingGrows(pending: map<string, Predictions>, subject: string, now: Predictions, p: Pair, q: Pair)
    requires forall r :: r != p ==> (r in now <==> subject in pending && r in pending[subject])
    ensures |Waiting(pending[subject := now], q)| <= |Waiting(pending, q)| + if q == p then 1 else 0
  {
    var before, after := Waiting(pending, q), Waiting(pending[subject := now], q);
    if q == p {
      var more := {subject};
      assert after <= before + more;
      SubsetSize(after, before + more);
    } else {
      assert after == before;
    }
  }

  lemma WaitingShrinks(pending: map<string, Predictions>, subject: string, q: Pair)
    requires subject in pending
    ensures |Waiting(pending - {subject}, q)| == |Waiting(pending, q)| - if q in pending[subject] then 1 else 0
  {
    assert Waiting(pending - {subject}, q) == Waiting(pending, q) - {subject};
  }

  // What the tallies say of the calls made

  /** A comparison of the two predictions for a subject, or the subject's realised value. */
  datatype Call = Compared(subject: string, pair: Pair, primary: real, challenger: real) | Realised(subject: string, actual: real)

  /** The pair's latest predictions for the subject since its value was last realised. */
  ghost function LatestOf(log: seq<Call>, subject: string, p: Pair): Option<(real, real)> {
    if |log| == 0 then None
    else
      var last, before := log[|log| - 1], log[..|log| - 1];
      if last.subject != subject then LatestOf(before, subject, p)
      else if last.Realised? then None
      else if last.pair == p then Some((last.primary, last.challenger))
      else LatestOf(before, subject, p)
  }

  /** How often the pair was compared, and how often with predictions of opposite sign. */
  ghost function ComparedIn(log: seq<Call>, p: Pair): nat {
    if |log| == 0 then 0
    else ComparedIn(log[..|log| - 1], p) + if log[|log| - 1].Compared? && log[|log| - 1].pair == p then 1 else 0
  }

  ghost predicate Opposed(a: real, b: real) {
    (a < 0.0 && b > 0.0) || (a > 0.0 && b < 0.0)
  }

  ghost function OpposedIn(log: seq<Call>, p: Pair): nat {
    if |log| == 0 then 0
    else
      var last := log[|log| - 1];
      OpposedIn(log[..|log| - 1], p) + if last.Compared? && last.pair == p && Opposed(last.primary, last.challenger) then 1 else 0
  }

  ghost function DistanceIn(log: seq<Call>, p: Pair): real {
    if |log| == 0 then 0.0
    else
      var last := log[|log| - 1];
      DistanceIn(log[..|log| - 1], p)
      + if last.Compared? && last.pair == p
        then (if last.primary <= last.challenger then last.challenger - last.primary else last.primary - last.challenger) else 0.0
  }

  /** A realised value scores the pair when predictions wait for it. */
  ghost predicate ScoredBy(log: seq<Call>, i: nat, p: Pair)
    requires i < |log|
  {
    log[i].Realised? && LatestOf(log[..i], log[i].subject, p).Some?
  }

  ghost function ScoredIn(log: seq<Call>, p: Pair): nat {
    if |log| == 0 then 0
    else ScoredIn(log[..|log| - 1], p) + if ScoredBy(log, |log| - 1, p) then 1 else 0
  }

  /** The sum, over the values that scored the pair, of the champion's squared error. */
  ghost function ChampionErrorIn(log: seq<Call>, p: Pair): real {
    if |log| == 0 then 0.0
    else
      var last, before := log[|log| - 1], log[..|log| - 1];
      ChampionErrorIn(before, p)
      + if ScoredBy(log, |log| - 1, p)
        then (LatestOf(before, last.subject, p).value.0 - last.actual) * (LatestOf(before, last.subject, p).value.0 - last.actual) else 0.0
  }

  /** The sum, over the values that scored the pair, of the challenger's squared error. */
  ghost function ChallengerErrorIn(log: seq<Call>, p: Pair): real {
    if |log| == 0 then 0.0
    else
      var last, before := log[|log| - 1], log[..|log| - 1];
      ChallengerErrorIn(before, p)
      + if ScoredBy(log, |log| - 1, p)
        then (LatestOf(before, last.subject, p).value.1 - last.actual) * (LatestOf(before, last.subject, p).value.1 - last.actual) else 0.0
  }

  /** The tally of a pair is what the calls add up to. */
  ghost predicate TallyTells(log: seq<Call>, p: Pair, t: Tally) {
    && t.observations == ComparedIn(log, p) && t.disagreements == OpposedIn(log, p) && t.divergence == DistanceIn(log, p)
    && t.scored == ScoredIn(log, p) && t.primaryError == ChampionErrorIn(log, p) && t.challengerError == ChallengerErrorIn(log, p)
  }

  ghost predicate Tells(log: seq<Call>, tallies: map<Pair, Tally>) {
    forall p :: TallyTells(log, p, TallyOf(tallies, p))
  }

  ghost function PendingOf(pending: map<string, Predictions>, subject: string, p: Pair): Option<(real, real)> {
    if subject in pending && p in pending[subject] then Some(pending[subject][p]) else None
  }

  ghost predicate Awaits(log: seq<Call>, pending: map<string, Predictions>) {
    forall subject, p :: PendingOf(pending, subject, p) == LatestOf(log, subject, p)
  }

  lemma LastCall(log: seq<Call>, call: Call)
    ensures (log + [call])[..|log|] == log && (log + [call])[|log|] == call
  {
  }

  lemma OppositeSigns(a: real, b: real)
    ensures a * b < 0.0 <==> Opposed(a, b)
  {
    var product := a * b;
    if a > 0.0 && b > 0.0 {
      PositiveProduct(a, b, product);
    } else if a < 0.0 && b < 0.0 {
      PositiveProduct(-a, -b, product);
    } else if a > 0.0 && b < 0.0 {
      PositiveProduct(a, -b, -product);
    } else if a < 0.0 && b > 0.0 {
      PositiveProduct(-a, b, -product);
    }
  }

  lemma ComparedTells(log: seq<Call>, call: Call, tallies: map<Pair, Tally>)
    requires call.Compared? && Tells(log, tallies)
    ensures Tells(log + [call], tallies[call.pair := Observed(TallyOf(tallies, call.pair), call.primary, call.challenger)])
  {
    var more, after := log + [call], tallies[call.pair := Observed(TallyOf(tallies, call.pair), call.primary, call.challenger)];
    LastCall(log, call);
    OppositeSigns(call.primary, call.challenger);
    forall p ensures TallyTells(more, p, TallyOf(after, p)) {
      assert TallyTells(log, p, TallyOf(tallies, p));
      assert !ScoredBy(more, |log|, p);
    }
  }

  lemma ComparedAwaits(log: seq<Call>, call: Call, pending: map<string, Predictions>)
    requires call.Compared? && Awaits(log, pending)
    ensures var now := (if call.subject in pending then pending[call.subject] else map[])[call.pair := (call.primary, call.challenger)];
            Awaits(log + [call], pending[call.subject := now])
  {
    var now := (if call.subject in pending then pending[call.subject] else map[])[call.pair := (call.primary, call.challenger)];
    LastCall(log, call);
    forall subject, p
      ensures PendingOf(pending[call.subject := now], subject, p) == LatestOf(log + [call], subject, p)
    {
      assert PendingOf(pending, subject, p) == LatestOf(log, subject, p);
    }
  }

  lemma RealisedAwaits(log: seq<Call>, call: Call, pending: map<string, Predictions>)
    requires call.Realised? && Awaits(log, pending)
    ensures Awaits(log + [call], pending - {call.subject})
  {
    LastCall(log, call);
    forall subject, p
      ensures PendingOf(pending - {call.subject}, subject, p) == LatestOf(log + [call], subject, p)
    {
      assert PendingOf(pending, subject, p) == LatestOf(log, subject, p);
    }
  }

  lemma RealisedTells(log: seq<Call>, call: Call, before: map<Pair, Tally>, after: map<Pair, Tally>, pending: map<string, Predictions>)
    requires call.Realised? && Tells(log, before) && Awaits(log, pending)
    requires if call.subject in pending then ScoredWith(before, after, pending[call.subject], {}, call.actual) else after == before
    ensures Tells(log + [call], after)
  {
    var more := log + [call];
    LastCall(log, call);
    forall p ensures TallyTells(more, p, TallyOf(after, p)) {
      assert TallyTells(log, p, TallyOf(before, p));
      assert PendingOf(pending, call.subject, p) == LatestOf(log, call.subject, p);
      assert ScoredBy(more, |log|, p) <==> call.subject in pending && p in pending[call.subject];
      if call.subject in pending && p in pending[call.subject] {
        ScoredTells(log, call, p, TallyOf(before, p), pending[call.subject][p]);
        assert TallyOf(after, p) == Scored(TallyOf(before, p), pending[call.subject][p], call.actual);
      } else {
        assert TallyOf(after, p) == TallyOf(before, p);
      }
    }
  }

  lemma ScoredTells(log: seq<Call>, call: Call, p: Pair, t: Tally, predictions: (real, real))
    requires call.Realised? && TallyTells(log, p, t) && LatestOf(log, call.subject, p) == Some(predictions)
    ensures TallyTells(log + [call], p, Scored(t, predictions, call.actual))
  {
    LastCall(log, call);
    assert ScoredBy(log + [call], |log|, p);
  }

  class ComparisonStore {
    var tallies: map<Pair, Tally>
    var pending: map<string, Predictions>
    ghost var log: seq<Call>

    ghost predicate Valid()
      reads this
    {
      Balanced(tallies, pending) && Tells(log, tallies) && Awaits(log, pending)
    }

    constructor ()
      ensures Valid() && tallies == map[] && pending == map[] && log == []
    {
      tallies, pending, log := map[], map[], [];
      new;
      assert forall p :: Waiting(pending, p) == {};
    }

    /** Counts one comparison and leaves it waiting for the subject's outcome; the latest prediction wins. */
    method Observe(subject: string, p: Pair, primary: real, shadow: real)
      requires Valid()
      modifies this
      ensures Valid() && log == old(log) + [Compared(subject, p, primary, shadow)]
      ensures tallies == old(tallies)[p := Observed(TallyOf(old(tallies), p), primary, shadow)]
      ensures pending == old(pending)[subject :=
        (if subject in old(pending) then old(pending)[subject] else map[])[p := (primary, shadow)]]
    {
      ghost var call := Compared(subject, p, primary, shadow);
      ComparedTells(log, call, tallies);
      ComparedAwaits(log, call, pending);
      log := log + [call];
      tallies := tallies[p := Observed(TallyOf(tallies, p), primary, shadow)];
      var now: Predictions := if subject in pending then pending[subject] else map[];
      now := now[p := (primary, shadow)];
      pending := pending[subject := now];
      forall q ensures Even(tallies, pending, q) {
        assert Even(old(tallies), old(pending), q);
        WaitingGrows(old(pending), subject, now, p, q);
      }
    }

    /** Scores every pair that waits for the subject, each once. */
    method RecordOutcome(subject: string, actual: real)
      requires Valid()
      modifies this
      ensures Valid() && log == old(log) + [Realised(subject, actual)] && pending == old(pending) - {subject}
      ensures subject !in old(pending) ==> tallies == old(tallies)
      ensures subject in old(pending) ==> ScoredWith(old(tallies), tallies, old(pending)[subject], {}, actual)
    {
      ghost var call := Realised(subject, actual);
      RealisedAwaits(log, call, pending);
      if subject in pending {
        ScoreAll(pending[subject], actual);
        OutcomeBalances(old(tallies), tallies, pending, subject, actual);
      } else {
        assert pending - {subject} == pending;
      }
      RealisedTells(log, call, old(tallies), tallies, pending);
      pending := pending - {subject};
      log := log + [call];
    }

    method ScoreAll(waiting: Predictions, actual: real)
      modifies this`tallies
      ensures ScoredWith(old(tallies), tallies, waiting, {}, actual)
    {
      var left := waiting.Keys;
      while left != {}
        invariant left <= waiting.Keys && ScoredWith(old(tallies), tallies, waiting, left, actual)
        decreases |left|
      {
        var p :| p in left;
        left := left - {p};
        tallies := tallies[p := Scored(TallyOf(tallies, p), waiting[p], actual)];
      }
    }
  }

  lemma OutcomeBalances(before: map<Pair, Tally>, after: map<Pair, Tally>, pending: map<string, Predictions>, subject: string, actual: real)
    requires Balanced(before, pending) && subject in pending && ScoredWith(before, after, pending[subject], {}, actual)
    ensures Balanced(after, pending - {subject})
  {
    forall q ensures Even(after, pending - {subject}, q) {
      assert Even(before, pending, q);
      WaitingShrinks(pending, subject, q);
    }
  }

  // Promotion, said of the calls

  /** The challenger passes every gate: compared and scored often enough, validated, and at least the margin better. */
  ghost predicate Passes(log: seq<Call>, s: State, g: Gates, champion: string, id: string, now: int) {
    var p := (champion, id);
    && ComparedIn(log, p) >= g.minObservations && ScoredIn(log, p) >= g.minScored && ScoredIn(log, p) > 0
    && id in s.validations && s.validations[id].passed && s.validations[id].expiresAt > now
    && ChallengerErrorIn(log, p) <= ChampionErrorIn(log, p) * ((1.0 - g.margin) * (1.0 - g.margin))
  }

  ghost function MeanErrorIn(log: seq<Call>, p: Pair): real
    requires ScoredIn(log, p) > 0
  {
    ChallengerErrorIn(log, p) / ScoredIn(log, p) as real
  }

  /** `w` passes, and no challenger that passes has a smaller mean error. */
  ghost predicate BestToPass(log: seq<Call>, s: State, g: Gates, champion: string, ids: seq<string>, now: int, w: string) {
    && w in ids && Passes(log, s, g, champion, w, now)
    && forall id :: id in ids && Passes(log, s, g, champion, id, now) ==>
         MeanErrorIn(log, (champion, w)) <= MeanErrorIn(log, (champion, id))
  }

  lemma PassesIff(log: seq<Call>, tallies: map<Pair, Tally>, s: State, g: Gates, champion: string, id: string, now: int)
    requires Tells(log, tallies)
    ensures Qualifies(s, g, TallyOf(tallies, (champion, id)), id, now) <==> Passes(log, s, g, champion, id, now)
    ensures Passes(log, s, g, champion, id, now) ==>
              MeanSquare(TallyOf(tallies, (champion, id))) == MeanErrorIn(log, (champion, id))
  {
    assert TallyTells(log, (champion, id), TallyOf(tallies, (champion, id)));
  }

  lemma BestPasses(log: seq<Call>, tallies: map<Pair, Tally>, s: State, g: Gates, champion: string, ids: seq<string>, now: int, w: string)
    requires Tells(log, tallies) && IsBest(s, g, tallies, champion, ids, now, w)
    ensures BestToPass(log, s, g, champion, ids, now, w)
  {
    var k :| 0 <= k < |ids| && ids[k] == w && Best(s, g, tallies, champion, ids, now, k);
    PassesIff(log, tallies, s, g, champion, w, now);
    forall id | id in ids && Passes(log, s, g, champion, id, now)
      ensures MeanErrorIn(log, (champion, w)) <= MeanErrorIn(log, (champion, id))
    {
      PassesIff(log, tallies, s, g, champion, id, now);
      var i :| 0 <= i < |ids| && ids[i] == id;
    }
  }

  lemma NonePasses(log: seq<Call>, tallies: map<Pair, Tally>, s: State, g: Gates, champion: string, ids: seq<string>, now: int)
    requires Tells(log, tallies) && NoneQualifies(s, g, tallies, champion, ids, now)
    ensures forall id :: id in ids ==> !Passes(log, s, g, champion, id, now)
  {
    forall id | id in ids ensures !Passes(log, s, g, champion, id, now) {
      PassesIff(log, tallies, s, g, champion, id, now);
      var i :| 0 <= i < |ids| && ids[i] == id;
    }
  }

  /** What an evaluation decided, from the registry before it and the calls to the store. */
  ghost predicate Decided(log: seq<Call>, s: State, n: State, f: string, g: Gates, now: int, swap: int, decision: Decision) {
    match decision
    case NoPrimary => f !in s.primary && n == s
    case Kept(c) =>
      f in s.primary && c == s.primary[f] && n == s && forall id :: id in Listed(s.shadows, f) ==> !Passes(log, s, g, c, id, now)
    case Raised(w) =>
      && f in s.primary && n == s && BestToPass(log, s, g, s.primary[f], Listed(s.shadows, f), now, w)
      && s.validations[w].expiresAt <= swap
    case Promotion(w, c) =>
      && f in s.primary && c == s.primary[f] && BestToPass(log, s, g, c, Listed(s.shadows, f), now, w)
      && s.validations[w].expiresAt > swap && f in n.primary && n.primary[f] == w && c in Listed(n.shadows, f)
  }

  /**
   One evaluation. `now` is the promoter's clock, `swap` the registry's when it checks again: a
   validation that lapses in between makes the registration raise, with nothing changed.
   */
  method Evaluate(registry: Registry, store: ComparisonStore, f: string, g: Gates, now: int, swap: int) returns (decision: Decision)
    requires Inv(registry.Contents()) && store.Valid() && 0.0 <= g.margin < 1.0
    modifies registry
    ensures Inv(registry.Contents())
    ensures Members(registry.Contents(), f) == Members(old(registry.Contents()), f)
    ensures OthersUntouched(old(registry.Contents()), registry.Contents(), f) && registry.byId == old(registry.byId)
    ensures Decided(store.log, old(registry.Contents()), registry.Contents(), f, g, now, swap, decision)
  {
    ghost var s := registry.Contents();
    ghost var log, tallies := store.log, store.tallies;
    assert Tells(log, tallies);
    decision := EvaluateTallies(registry, store.tallies, f, g, now, swap);
    match decision
    case NoPrimary =>
    case Kept(c) => NonePasses(log, tallies, s, g, c, Listed(s.shadows, f), now);
    case Raised(w) => BestPasses(log, tallies, s, g, s.primary[f], Listed(s.shadows, f), now, w);
    case Promotion(w, c) => BestPasses(log, tallies, s, g, c, Listed(s.shadows, f), now, w);
  }
}
