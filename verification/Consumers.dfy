/**
 The bus consumer: unframe and validate, drop duplicates inside the dedup window, retry the
 handler a bounded number of times, park what cannot be handled on the dead letter queue.

 Deliveries of one consumer interleave wherever the wrapper awaits. The machine below steps
 from one await to the next, so its runs are all the interleavings.
 */
module Consumers {

  import opened Dedup
  import opened Wrappers

  /** What unframing and validation make of a message. */
  datatype Message = Malformed | Keyed(key: string)

  datatype Config = Config(maxAttempts: nat, dlq: bool, ttl: real, max: int) {
    predicate Disabled() {
      ttl <= 0.0 || max <= 0
    }

    ghost predicate Valid() {
      maxAttempts >= 1
    }
  }

  /** Where a delivery stands: the four awaits, and the two ways the wrapper ends. */
  datatype Stage =
    | Running(attempt: nat)   // awaiting the handler
    | Sleeping(attempt: nat)  // backing off after a failed attempt
    | Parking(attempts: nat)  // awaiting the dead letter queue
    | Acked                   // the wrapper returned
    | Surfaced                // the wrapper raised: the broker keeps the message

  datatype Delivery = Delivery(message: Message, stage: Stage, runs: nat)

  /** A terminal effect: the handler succeeded, or the message reached the dead letter queue. */
  datatype Event =
    | Succeeded(delivery: nat, key: string, at: real)
    | Parked(delivery: nat, message: Message, attempts: nat, at: real)

  datatype State = State(seen: Times, deliveries: seq<Delivery>, log: seq<Event>)

  const Fresh := State(map[], [], [])

  ghost predicate Duplicate(c: Config, seen: Times, key: string, now: real) {
    !c.Disabled() && key != "" && key in seen && !Expired(seen[key], now, c.ttl)
  }

  /** The first stage of a delivery, decided without awaiting. */
  function Arrival(c: Config, message: Message, duplicate: bool): Delivery {
    match message
    case Malformed => Delivery(message, if c.dlq then Parking(0) else Surfaced, 0)
    case Keyed(_) => if duplicate then Delivery(message, Acked, 0) else Delivery(message, Running(1), 1)
  }

  /** What follows a handler attempt that raised. */
  function AfterFailure(c: Config, attempt: nat): Stage {
    if attempt < c.maxAttempts then Sleeping(attempt)
    else if c.dlq then Parking(c.maxAttempts)
    else Surfaced
  }

  ghost predicate WindowStep(c: Config, seen: Times, key: string, now: real, next: Times) {
    if c.Disabled() || key == "" then next == seen else RecordStep(seen, key, now, next, c.ttl, c.max)
  }

  datatype Action =
    | Arrives(message: Message, now: real)
    | HandlerReturns(d: nat, now: real)
    | HandlerRaises(d: nat)
    | Wakes(d: nat)
    | Publishes(d: nat, now: real)
    | PublishFails(d: nat)
    | PublishUnconfirmed(d: nat, now: real)  // the publish took effect but the await raised
    | Cancelled(d: nat)

  /** The state with delivery `d` moved to `stage`. */
  function Moved(s: State, d: nat, stage: Stage, runs: nat): State
    requires d < |s.deliveries|
  {
    s.(deliveries := s.deliveries[d := Delivery(s.deliveries[d].message, stage, runs)])
  }

  ghost predicate Enabled(s: State, a: Action) {
    match a
    case Arrives(_, _) => true
    case HandlerReturns(d, _) => d < |s.deliveries| && s.deliveries[d].stage.Running?
    case HandlerRaises(d) => d < |s.deliveries| && s.deliveries[d].stage.Running?
    case Wakes(d) => d < |s.deliveries| && s.deliveries[d].stage.Sleeping?
    case Publishes(d, _) => d < |s.deliveries| && s.deliveries[d].stage.Parking?
    case PublishFails(d) => d < |s.deliveries| && s.deliveries[d].stage.Parking?
    case PublishUnconfirmed(d, _) => d < |s.deliveries| && s.deliveries[d].stage.Parking?
    case Cancelled(d) => d < |s.deliveries| && !s.deliveries[d].stage.Acked? && !s.deliveries[d].stage.Surfaced?
  }

  ghost predicate Step(c: Config, s: State, a: Action, n: State)
    requires Enabled(s, a)
  {
    match a
    case Arrives(message, now) =>
      var duplicate := message.Keyed? && Duplicate(c, s.seen, message.key, now);
      n == s.(deliveries := s.deliveries + [Arrival(c, message, duplicate)])
    case HandlerReturns(d, now) =>
      var delivery := s.deliveries[d];
      && delivery.message.Keyed?
      && WindowStep(c, s.seen, delivery.message.key, now, n.seen)
      && n == Moved(s, d, Acked, delivery.runs)
              .(seen := n.seen, log := s.log + [Succeeded(d, delivery.message.key, now)])
    case HandlerRaises(d) =>
      n == Moved(s, d, AfterFailure(c, s.deliveries[d].stage.attempt), s.deliveries[d].runs)
    case Wakes(d) =>
      n == Moved(s, d, Running(s.deliveries[d].stage.attempt + 1), s.deliveries[d].runs + 1)
    case Publishes(d, now) =>
      var delivery := s.deliveries[d];
      && (if delivery.message.Keyed? then WindowStep(c, s.seen, delivery.message.key, now, n.seen) else n.seen == s.seen)
      && n == Moved(s, d, Acked, delivery.runs)
              .(seen := n.seen, log := s.log + [Parked(d, delivery.message, delivery.stage.attempts, now)])
    case PublishFails(d) => n == Moved(s, d, Surfaced, s.deliveries[d].runs)
    case PublishUnconfirmed(d, now) =>
      n == Moved(s, d, Surfaced, s.deliveries[d].runs)
           .(log := s.log + [Parked(d, s.deliveries[d].message, s.deliveries[d].stage.attempts, now)])
    case Cancelled(d) => n == Moved(s, d, Surfaced, s.deliveries[d].runs)
  }

  /** Consecutive states. */
  ghost predicate IsPath(c: Config, states: seq<State>, actions: seq<Action>) {
    && |states| == |actions| + 1
    && (forall i :: 0 <= i < |actions| ==> Taken(c, states, actions, i))
  }

  /** A run from a fresh window. */
  ghost predicate IsRun(c: Config, states: seq<State>, actions: seq<Action>) {
    IsPath(c, states, actions) && states[0] == Fresh
  }

  ghost predicate Taken(c: Config, states: seq<State>, actions: seq<Action>, i: nat)
    requires i < |actions| && i + 1 < |states|
  {
    Enabled(states[i], actions[i]) && Step(c, states[i], actions[i], states[i + 1])
  }

  // What every run keeps

  /** The event settles messages with this key. */
  predicate Settles(e: Event, key: string) {
    match e
    case Succeeded(_, k, _) => k == key
    case Parked(_, m, _, _) => m == Keyed(key)
  }

  ghost predicate Handled(log: seq<Event>, key: string) {
    exists e :: e in log && Settles(e, key)
  }

  ghost predicate HandledAt(log: seq<Event>, key: string, at: real) {
    exists e :: e in log && Settles(e, key) && e.at == at
  }

  ghost predicate ParkedBy(log: seq<Event>, d: nat) {
    exists e :: e in log && e.Parked? && e.delivery == d
  }

  /** An acked delivery was parked itself, or its key was settled. */
  ghost predicate Justified(log: seq<Event>, d: nat, message: Message) {
    ParkedBy(log, d) || (message.Keyed? && Handled(log, message.key))
  }

  ghost predicate Sound(c: Config, log: seq<Event>, d: nat, delivery: Delivery) {
    && delivery.runs <= c.maxAttempts
    && match delivery.stage
       case Running(a) => delivery.message.Keyed? && 1 <= a <= c.maxAttempts && delivery.runs == a
       case Sleeping(a) => delivery.message.Keyed? && 1 <= a < c.maxAttempts && delivery.runs == a
       case Parking(n) => c.dlq && n == delivery.runs && n == (if delivery.message.Malformed? then 0 else c.maxAttempts)
       case Acked => Justified(log, d, delivery.message)
       case Surfaced => true
  }

  /** The event tells the truth about its delivery. */
  ghost predicate Truthful(c: Config, e: Event, deliveries: seq<Delivery>) {
    && e.delivery < |deliveries|
    && var delivery := deliveries[e.delivery];
       match e
       case Succeeded(_, k, _) => delivery.stage.Acked? && delivery.message == Keyed(k) && delivery.runs >= 1
       case Parked(_, m, n, _) =>
         && c.dlq && delivery.message == m && n == delivery.runs
         && (delivery.stage.Acked? || delivery.stage.Surfaced?)
         && n == (if m.Malformed? then 0 else c.maxAttempts)
  }

  /** Every remembered key was settled at the remembered time. */
  ghost predicate Remembered(seen: Times, log: seq<Event>) {
    forall k :: k in seen ==> HandledAt(log, k, seen[k])
  }

  ghost predicate AllSound(c: Config, s: State) {
    forall d :: 0 <= d < |s.deliveries| ==> Sound(c, s.log, d, s.deliveries[d])
  }

  ghost predicate AllTruthful(c: Config, s: State) {
    forall e :: e in s.log ==> Truthful(c, e, s.deliveries)
  }

  /** Each delivery has at most one terminal effect. */
  ghost predicate OncePerDelivery(log: seq<Event>) {
    forall i, j :: 0 <= i < j < |log| ==> log[i].delivery != log[j].delivery
  }

  ghost predicate Inv(c: Config, s: State) {
    && (c.Disabled() ==> s.seen == map[]) && (!c.Disabled() ==> |s.seen| <= c.max)
    && Remembered(s.seen, s.log) && AllSound(c, s) && AllTruthful(c, s) && OncePerDelivery(s.log)
  }

  lemma JustifiedGrows(log: seq<Event>, more: seq<Event>, d: nat, message: Message)
    requires Justified(log, d, message)
    ensures Justified(log + more, d, message)
  {
    if ParkedBy(log, d) {
      var e :| e in log && e.Parked? && e.delivery == d;
      assert e in log + more;
    } else {
      var e :| e in log && Settles(e, message.key);
      assert e in log + more;
    }
  }

  lemma RememberedGrows(seen: Times, log: seq<Event>, e: Event)
    requires Remembered(seen, log)
    ensures Remembered(seen, log + [e])
  {
    forall k | k in seen ensures HandledAt(log + [e], k, seen[k]) {
      var f :| f in log && Settles(f, k) && f.at == seen[k];
      assert f in log + [e];
    }
  }

  lemma WindowKept(c: Config, seen: Times, key: string, next: Times, log: seq<Event>, e: Event)
    requires WindowStep(c, seen, key, e.at, next) && Settles(e, key) && Remembered(seen, log)
    requires (c.Disabled() ==> seen == map[]) && (!c.Disabled() ==> |seen| <= c.max)
    ensures Remembered(next, log + [e])
    ensures (c.Disabled() ==> next == map[]) && (!c.Disabled() ==> |next| <= c.max)
  {
    RememberedGrows(seen, log, e);
    if !(c.Disabled() || key == "") {
      RecordKeepsCapacity(seen, key, e.at, next, c.ttl, c.max);
      assert e in log + [e];
      assert HandledAt(log + [e], key, e.at);
    }
  }

  /** Moving one delivery that has had no effect yet. */
  lemma MoveKeeps(c: Config, s: State, d: nat, stage: Stage, runs: nat)
    requires Inv(c, s) && d < |s.deliveries|
    requires !s.deliveries[d].stage.Acked? && !s.deliveries[d].stage.Surfaced?
    requires Sound(c, s.log, d, Delivery(s.deliveries[d].message, stage, runs))
    ensures Inv(c, Moved(s, d, stage, runs))
  {
    var n := Moved(s, d, stage, runs);
    forall e | e in n.log ensures Truthful(c, e, n.deliveries) {
      assert Truthful(c, e, s.deliveries);
    }
    assert AllTruthful(c, n);
  }

  /** A delivery's one effect, with the window it leaves. */
  lemma EffectKeeps(c: Config, s: State, d: nat, stage: Stage, e: Event, seen: Times)
    requires Inv(c, s) && d < |s.deliveries| && e.delivery == d
    requires !s.deliveries[d].stage.Acked? && !s.deliveries[d].stage.Surfaced?
    requires Remembered(seen, s.log + [e])
    requires (c.Disabled() ==> seen == map[]) && (!c.Disabled() ==> |seen| <= c.max)
    requires Truthful(c, e, Moved(s, d, stage, s.deliveries[d].runs).deliveries)
    ensures Inv(c, Moved(s, d, stage, s.deliveries[d].runs).(seen := seen, log := s.log + [e]))
  {
    var n := Moved(s, d, stage, s.deliveries[d].runs).(seen := seen, log := s.log + [e]);
    assert e in n.log;
    forall k | 0 <= k < |n.deliveries| ensures Sound(c, n.log, k, n.deliveries[k]) {
      assert Sound(c, s.log, k, s.deliveries[k]);
      if k == d {
        assert stage.Acked? ==> Justified(n.log, d, n.deliveries[d].message) by {
          if e.Parked? {
            assert ParkedBy(n.log, d);
          } else {
            assert Settles(e, e.key);
          }
        }
      } else if s.deliveries[k].stage.Acked? {
        JustifiedGrows(s.log, [e], k, s.deliveries[k].message);
      }
    }
    assert AllSound(c, n);
    forall f | f in n.log ensures Truthful(c, f, n.deliveries) {
      assert f == e || Truthful(c, f, s.deliveries);
    }
    assert AllTruthful(c, n);
    EffectIsFirst(c, s, d, e);
  }

  lemma EffectIsFirst(c: Config, s: State, d: nat, e: Event)
    requires AllTruthful(c, s) && OncePerDelivery(s.log) && d < |s.deliveries| && e.delivery == d
    requires !s.deliveries[d].stage.Acked? && !s.deliveries[d].stage.Surfaced?
    ensures OncePerDelivery(s.log + [e])
  {
    forall i | 0 <= i < |s.log| ensures s.log[i].delivery != d {
      assert s.log[i] in s.log;
      assert Truthful(c, s.log[i], s.deliveries);
    }
  }

  lemma ArrivalKeeps(c: Config, s: State, message: Message, now: real)
    requires c.Valid() && Inv(c, s)
    ensures var duplicate := message.Keyed? && Duplicate(c, s.seen, message.key, now);
      Inv(c, s.(deliveries := s.deliveries + [Arrival(c, message, duplicate)]))
  {
    var duplicate := message.Keyed? && Duplicate(c, s.seen, message.key, now);
    var n := s.(deliveries := s.deliveries + [Arrival(c, message, duplicate)]);
    if duplicate {
      assert HandledAt(s.log, message.key, s.seen[message.key]);
      assert Handled(s.log, message.key);
    }
    assert Sound(c, n.log, |s.deliveries|, n.deliveries[|s.deliveries|]);
    assert AllSound(c, n);
    forall e | e in n.log ensures Truthful(c, e, n.deliveries) {
      assert Truthful(c, e, s.deliveries);
    }
    assert AllTruthful(c, n);
  }

  lemma StepKeeps(c: Config, s: State, a: Action, n: State)
    requires c.Valid() && Inv(c, s) && Enabled(s, a) && Step(c, s, a, n)
    ensures Inv(c, n)
  {
    match a
    case Arrives(message, now) => ArrivalKeeps(c, s, message, now);
    case HandlerReturns(d, now) =>
      var delivery := s.deliveries[d];
      var e := Succeeded(d, delivery.message.key, now);
      assert Sound(c, s.log, d, delivery);
      WindowKept(c, s.seen, delivery.message.key, n.seen, s.log, e);
      EffectKeeps(c, s, d, Acked, e, n.seen);
    case HandlerRaises(d) =>
      assert Sound(c, s.log, d, s.deliveries[d]);
      MoveKeeps(c, s, d, AfterFailure(c, s.deliveries[d].stage.attempt), s.deliveries[d].runs);
    case Wakes(d) =>
      assert Sound(c, s.log, d, s.deliveries[d]);
      MoveKeeps(c, s, d, Running(s.deliveries[d].stage.attempt + 1), s.deliveries[d].runs + 1);
    case Publishes(d, now) =>
      var delivery := s.deliveries[d];
      var e := Parked(d, delivery.message, delivery.stage.attempts, now);
      assert Sound(c, s.log, d, delivery);
      if delivery.message.Keyed? {
        WindowKept(c, s.seen, delivery.message.key, n.seen, s.log, e);
      } else {
        RememberedGrows(s.seen, s.log, e);
      }
      EffectKeeps(c, s, d, Acked, e, n.seen);
    case PublishFails(d) =>
      assert Sound(c, s.log, d, s.deliveries[d]);
      MoveKeeps(c, s, d, Surfaced, s.deliveries[d].runs);
    case PublishUnconfirmed(d, now) =>
      var e := Parked(d, s.deliveries[d].message, s.deliveries[d].stage.attempts, now);
      assert Sound(c, s.log, d, s.deliveries[d]);
      RememberedGrows(s.seen, s.log, e);
      EffectKeeps(c, s, d, Surfaced, e, s.seen);
    case Cancelled(d) =>
      assert Sound(c, s.log, d, s.deliveries[d]);
      MoveKeeps(c, s, d, Surfaced, s.deliveries[d].runs);
  }

  /** The invariant over every interleaving of deliveries. */
  lemma {:induction false} RunKeeps(c: Config, states: seq<State>, actions: seq<Action>, n: nat)
    requires c.Valid() && IsRun(c, states, actions) && n < |states|
    ensures Inv(c, states[n])
    decreases n
  {
    if n > 0 {
      RunKeeps(c, states, actions, n - 1);
      assert Taken(c, states, actions, n - 1);
      StepKeeps(c, states[n - 1], actions[n - 1], states[n]);
    }
  }

  /**
   No silent drop: whenever a delivery stands acked in a run, that very message was parked on
   the dead letter queue or its key was settled by a handler success or a parking.
   */
  lemma NoSilentDrop(c: Config, states: seq<State>, actions: seq<Action>, n: nat, d: nat)
    requires c.Valid() && IsRun(c, states, actions) && n < |states|
    requires d < |states[n].deliveries| && states[n].deliveries[d].stage.Acked?
    ensures Justified(states[n].log, d, states[n].deliveries[d].message)
    ensures !c.dlq ==> states[n].deliveries[d].message.Keyed? && Handled(states[n].log, states[n].deliveries[d].message.key)
  {
    RunKeeps(c, states, actions, n);
    var s := states[n];
    assert Sound(c, s.log, d, s.deliveries[d]);
    if ParkedBy(s.log, d) {
      var e :| e in s.log && e.Parked? && e.delivery == d;
      assert Truthful(c, e, s.deliveries);
    }
  }

  /** A message dropped as a duplicate has a key settled less than the time to live ago. */
  lemma DuplicateIsRecent(c: Config, states: seq<State>, actions: seq<Action>, n: nat, key: string, now: real)
    requires c.Valid() && IsRun(c, states, actions) && n < |states| && Duplicate(c, states[n].seen, key, now)
    ensures exists e :: e in states[n].log && Settles(e, key) && now - e.at < c.ttl
  {
    RunKeeps(c, states, actions, n);
    assert HandledAt(states[n].log, key, states[n].seen[key]);
    var e :| e in states[n].log && Settles(e, key) && e.at == states[n].seen[key];
    assert now - e.at < c.ttl;
  }

  /** The handler runs at most the configured number of times, and the parked header counts its runs. */
  lemma BoundedAttempts(c: Config, states: seq<State>, actions: seq<Action>, n: nat, d: nat)
    requires c.Valid() && IsRun(c, states, actions) && n < |states| && d < |states[n].deliveries|
    ensures states[n].deliveries[d].runs <= c.maxAttempts
    ensures forall e :: e in states[n].log && e.Parked? && e.delivery == d ==> e.attempts == states[n].deliveries[d].runs
  {
    RunKeeps(c, states, actions, n);
    assert Sound(c, states[n].log, d, states[n].deliveries[d]);
    forall e | e in states[n].log && e.Parked? && e.delivery == d ensures e.attempts == states[n].deliveries[d].runs {
      assert Truthful(c, e, states[n].deliveries);
    }
  }

  /** The steps a delivery can still take. */
  function Remaining(c: Config, stage: Stage): int {
    match stage
    case Running(a) => 2 * (c.maxAttempts - a) + 2
    case Sleeping(a) => 2 * (c.maxAttempts - a) + 1
    case Parking(_) => 1
    case Acked => 0
    case Surfaced => 0
  }

  /** No delivery can be in flight for ever: each of its own steps uses up its measure, no other delivery's step adds to it. */
  lemma StepMakesProgress(c: Config, s: State, a: Action, n: State, d: nat)
    requires c.Valid() && Inv(c, s) && Enabled(s, a) && Step(c, s, a, n) && d < |s.deliveries|
    ensures d < |n.deliveries| && n.deliveries[d].message == s.deliveries[d].message
    ensures 0 <= Remaining(c, n.deliveries[d].stage) <= Remaining(c, s.deliveries[d].stage) <= 2 * c.maxAttempts
    ensures !a.Arrives? && a.d == d ==> Remaining(c, n.deliveries[d].stage) < Remaining(c, s.deliveries[d].stage)
  {
    assert Sound(c, s.log, d, s.deliveries[d]);
    StepKeeps(c, s, a, n);
    assert Sound(c, n.log, d, n.deliveries[d]);
  }

  // What the window remembers of a run

  /** The entry a step records, if any: only a success or a parking of a message with a key does. */
  ghost function Recorded(c: Config, s: State, a: Action): seq<Entry>
    requires Enabled(s, a)
  {
    if c.Disabled() || !(a.HandlerReturns? || a.Publishes?) then []
    else
      var message := s.deliveries[a.d].message;
      if message.Malformed? || message.key == "" then [] else [Entry(message.key, a.now)]
  }

  /** The entries recorded in the first `n` steps. */
  ghost function RecordLog(c: Config, states: seq<State>, actions: seq<Action>, n: nat): seq<Entry>
    requires IsPath(c, states, actions) && n <= |actions|
  {
    if n == 0 then []
    else
      assert Taken(c, states, actions, n - 1);
      RecordLog(c, states, actions, n - 1) + Recorded(c, states[n - 1], actions[n - 1])
  }

  /** The windows between those entries. */
  ghost function RecordWindows(c: Config, states: seq<State>, actions: seq<Action>, n: nat): seq<Times>
    requires IsPath(c, states, actions) && n <= |actions|
  {
    if n == 0 then [map[]]
    else
      assert Taken(c, states, actions, n - 1);
      RecordWindows(c, states, actions, n - 1) +
      if Recorded(c, states[n - 1], actions[n - 1]) == [] then [] else [states[n].seen]
  }

  /** A sequence of windows and calls of `record` that ends in this window. */
  ghost predicate Records(c: Config, windows: seq<Times>, log: seq<Entry>, last: Times) {
    && c.max > 0 && |windows| == |log| + 1 && windows[0] == map[] && windows[|log|] == last
    && forall i :: 0 <= i < |log| ==> Dedup.StepAt(windows, log, i, c.ttl, c.max)
  }

  lemma StepRecords(c: Config, s: State, a: Action, n: State)
    requires Enabled(s, a) && Step(c, s, a, n)
    ensures var more := Recorded(c, s, a);
            if more == [] then n.seen == s.seen
            else |more| == 1 && !c.Disabled() && RecordStep(s.seen, more[0].key, more[0].at, n.seen, c.ttl, c.max)
  {
  }

  lemma RecordsMore(c: Config, windows: seq<Times>, log: seq<Entry>, last: Times, entry: Entry, next: Times)
    requires Records(c, windows, log, last) && RecordStep(last, entry.key, entry.at, next, c.ttl, c.max)
    ensures Records(c, windows + [next], log + [entry], next)
  {
    var more, longer := windows + [next], log + [entry];
    forall i | 0 <= i < |longer| ensures Dedup.StepAt(more, longer, i, c.ttl, c.max) {
      assert i < |log| ==> Dedup.StepAt(windows, log, i, c.ttl, c.max);
    }
  }

  lemma {:induction false} RunRecords(c: Config, states: seq<State>, actions: seq<Action>, n: nat)
    requires c.Valid() && !c.Disabled() && IsRun(c, states, actions) && n <= |actions|
    ensures Records(c, RecordWindows(c, states, actions, n), RecordLog(c, states, actions, n), states[n].seen)
  {
    if n > 0 {
      RunRecords(c, states, actions, n - 1);
      assert Taken(c, states, actions, n - 1);
      var windows, log := RecordWindows(c, states, actions, n - 1), RecordLog(c, states, actions, n - 1);
      var more := Recorded(c, states[n - 1], actions[n - 1]);
      StepRecords(c, states[n - 1], actions[n - 1], states[n]);
      if more != [] {
        assert more == [more[0]];
        RecordsMore(c, windows, log, states[n - 1].seen, more[0], states[n].seen);
      } else {
        assert windows + [] == windows && log + [] == log;
      }
    }
  }

  /** Step `i` settles a message with a key: its handler returns, or the dead letter queue confirms it. */
  ghost predicate SettlesKey(states: seq<State>, actions: seq<Action>, i: nat) {
    && i < |actions| && i < |states| && (actions[i].HandlerReturns? || actions[i].Publishes?)
    && actions[i].d < |states[i].deliveries|
    && states[i].deliveries[actions[i].d].message.Keyed? && states[i].deliveries[actions[i].d].message.key != ""
  }

  ghost function KeySettled(states: seq<State>, actions: seq<Action>, i: nat): string
    requires SettlesKey(states, actions, i)
  {
    states[i].deliveries[actions[i].d].message.key
  }

  /** The keys settled between two steps. */
  ghost function SettledBetween(states: seq<State>, actions: seq<Action>, k: nat, n: nat): set<string> {
    set i | k < i < n && SettlesKey(states, actions, i) :: KeySettled(states, actions, i)
  }

  /** The clock moves on between the steps that settle a key. */
  ghost predicate ClockMovesOn(states: seq<State>, actions: seq<Action>) {
    forall i, j :: 0 <= i < j && SettlesKey(states, actions, i) && SettlesKey(states, actions, j) ==>
      actions[i].now < actions[j].now
  }

  /** An entry of the log comes from a step that settled its key at its time. */
  ghost predicate EntryFrom(states: seq<State>, actions: seq<Action>, e: Entry, i: nat) {
    SettlesKey(states, actions, i) && KeySettled(states, actions, i) == e.key && actions[i].now == e.at
  }

  lemma RecordedIs(c: Config, s: State, a: Action, states: seq<State>, actions: seq<Action>, i: nat)
    requires !c.Disabled() && i < |actions| && i < |states| && states[i] == s && actions[i] == a && Enabled(s, a)
    ensures Recorded(c, s, a) == if SettlesKey(states, actions, i) then [Entry(KeySettled(states, actions, i), a.now)] else []
  {
  }

  /** Every entry of the log has its step, in the same order. */
  lemma {:induction false} EntryHasStep(c: Config, states: seq<State>, actions: seq<Action>, n: nat, e: nat) returns (i: nat)
    requires !c.Disabled() && IsPath(c, states, actions) && n <= |actions| && e < |RecordLog(c, states, actions, n)|
    ensures i < n && EntryFrom(states, actions, RecordLog(c, states, actions, n)[e], i)
    ensures |RecordLog(c, states, actions, i)| == e
  {
    assert Taken(c, states, actions, n - 1);
    RecordedIs(c, states[n - 1], actions[n - 1], states, actions, n - 1);
    if e < |RecordLog(c, states, actions, n - 1)| {
      i := EntryHasStep(c, states, actions, n - 1, e);
    } else {
      i := n - 1;
    }
  }

  lemma {:induction false} LogGrows(c: Config, states: seq<State>, actions: seq<Action>, k: nat, n: nat)
    requires IsPath(c, states, actions) && k <= n <= |actions|
    ensures |RecordLog(c, states, actions, k)| <= |RecordLog(c, states, actions, n)|
    ensures forall e :: 0 <= e < |RecordLog(c, states, actions, k)| ==>
              RecordLog(c, states, actions, n)[e] == RecordLog(c, states, actions, k)[e]
    decreases n
  {
    if k < n {
      LogGrows(c, states, actions, k, n - 1);
    }
  }

  /** The step that settles a key puts its entry where the log then ends. */
  lemma StepHasEntry(c: Config, states: seq<State>, actions: seq<Action>, k: nat, n: nat)
    requires !c.Disabled() && IsPath(c, states, actions) && k < n <= |actions| && SettlesKey(states, actions, k)
    ensures var e := |RecordLog(c, states, actions, k)|;
            e < |RecordLog(c, states, actions, n)|
            && RecordLog(c, states, actions, n)[e] == Entry(KeySettled(states, actions, k), actions[k].now)
  {
    assert Taken(c, states, actions, k);
    RecordedIs(c, states[k], actions[k], states, actions, k);
    LogGrows(c, states, actions, k + 1, n);
  }

  lemma LogIncreases(c: Config, states: seq<State>, actions: seq<Action>, n: nat)
    requires !c.Disabled() && IsPath(c, states, actions) && n <= |actions| && ClockMovesOn(states, actions)
    ensures Increasing(RecordLog(c, states, actions, n))
  {
    var log := RecordLog(c, states, actions, n);
    forall d, e | 0 <= d < e < |log|
      ensures Before(log[d], log[e])
    {
      var i := EntryHasStep(c, states, actions, n, d);
      var j := EntryHasStep(c, states, actions, n, e);
      if j <= i {
        LogGrows(c, states, actions, j, i);
      }
      assert i < j;
    }
  }

  lemma OthersWereSettled(c: Config, states: seq<State>, actions: seq<Action>, k: nat, n: nat, key: string)
    requires !c.Disabled() && IsPath(c, states, actions) && k < n <= |actions| && SettlesKey(states, actions, k)
    ensures var log, e := RecordLog(c, states, actions, n), |RecordLog(c, states, actions, k)|;
            |log| > 0 && Others(log, e, |log| - 1, key) <= SettledBetween(states, actions, k, n) - {key}
  {
    StepHasEntry(c, states, actions, k, n);
    var log, e := RecordLog(c, states, actions, n), |RecordLog(c, states, actions, k)|;
    forall other | other in Others(log, e, |log| - 1, key)
      ensures other in SettledBetween(states, actions, k, n) - {key}
    {
      var m :| e < m < |log| - 1 && log[m].key == other && other != key;
      var i := EntryHasStep(c, states, actions, n, m);
      if i <= k {
        LogGrows(c, states, actions, i, k);
      }
      assert k < i;
    }
  }

  /**
   Over any interleaving, a message whose key was settled less than the time to live ago, with
   fewer than `max - 1` other keys settled since, is dropped on arrival without running the handler.
   */
  lemma RedeliveryIsDropped(c: Config, states: seq<State>, actions: seq<Action>, k: nat, n: nat, now: real, next: State)
    requires c.Valid() && c.ttl > 0.0 && c.max > 0 && IsRun(c, states, actions) && ClockMovesOn(states, actions)
    requires k < n <= |actions| && SettlesKey(states, actions, k) && now - actions[k].now < c.ttl
    requires forall i :: k <= i < n && SettlesKey(states, actions, i) ==> actions[i].now <= now
    requires |SettledBetween(states, actions, k, n) - {KeySettled(states, actions, k)}| < c.max - 1
    requires Step(c, states[n], Arrives(Keyed(KeySettled(states, actions, k)), now), next)
    ensures next.deliveries == states[n].deliveries + [Delivery(Keyed(KeySettled(states, actions, k)), Acked, 0)]
    ensures next.seen == states[n].seen && next.log == states[n].log
  {
    var key, e := KeySettled(states, actions, k), |RecordLog(c, states, actions, k)|;
    var windows, log := RecordWindows(c, states, actions, n), RecordLog(c, states, actions, n);
    StepHasEntry(c, states, actions, k, n);
    LastIsRecent(c, states, actions, k, n, now);
    OthersWereSettled(c, states, actions, k, n, key);
    SubsetSize(Others(log, e, |log| - 1, key), SettledBetween(states, actions, k, n) - {key});
    RunRecords(c, states, actions, n);
    LogIncreases(c, states, actions, n);
    StillSeen(c, windows, log, e, states[n].seen, now);
  }

  /** The last entry of the log is no later than now. */
  lemma LastIsRecent(c: Config, states: seq<State>, actions: seq<Action>, k: nat, n: nat, now: real)
    requires !c.Disabled() && IsPath(c, states, actions) && k < n <= |actions| && SettlesKey(states, actions, k)
    requires forall i :: k <= i < n && SettlesKey(states, actions, i) ==> actions[i].now <= now
    ensures var log := RecordLog(c, states, actions, n); |log| > 0 && log[|log| - 1].at <= now
  {
    StepHasEntry(c, states, actions, k, n);
    var last := EntryHasStep(c, states, actions, n, |RecordLog(c, states, actions, n)| - 1);
    if last < k {
      LogGrows(c, states, actions, last + 1, k);
    }
  }

  lemma StillSeen(c: Config, windows: seq<Times>, log: seq<Entry>, e: nat, seen: Times, now: real)
    requires Records(c, windows, log, seen) && Increasing(log) && !c.Disabled() && e < |log| && log[e].key != ""
    requires log[|log| - 1].at <= now && now - log[e].at < c.ttl && |Others(log, e, |log| - 1, log[e].key)| < c.max - 1
    ensures Duplicate(c, seen, log[e].key, now)
  {
    assert Dedup.IsRun(windows, log, c.ttl, c.max);
    RecordedKeySurvives(windows, log, c.ttl, c.max, e, |log|);
  }

  // The wrapper

  datatype Outcome = Returns | Raises | Cancels

  /** The first answer that is not a plain failure, or the last attempt. */
  function Runs(outcomes: seq<Outcome>, maxAttempts: nat): (runs: nat)
    requires 1 <= maxAttempts <= |outcomes|
    ensures 1 <= runs <= maxAttempts && (forall k :: 0 <= k < runs - 1 ==> outcomes[k] == Raises)
    ensures runs == maxAttempts || outcomes[runs - 1] != Raises
  {
    if outcomes[0] != Raises || maxAttempts == 1 then 1 else 1 + Runs(outcomes[1..], maxAttempts - 1)
  }

  lemma {:induction false} RunsIs(outcomes: seq<Outcome>, maxAttempts: nat, runs: nat)
    requires 1 <= runs <= maxAttempts <= |outcomes| && (forall k :: 0 <= k < runs - 1 ==> outcomes[k] == Raises)
    requires runs == maxAttempts || outcomes[runs - 1] != Raises
    ensures Runs(outcomes, maxAttempts) == runs
  {
    if runs > 1 {
      assert outcomes[0] == Raises;
      RunsIs(outcomes[1..], maxAttempts - 1, runs - 1);
    }
  }

  /** How a run that did not plainly fail ends the delivery. */
  function AfterRun(outcome: Outcome): Stage {
    if outcome == Returns then Acked else Surfaced
  }

  /** Some run from a fresh window ends in this state. */
  ghost predicate Reachable(c: Config, s: State) {
    exists states, actions :: IsRun(c, states, actions) && states[|actions|] == s
  }

  lemma FreshIsReachable(c: Config)
    ensures Reachable(c, Fresh)
  {
    assert IsRun(c, [Fresh], []);
  }

  lemma ReachesNext(c: Config, s: State, a: Action, n: State)
    requires Reachable(c, s) && Enabled(s, a) && Step(c, s, a, n)
    ensures Reachable(c, n)
  {
    var states, actions :| IsRun(c, states, actions) && states[|actions|] == s;
    forall i | 0 <= i < |actions| + 1 ensures Taken(c, states + [n], actions + [a], i) {
      assert i < |actions| ==> Taken(c, states, actions, i);
    }
    assert IsRun(c, states + [n], actions + [a]);
    assert (states + [n])[|actions + [a]|] == n;
  }

  /** An enabled window holds the message's key under this time, unless the key is empty. */
  ghost predicate Remembers(c: Config, seen: Times, message: Message, at: real) {
    message.Keyed? && message.key != "" && c.ttl > 0.0 && c.max > 0 ==> message.key in seen && seen[message.key] == at
  }

  lemma RecordRemembers(c: Config, seen: Times, message: Message, at: real, next: Times)
    requires message.Keyed? && WindowStep(c, seen, message.key, at, next) && (!c.Disabled() ==> |seen| <= c.max)
    ensures Remembers(c, next, message, at)
  {
    if !c.Disabled() && message.key != "" {
      RecordKeepsCapacity(seen, message.key, at, next, c.ttl, c.max);
    }
  }

  class Consumer {
    const config: Config
    const dedup: DedupWindow
    ghost var machine: State

    ghost predicate Valid()
      reads this, dedup
    {
      && dedup.Valid() && config.Valid() && config.ttl == dedup.ttl && config.max == dedup.max
      && machine.seen == dedup.seen && Reachable(config, machine)
    }

    constructor (dedup: DedupWindow, maxAttempts: int, dlq: bool)
      requires dedup.Valid() && dedup.seen == map[]
      ensures Valid() && this.dedup == dedup && machine == Fresh
      ensures config == Config(if maxAttempts < 1 then 1 else maxAttempts, dlq, dedup.ttl, dedup.max)
    {
      this.dedup := dedup;
      config := Config(if maxAttempts < 1 then 1 else maxAttempts, dlq, dedup.ttl, dedup.max);
      machine := Fresh;
      new;
      FreshIsReachable(config);
    }

    /** One step of the machine. */
    ghost method Take(a: Action, next: State)
      requires Reachable(config, machine) && Enabled(machine, a) && Step(config, machine, a, next)
      modifies this`machine
      ensures machine == next && Reachable(config, machine)
    {
      ReachesNext(config, machine, a, next);
      machine := next;
    }

    /**
     One delivery with no other in between. `outcomes` are the handler's answers, `published`
     the dead letter queue's, `now` and `later` the clock on arrival and on settling.
     */
    method Deliver(message: Message, outcomes: seq<Outcome>, published: bool, now: real, later: real)
        returns (stage: Stage, runs: nat)
      requires Valid() && |outcomes| >= config.maxAttempts
      modifies this`machine, dedup
      ensures Valid() && machine.deliveries == old(machine.deliveries) + [Delivery(message, stage, runs)]
      ensures stage.Acked? || (stage.Surfaced? && dedup.seen == old(dedup.seen) && machine.log == old(machine.log))
      ensures message.Malformed? ==>
        && runs == 0 && (stage.Acked? <==> config.dlq && published)
        && dedup.seen == old(dedup.seen)
        && machine.log == old(machine.log) + if stage.Acked? then [Parked(|old(machine.deliveries)|, message, 0, later)] else []
      ensures message.Keyed? ==>
        var duplicate := && config.ttl > 0.0 && config.max > 0 && message.key != "" && message.key in old(dedup.seen)
                         && now - old(dedup.seen)[message.key] < config.ttl;
        if duplicate then runs == 0 && stage.Acked? && dedup.seen == old(dedup.seen) && machine.log == old(machine.log)
        else
          && runs == Runs(outcomes, config.maxAttempts)
          && (stage.Acked? <==> outcomes[runs - 1] == Returns || (outcomes[runs - 1] == Raises && config.dlq && published))
          && (stage.Acked? ==> Remembers(config, dedup.seen, message, later))
          && machine.log == old(machine.log) + (
               if !stage.Acked? then []
               else if outcomes[runs - 1] == Returns then [Succeeded(|old(machine.deliveries)|, message.key, later)]
               else [Parked(|old(machine.deliveries)|, message, runs, later)])
    {
      ghost var d := |machine.deliveries|;
      var duplicate := false;
      if message.Keyed? {
        duplicate := dedup.Seen(message.key, now);
      }
      Take(Arrives(message, now),
           machine.(deliveries := machine.deliveries + [Arrival(config, message, duplicate)]));
      if message.Malformed? {
        if !config.dlq {
          return Surfaced, 0;
        }
        stage := Park(message, 0, published, later);
        return stage, 0;
      }
      if duplicate {
        return Acked, 0;
      }
      stage, runs := Handle(message, outcomes, published, later);
    }

    /** The handler's attempts, and the dead letter queue when they are exhausted. */
    method Handle(message: Message, outcomes: seq<Outcome>, published: bool, later: real) returns (stage: Stage, runs: nat)
      requires Valid() && |outcomes| >= config.maxAttempts && message.Keyed?
      requires |machine.deliveries| > 0 && machine.deliveries[|machine.deliveries| - 1] == Delivery(message, Running(1), 1)
      modifies this`machine, dedup
      ensures Valid() && runs == Runs(outcomes, config.maxAttempts)
      ensures machine.deliveries == old(machine.deliveries)[|old(machine.deliveries)| - 1 := Delivery(message, stage, runs)]
      ensures stage.Acked? || (stage.Surfaced? && dedup.seen == old(dedup.seen))
      ensures stage.Acked? <==> outcomes[runs - 1] == Returns || (outcomes[runs - 1] == Raises && config.dlq && published)
      ensures stage.Acked? ==> Remembers(config, dedup.seen, message, later)
      ensures machine.log == old(machine.log) + (
                if !stage.Acked? then []
                else if outcomes[runs - 1] == Returns then [Succeeded(|old(machine.deliveries)| - 1, message.key, later)]
                else [Parked(|old(machine.deliveries)| - 1, message, runs, later)])
    {
      stage, runs := Dispatch(message, outcomes, later);
      if stage.Parking? {
        stage := Park(message, runs, published, later);
      }
    }

    /** The attempt loop, from the first run of the handler to success, cancellation or exhaustion. */
    method Dispatch(message: Message, outcomes: seq<Outcome>, later: real) returns (stage: Stage, runs: nat)
      requires Valid() && |outcomes| >= config.maxAttempts && message.Keyed?
      requires |machine.deliveries| > 0 && machine.deliveries[|machine.deliveries| - 1] == Delivery(message, Running(1), 1)
      modifies this`machine, dedup
      ensures Valid() && runs == Runs(outcomes, config.maxAttempts)
      ensures machine.deliveries == old(machine.deliveries)[|old(machine.deliveries)| - 1 := Delivery(message, stage, runs)]
      ensures stage == if outcomes[runs - 1] == Raises then AfterFailure(config, runs) else AfterRun(outcomes[runs - 1])
      ensures outcomes[runs - 1] != Returns ==> dedup.seen == old(dedup.seen) && machine.log == old(machine.log)
      ensures outcomes[runs - 1] == Returns ==>
        && Remembers(config, dedup.seen, message, later)
        && machine.log == old(machine.log) + [Succeeded(|old(machine.deliveries)| - 1, message.key, later)]
    {
      runs := 1;
      ghost var d := |machine.deliveries| - 1;
      stage := Attempt(message, 1, outcomes[0], later);
      while stage.Sleeping?
        invariant 1 <= runs <= config.maxAttempts && Valid()
        invariant machine.deliveries == old(machine.deliveries)[d := Delivery(message, stage, runs)]
        invariant forall k :: 0 <= k < runs - 1 ==> outcomes[k] == Raises
        invariant stage == if outcomes[runs - 1] == Raises then AfterFailure(config, runs) else AfterRun(outcomes[runs - 1])
        invariant outcomes[runs - 1] != Returns ==> dedup.seen == old(dedup.seen) && machine.log == old(machine.log)
        invariant outcomes[runs - 1] == Returns ==>
          && Remembers(config, dedup.seen, message, later)
          && machine.log == old(machine.log) + [Succeeded(d, message.key, later)]
        decreases config.maxAttempts - runs
      {
        stage := Retry(message, runs, outcomes[runs], later);
        runs := runs + 1;
      }
      RunsIs(outcomes, config.maxAttempts, runs);
    }

    /** Wakes from the backoff and runs the handler again. */
    method Retry(message: Message, attempt: nat, outcome: Outcome, later: real) returns (stage: Stage)
      requires Valid() && message.Keyed?
      requires |machine.deliveries| > 0 && machine.deliveries[|machine.deliveries| - 1] == Delivery(message, Sleeping(attempt), attempt)
      modifies this`machine, dedup
      ensures Valid() && stage == if outcome == Raises then AfterFailure(config, attempt + 1) else AfterRun(outcome)
      ensures machine.deliveries == old(machine.deliveries)[|old(machine.deliveries)| - 1 := Delivery(message, stage, attempt + 1)]
      ensures outcome != Returns ==> dedup.seen == old(dedup.seen) && machine.log == old(machine.log)
      ensures outcome == Returns ==>
        && Remembers(config, dedup.seen, message, later)
        && machine.log == old(machine.log) + [Succeeded(|old(machine.deliveries)| - 1, message.key, later)]
    {
      Take(Wakes(|machine.deliveries| - 1), Moved(machine, |machine.deliveries| - 1, Running(attempt + 1), attempt + 1));
      stage := Attempt(message, attempt + 1, outcome, later);
    }

    /** One run of the handler for the last delivery; only success settles its key. */
    method Attempt(message: Message, attempt: nat, outcome: Outcome, later: real) returns (stage: Stage)
      requires Valid() && message.Keyed?
      requires |machine.deliveries| > 0 && machine.deliveries[|machine.deliveries| - 1] == Delivery(message, Running(attempt), attempt)
      modifies this`machine, dedup
      ensures Valid() && stage == if outcome == Raises then AfterFailure(config, attempt) else AfterRun(outcome)
      ensures machine.deliveries == old(machine.deliveries)[|old(machine.deliveries)| - 1 := Delivery(message, stage, attempt)]
      ensures outcome != Returns ==> dedup.seen == old(dedup.seen) && machine.log == old(machine.log)
      ensures outcome == Returns ==>
        && Remembers(config, dedup.seen, message, later)
        && machine.log == old(machine.log) + [Succeeded(|old(machine.deliveries)| - 1, message.key, later)]
    {
      ghost var d, s := |machine.deliveries| - 1, machine;
      match outcome
      case Returns =>
        dedup.Record(message.key, later);
        RecordRemembers(config, s.seen, message, later, dedup.seen);
        Take(HandlerReturns(d, later),
             Moved(s, d, Acked, attempt).(seen := dedup.seen, log := s.log + [Succeeded(d, message.key, later)]));
        return Acked;
      case Raises =>
        Take(HandlerRaises(d), Moved(s, d, AfterFailure(config, attempt), attempt));
        return AfterFailure(config, attempt);
      case Cancels =>
        Take(Cancelled(d), Moved(s, d, Surfaced, attempt));
        return Surfaced;
    }

    /** Publishes the last delivery to the dead letter queue; only success settles its key. */
    method Park(message: Message, attempts: nat, published: bool, later: real) returns (stage: Stage)
      requires Valid() && |machine.deliveries| > 0
      requires machine.deliveries[|machine.deliveries| - 1] == Delivery(message, Parking(attempts), attempts)
      modifies this`machine, dedup
      ensures Valid() && stage == if published then Acked else Surfaced
      ensures machine.deliveries == old(machine.deliveries)[|old(machine.deliveries)| - 1 := Delivery(message, stage, attempts)]
      ensures machine.log == if published then old(machine.log) + [Parked(|old(machine.deliveries)| - 1, message, attempts, later)] else old(machine.log)
      ensures !published || message.Malformed? ==> dedup.seen == old(dedup.seen)
      ensures published && message.Keyed? ==> Remembers(config, dedup.seen, message, later)
    {
      ghost var d, s := |machine.deliveries| - 1, machine;
      if !published {
        Take(PublishFails(d), Moved(s, d, Surfaced, attempts));
        return Surfaced;
      }
      if message.Keyed? {
        dedup.Record(message.key, later);
        RecordRemembers(config, s.seen, message, later, dedup.seen);
      }
      Take(Publishes(d, later),
           Moved(s, d, Acked, attempts).(seen := dedup.seen, log := s.log + [Parked(d, message, attempts, later)]));
      return Acked;
    }
  }
}
