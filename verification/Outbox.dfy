/**
 Delivery of authority audit evidence: the append-only journal, the queue its insert trigger
 fills, and any number of workers that lock a queued row, publish its event and only then
 delete the row. Sequences commit in any order, publishes may fail, arrive late or twice, and
 a worker may die at any moment, which releases its lock and nothing else.
 */
module Outbox {

  datatype Decision = Decision(principalTenant: string, subject: string, resourceTenant: string, body: string)

  /** A stored decision, unless it is over-long or cannot be decoded. */
  datatype Stored = Unreadable | Readable(decision: Decision)

  datatype Record = Record(tenant: string, occurred: int, stored: Stored)

  datatype Row = Row(tenant: string, eventId: string)

  datatype Event = Event(eventId: string, tenant: string, partitionKey: string, occurred: int, decision: Decision)

  /** How far the worker holding a row has come. */
  datatype Stage = Locked | Sending | Confirmed

  datatype Hold = Hold(tenant: string, sequence: int, stage: Stage)

  /**
   The tables, the rows workers hold, and the broker. `ids` remembers the event identity each
   sequence was given, also after its row is gone.
   */
  datatype State = State(journal: map<int, Record>, ids: map<int, string>, pending: map<int, Row>, tenants: set<string>,
                         held: map<nat, Hold>, inFlight: set<Event>, published: seq<Event>)

  const Empty := State(map[], map[], map[], {}, map[], {}, [])

  /** The decision speaks for the tenant whose journal holds it. */
  predicate Attributed(r: Record) {
    && r.stored.Readable?
    && var d := r.stored.decision;
       d.principalTenant == r.tenant && d.subject != "" && (d.resourceTenant == "" || d.resourceTenant == r.tenant)
  }

  function EventFor(id: string, r: Record): Event
    requires r.stored.Readable?
  {
    Event(id, r.tenant, r.tenant + "/" + r.stored.decision.subject, r.occurred, r.stored.decision)
  }

  predicate IsHeld(s: State, q: int) {
    exists w :: w in s.held && s.held[w].sequence == q
  }

  /** A row a worker of this tenant may lock now. */
  predicate Free(s: State, tenant: string, q: int) {
    q in s.pending && s.pending[q].tenant == tenant && q in s.journal && s.journal[q].tenant == tenant && !IsHeld(s, q)
  }

  datatype Action =
    | Commit(sequence: int, record: Record, id: string)
    | Lock(w: nat, tenant: string, sequence: int)
    | Send(w: nat)
    | Arrive(event: Event)
    | Confirm(w: nat)
    | Remove(w: nat)
    | Release(w: nat)  // refusal, failed publish, failed delete, time-out or crash: the transaction rolls back

  ghost predicate Enabled(s: State, a: Action) {
    match a
    case Commit(q, _, id) => q !in s.journal && id !in s.ids.Values
    case Lock(w, tenant, q) => w !in s.held && Free(s, tenant, q) && forall p :: Free(s, tenant, p) ==> q <= p
    case Send(w) =>
      && w in s.held && s.held[w].stage == Locked
      && var q := s.held[w].sequence; q in s.pending && q in s.journal && Attributed(s.journal[q])
    case Arrive(e) => e in s.inFlight
    case Confirm(w) =>
      && w in s.held && s.held[w].stage == Sending
      && var q := s.held[w].sequence;
         && q in s.pending && q in s.journal && s.journal[q].stored.Readable?
         && EventFor(s.pending[q].eventId, s.journal[q]) in s.published
    case Remove(w) => w in s.held && s.held[w].stage == Confirmed
    case Release(w) => w in s.held
  }

  function Next(s: State, a: Action): State
    requires Enabled(s, a)
  {
    match a
    case Commit(q, r, id) =>
      s.(journal := s.journal[q := r], ids := s.ids[q := id], pending := s.pending[q := Row(r.tenant, id)],
         tenants := s.tenants + {r.tenant})
    case Lock(w, tenant, q) => s.(held := s.held[w := Hold(tenant, q, Locked)])
    case Send(w) =>
      var q := s.held[w].sequence;
      s.(held := s.held[w := s.held[w].(stage := Sending)],
         inFlight := s.inFlight + {EventFor(s.pending[q].eventId, s.journal[q])})
    case Arrive(e) => s.(published := s.published + [e])
    case Confirm(w) => s.(held := s.held[w := s.held[w].(stage := Confirmed)])
    case Remove(w) => s.(pending := s.pending - {s.held[w].sequence}, held := s.held - {w})
    case Release(w) => s.(held := s.held - {w})
  }

  ghost predicate IsRun(states: seq<State>, actions: seq<Action>) {
    && |states| == |actions| + 1 && states[0] == Empty
    && (forall i :: 0 <= i < |actions| ==> Taken(states, actions, i))
  }

  ghost predicate Taken(states: seq<State>, actions: seq<Action>, i: nat)
    requires i < |actions| && i + 1 < |states|
  {
    Enabled(states[i], actions[i]) && states[i + 1] == Next(states[i], actions[i])
  }

  // What every run keeps

  /** The stored decision can be read and names its tenant, a subject, and no other tenant's resource. */
  ghost predicate SpeaksFor(r: Record) {
    && r.stored.Readable? && r.stored.decision.principalTenant == r.tenant && r.stored.decision.subject != ""
    && r.stored.decision.resourceTenant in {"", r.tenant}
  }

  /** The event tells the record: its identity, tenant, time and decision, keyed by tenant and subject. */
  ghost predicate IsEventOf(s: State, q: int, e: Event) {
    && q in s.journal && q in s.ids && SpeaksFor(s.journal[q])
    && e.eventId == s.ids[q] && e.tenant == s.journal[q].tenant && e.occurred == s.journal[q].occurred
    && e.decision == s.journal[q].stored.decision
    && e.partitionKey == s.journal[q].tenant + "/" + s.journal[q].stored.decision.subject
  }

  ghost predicate Faithful(s: State, e: Event) {
    exists q :: IsEventOf(s, q, e)
  }

  ghost predicate Delivered(s: State, q: int) {
    exists e :: e in s.published && IsEventOf(s, q, e)
  }

  ghost predicate Accounted(s: State, q: int)
    requires q in s.journal
  {
    q in s.ids && s.journal[q].tenant in s.tenants && (q in s.pending || Delivered(s, q))
  }

  /** Nothing in the journal is lost. */
  ghost predicate NothingLost(s: State) {
    forall q :: q in s.journal ==> Accounted(s, q)
  }

  ghost predicate RowsMatch(s: State) {
    forall q :: q in s.pending ==> q in s.journal && q in s.ids && s.pending[q] == Row(s.journal[q].tenant, s.ids[q])
  }

  ghost predicate IdsDistinct(s: State) {
    && s.ids.Keys == s.journal.Keys
    && forall p, q :: p in s.ids && q in s.ids && s.ids[p] == s.ids[q] ==> p == q
  }

  ghost predicate HoldSound(s: State, h: Hold) {
    && h.sequence in s.pending && s.pending[h.sequence].tenant == h.tenant
    && (h.stage == Confirmed ==> Delivered(s, h.sequence))
  }

  ghost predicate HoldsSound(s: State) {
    forall w :: w in s.held ==> HoldSound(s, s.held[w])
  }

  ghost predicate Exclusive(s: State) {
    forall v, w :: v in s.held && w in s.held && s.held[v].sequence == s.held[w].sequence ==> v == w
  }

  ghost predicate AllFaithful(s: State) {
    && (forall e :: e in s.inFlight ==> Faithful(s, e))
    && (forall e :: e in s.published ==> e in s.inFlight)
  }

  ghost predicate Inv(s: State) {
    NothingLost(s) && RowsMatch(s) && IdsDistinct(s) && HoldsSound(s) && Exclusive(s) && AllFaithful(s)
  }

  /** Journal, identities, tenants and publications only grow. */
  ghost predicate Grows(s: State, n: State) {
    && (forall q :: q in s.journal ==> q in n.journal && n.journal[q] == s.journal[q])
    && (forall q :: q in s.ids ==> q in n.ids && n.ids[q] == s.ids[q])
    && s.tenants <= n.tenants && (forall e :: e in s.published ==> e in n.published)
  }

  lemma StepGrows(s: State, a: Action)
    requires Enabled(s, a) && s.ids.Keys == s.journal.Keys
    ensures Grows(s, Next(s, a))
  {
  }

  lemma DeliveredGrows(s: State, n: State, q: int)
    requires Grows(s, n) && Delivered(s, q)
    ensures Delivered(n, q)
  {
    var e :| e in s.published && IsEventOf(s, q, e);
    assert e in n.published && IsEventOf(n, q, e);
  }

  lemma FaithfulGrows(s: State, n: State, e: Event)
    requires Grows(s, n) && Faithful(s, e)
    ensures Faithful(n, e)
  {
    var q :| IsEventOf(s, q, e);
    assert IsEventOf(n, q, e);
  }

  /** The row a step takes out of the queue, if any, has been delivered. */
  lemma RemovedWasDelivered(s: State, a: Action, q: int)
    requires Inv(s) && Enabled(s, a) && q in s.pending && q !in Next(s, a).pending
    ensures a.Remove? && Delivered(s, q)
  {
    assert HoldSound(s, s.held[a.w]);
  }

  lemma NothingLostStep(s: State, a: Action)
    requires Inv(s) && Enabled(s, a)
    ensures NothingLost(Next(s, a))
  {
    var n := Next(s, a);
    StepGrows(s, a);
    forall q | q in n.journal ensures Accounted(n, q) {
      if q in s.journal {
        assert Accounted(s, q);
        if q !in n.pending {
          if q in s.pending {
            RemovedWasDelivered(s, a, q);
          }
          DeliveredGrows(s, n, q);
        }
      }
    }
  }

  lemma HoldsStep(s: State, a: Action)
    requires Inv(s) && Enabled(s, a)
    ensures HoldsSound(Next(s, a))
  {
    var n := Next(s, a);
    StepGrows(s, a);
    forall w | w in n.held ensures HoldSound(n, n.held[w]) {
      if w in s.held {
        assert HoldSound(s, s.held[w]);
        if s.held[w].stage == Confirmed {
          DeliveredGrows(s, n, s.held[w].sequence);
        }
        if a == Confirm(w) {
          ConfirmDelivers(s, w);
        }
        assert n.held[w].sequence in n.pending;
      }
    }
  }

  lemma ConfirmDelivers(s: State, w: nat)
    requires Inv(s) && Enabled(s, Confirm(w))
    ensures Delivered(s, s.held[w].sequence)
  {
    var q := s.held[w].sequence;
    var e := EventFor(s.pending[q].eventId, s.journal[q]);
    assert Faithful(s, e);
    var p :| IsEventOf(s, p, e);
    assert s.ids[p] == s.ids[q];
    assert IsEventOf(s, q, e);
  }

  lemma ExclusiveStep(s: State, a: Action)
    requires Inv(s) && Enabled(s, a)
    ensures Exclusive(Next(s, a))
  {
    if a.Lock? {
      assert !IsHeld(s, a.sequence);
    }
  }

  lemma FaithfulStep(s: State, a: Action)
    requires Inv(s) && Enabled(s, a)
    ensures AllFaithful(Next(s, a))
  {
    var n := Next(s, a);
    StepGrows(s, a);
    forall e | e in n.inFlight ensures Faithful(n, e) {
      if e in s.inFlight {
        FaithfulGrows(s, n, e);
      } else {
        assert IsEventOf(n, s.held[a.w].sequence, e);
      }
    }
  }

  lemma StepKeeps(s: State, a: Action)
    requires Inv(s) && Enabled(s, a)
    ensures Inv(Next(s, a))
  {
    NothingLostStep(s, a);
    HoldsStep(s, a);
    ExclusiveStep(s, a);
    FaithfulStep(s, a);
    assert a.Commit? ==> a.id !in s.ids.Values;
    assert IdsDistinct(Next(s, a));
  }

  lemma {:induction false} RunKeeps(states: seq<State>, actions: seq<Action>, n: nat)
    requires IsRun(states, actions) && n < |states|
    ensures Inv(states[n])
  {
    if n > 0 {
      RunKeeps(states, actions, n - 1);
      assert Taken(states, actions, n - 1);
      StepKeeps(states[n - 1], actions[n - 1]);
    }
  }

  lemma {:induction false} RunGrows(states: seq<State>, actions: seq<Action>, m: nat, n: nat)
    requires IsRun(states, actions) && m <= n < |states|
    ensures Grows(states[m], states[n])
    decreases n
  {
    if m < n {
      RunGrows(states, actions, m, n - 1);
      RunKeeps(states, actions, n - 1);
      assert Taken(states, actions, n - 1);
      StepGrows(states[n - 1], actions[n - 1]);
    }
  }

  /**
   At least once: a record committed by moment `m` is, at every later moment `n`, still queued
   or already published; and no two workers ever hold one row.
   */
  lemma AtLeastOnce(states: seq<State>, actions: seq<Action>, m: nat, n: nat, q: int)
    requires IsRun(states, actions) && m <= n < |states| && q in states[m].journal
    ensures q in states[n].journal && states[n].journal[q] == states[m].journal[q]
    ensures q in states[n].pending || Delivered(states[n], q)
    ensures Exclusive(states[n])
  {
    RunKeeps(states, actions, n);
    RunGrows(states, actions, m, n);
    assert Accounted(states[n], q);
  }

  /** A row gone from the queue was published before it went: at some earlier moment it was queued and delivered at once. */
  lemma {:induction false} PublishedBeforeRemoved(states: seq<State>, actions: seq<Action>, m: nat, n: nat, q: int) returns (k: nat)
    requires IsRun(states, actions) && m <= n < |states| && q in states[m].pending && q !in states[n].pending
    ensures m <= k < n && actions[k].Remove? && q in states[k].pending && Delivered(states[k], q)
    decreases n
  {
    assert Taken(states, actions, n - 1);
    if q in states[n - 1].pending {
      RunKeeps(states, actions, n - 1);
      RemovedWasDelivered(states[n - 1], actions[n - 1], q);
      k := n - 1;
    } else {
      k := PublishedBeforeRemoved(states, actions, m, n - 1, q);
    }
  }

  /** All publications under one event identity, at any two moments, are the same event, for the tenant its decision names. */
  lemma SameIdSameEvent(states: seq<State>, actions: seq<Action>, m: nat, n: nat, e: Event, f: Event)
    requires IsRun(states, actions) && m <= n < |states|
    requires e in states[m].published && f in states[n].published && e.eventId == f.eventId
    ensures e == f && e.tenant == e.decision.principalTenant
  {
    RunKeeps(states, actions, n);
    RunGrows(states, actions, m, n);
    var s := states[n];
    assert Faithful(s, e) && Faithful(s, f);
    var p :| IsEventOf(s, p, e);
    var q :| IsEventOf(s, q, f);
    assert s.ids[p] == s.ids[q];
  }

  /** Every publication, at any moment of a run, tells a journal record field by field. */
  lemma PublishedIsEvidence(states: seq<State>, actions: seq<Action>, n: nat, e: Event) returns (q: int)
    requires IsRun(states, actions) && n < |states| && e in states[n].published
    ensures q in states[n].journal && q in states[n].ids && states[n].journal[q].stored.Readable?
    ensures var r := states[n].journal[q];
      && e.eventId == states[n].ids[q] && e.tenant == r.tenant == e.decision.principalTenant && e.occurred == r.occurred
      && e.decision == r.stored.decision && e.partitionKey == r.tenant + "/" + e.decision.subject && e.decision.subject != ""
  {
    RunKeeps(states, actions, n);
    assert Faithful(states[n], e);
    q :| IsEventOf(states[n], q, e);
  }

  // A row that cannot be sent

  /** The row stays queued for ever, whoever locks it. */
  lemma {:induction false} PoisonStays(states: seq<State>, actions: seq<Action>, m: nat, n: nat, q: int)
    requires IsRun(states, actions) && m <= n < |states|
    requires q in states[m].pending && q in states[m].journal && !SpeaksFor(states[m].journal[q])
    ensures q in states[n].pending
  {
    RunKeeps(states, actions, m);
    if q !in states[n].pending {
      var k := PublishedBeforeRemoved(states, actions, m, n, q);
      RunGrows(states, actions, m, k);
      assert false;
    }
  }

  /**
   It also holds back its tenant: while no other worker has it locked, every worker that turns
   to the tenant is given this row or a lower one, so nothing above it is ever locked.
   */
  lemma PoisonHoldsBack(states: seq<State>, actions: seq<Action>, m: nat, n: nat, q: int)
    requires IsRun(states, actions) && m <= n < |actions|
    requires q in states[m].pending && q in states[m].journal && !SpeaksFor(states[m].journal[q])
    requires actions[n].Lock? && actions[n].tenant == states[m].pending[q].tenant
    ensures IsHeld(states[n], q) || actions[n].sequence <= q
  {
    PoisonStays(states, actions, m, n, q);
    RunKeeps(states, actions, m);
    RunKeeps(states, actions, n);
    RunGrows(states, actions, m, n);
    assert Taken(states, actions, n);
    if !IsHeld(states[n], q) {
      assert Free(states[n], actions[n].tenant, q);
    }
  }
}
