/**
 The audit delivery worker itself: one delivery attempt, and the scan that walks the tenant
 directory in order and gives each tenant a bounded share. The worker is alone here; what
 other workers and crashes can do in between is the machine of `Outbox`.
 */
module Delivering {

  import opened Inputs
  import opened Wrappers
  import opened Outbox

  /** The broker's answer to a publish; a lost one took effect but reported a failure. */
  datatype Answer = Accepted | Failed | Lost

  const SHARE := 16

  function Rows(pending: map<int, Row>, tenant: string): set<int> {
    set q | q in pending && pending[q].tenant == tenant
  }

  ghost predicate Lowest(rows: set<int>, q: int) {
    q in rows && forall p :: p in rows ==> q <= p
  }

  lemma Inhabited(rows: set<int>)
    requires rows != {}
    ensures exists q :: q in rows
  {
    assert (forall q :: q !in rows) ==> rows == {};
  }

  method FindLowest(rows: set<int>) returns (q: int)
    requires rows != {}
    ensures Lowest(rows, q)
  {
    Inhabited(rows);
    q :| q in rows;
    var left := rows - {q};
    while left != {}
      invariant left <= rows && q in rows && forall p :: p in rows && p !in left ==> q <= p
      decreases |left|
    {
      Inhabited(left);
      var p :| p in left;
      left := left - {p};
      if p < q {
        q := p;
      }
    }
  }

  /** The directory entry that follows the cursor, if any. */
  method NextTenant(tenants: set<string>, cursor: string) returns (found: bool, tenant: string)
    ensures Follows(tenants, cursor, found, tenant)
  {
    found, tenant := false, "";
    var left := tenants;
    while left != {}
      invariant left <= tenants && (found ==> tenant in tenants && Less(cursor, tenant))
      invariant forall t :: t in tenants && t !in left && Less(cursor, t) ==> found && !Less(t, tenant)
      decreases |left|
    {
      var t :| t in left;
      left := left - {t};
      LessTrichotomy(t, t);
      if Less(cursor, t) && (!found || Less(t, tenant)) {
        NextIsLower(tenants - left, cursor, found, tenant, t);
        found, tenant := true, t;
      }
    }
  }

  lemma NextIsLower(done: set<string>, cursor: string, found: bool, tenant: string, t: string)
    requires found ==> Less(t, tenant)
    requires forall u :: u in done && u != t && Less(cursor, u) ==> found && !Less(u, tenant)
    ensures forall u :: u in done && Less(cursor, u) ==> !Less(u, t)
  {
    forall u | u in done && Less(cursor, u) ensures !Less(u, t) {
      LessTrichotomy(t, t);
      if u != t && Less(u, t) {
        LessTransitive(u, t, tenant);
        assert false;
      }
    }
  }

  /** Nothing but this tenant's queue and the broker changed. */
  ghost predicate OnlyTenant(before: State, after: State, tenant: string) {
    && after.journal == before.journal && after.ids == before.ids && after.tenants == before.tenants
    && Grows(before, after) && after.held == map[]
    && (forall q :: q in after.pending ==> q in before.pending && after.pending[q] == before.pending[q])
    && (forall q :: q in before.pending && before.pending[q].tenant != tenant ==> q in after.pending)
  }

  lemma OnlyTenantTransitive(a: State, b: State, c: State, tenant: string)
    requires OnlyTenant(a, b, tenant) && OnlyTenant(b, c, tenant)
    ensures OnlyTenant(a, c, tenant)
  {
  }

  class Worker {
    const name: nat
    var db: State

    ghost predicate Valid()
      reads this
    {
      Inv(db) && db.held == map[]
    }

    constructor (name: nat, db: State)
      requires Inv(db) && db.held == map[]
      ensures Valid() && this.db == db && this.name == name
    {
      this.name, this.db := name, db;
    }

    method Take(a: Action)
      requires Inv(db) && Enabled(db, a)
      modifies this
      ensures Inv(db) && db == Next(old(db), a)
    {
      StepKeeps(db, a);
      db := Next(db, a);
    }

    /** Locks the tenant's lowest row, publishes its event and deletes the row. */
    method DeliverOne(tenant: string, answer: Answer) returns (sent: bool, failed: bool, ghost q: int)
      requires Valid()
      modifies this
      ensures Valid() && OnlyTenant(old(db), db, tenant)
      ensures Rows(old(db).pending, tenant) == {} ==> !sent && !failed && db == old(db)
      ensures var rows := Rows(old(db).pending, tenant); rows != {} ==>
        && Lowest(rows, q) && q in db.journal && failed == !sent
        && (sent <==> SpeaksFor(db.journal[q]) && answer == Accepted)
        && db.pending == (if sent then old(db).pending - {q} else old(db).pending)
        && (sent ==> Delivered(db, q))
    {
      q := 0;
      var rows := Rows(db.pending, tenant);
      if rows == {} {
        return false, false, q;
      }
      var lowest := FindLowest(rows);
      q := lowest;
      OnlyRowsAreFree(db, tenant, lowest);
      Take(Lock(name, tenant, lowest));
      if !Attributed(db.journal[lowest]) {
        Take(Release(name));
        assert db.held == map[];
        return false, true, q;
      }
      sent := Publish(lowest, answer);
      return sent, !sent, q;
    }

    /** The publish and, once it is acknowledged, the deletion of a locked row. */
    method Publish(q: int, answer: Answer) returns (sent: bool)
      requires Inv(db) && db.held.Keys == {name} && db.held[name].sequence == q && db.held[name].stage == Locked
      requires q in db.pending && q in db.journal && Attributed(db.journal[q])
      modifies this
      ensures Valid() && sent == (answer == Accepted)
      ensures db.journal == old(db).journal && db.ids == old(db).ids && db.tenants == old(db).tenants
      ensures Grows(old(db), db)
      ensures db.pending == (if sent then old(db).pending - {q} else old(db).pending)
      ensures sent ==> Delivered(db, q)
    {
      Transmit(q, answer != Failed);
      ghost var before := db;
      if answer != Accepted {
        Take(Release(name));
        assert db == before.(held := map[]);
        return false;
      }
      Acknowledge(q);
      return true;
    }

    /** Hands the event to the broker, which it reaches or not. */
    method Transmit(q: int, arrives: bool)
      requires Inv(db) && db.held.Keys == {name} && db.held[name].sequence == q && db.held[name].stage == Locked
      requires q in db.pending && q in db.journal && Attributed(db.journal[q])
      modifies this
      ensures Inv(db) && db == old(db).(held := db.held, inFlight := db.inFlight, published := db.published)
      ensures db.held.Keys == {name} && db.held[name].sequence == q && Grows(old(db), db)
      ensures arrives ==> Enabled(db, Confirm(name))
    {
      var event := EventFor(db.pending[q].eventId, db.journal[q]);
      Take(Send(name));
      if arrives {
        Take(Arrive(event));
      }
    }

    /** The deletion of a row whose event has been acknowledged. */
    method Acknowledge(q: int)
      requires Inv(db) && db.held.Keys == {name} && db.held[name].sequence == q && Enabled(db, Confirm(name))
      modifies this
      ensures Valid() && db == old(db).(pending := old(db).pending - {q}, held := map[]) && Delivered(db, q)
    {
      ConfirmDelivers(db, name);
      ghost var before := db;
      Take(Confirm(name));
      Take(Remove(name));
      DeliveredGrows(before, db, q);
    }

    /**
     A tenant's share of a scan: its lowest rows, one after the other, as long as they are
     attributed and their publishes accepted, and sixteen at most.
     */
    method DeliverTenant(tenant: string, answers: nat -> Answer, start: nat)
      returns (healthy: bool, busy: bool, asked: nat, ghost share: Share)
      requires Valid()
      modifies this
      ensures Valid() && OnlyTenant(old(db), db, tenant)
      ensures share.start == start && share.healthy == healthy && asked == start + Attempts(share.count)
      ensures ShareOf(db.journal, Rows(old(db).pending, tenant), Rows(db.pending, tenant), answers, share)
      ensures busy <==> share.count > 0
      ensures share.count == 0 ==> db.pending == old(db).pending
    {
      asked, busy := start, false;
      ghost var rows := Rows(db.pending, tenant);
      var n := 0;
      NothingTaken(db.journal, rows, answers, start);
      while n < SHARE
        invariant 0 <= n <= SHARE && Valid() && OnlyTenant(old(db), db, tenant) && asked == start + n
        invariant TakenLowest(db.journal, rows, Rows(db.pending, tenant), answers, start, n)
        invariant (busy <==> n > 0) && (n == 0 ==> db.pending == old(db).pending)
      {
        ghost var before := db;
        var sent, failed := DeliverNext(tenant, answers, start, n, rows);
        OnlyTenantTransitive(old(db), before, db, tenant);
        asked := asked + 1;
        if !sent {
          share := Share(start, n, !failed);
          return !failed, busy, asked, share;
        }
        busy, n := true, n + 1;
      }
      return true, busy, asked, Share(start, n, true);
    }

    /** The next delivery of a share that has removed `n` rows. */
    method DeliverNext(tenant: string, answers: nat -> Answer, start: nat, n: nat, ghost rows: set<int>) returns (sent: bool, failed: bool)
      requires Valid() && TakenLowest(db.journal, rows, Rows(db.pending, tenant), answers, start, n) && n < SHARE
      modifies this
      ensures Valid() && OnlyTenant(old(db), db, tenant)
      ensures sent ==> TakenLowest(db.journal, rows, Rows(db.pending, tenant), answers, start, n + 1)
      ensures !sent ==> db.pending == old(db).pending
                        && ShareOf(db.journal, rows, Rows(db.pending, tenant), answers, Share(start, n, !failed))
    {
      ghost var before := db;
      ghost var q;
      sent, failed, q := DeliverOne(tenant, answers(start + n));
      if sent {
        TakeOne(before.journal, rows, before.pending, tenant, q, answers, start, n);
      } else if failed {
        ShareStops(before.journal, rows, Rows(before.pending, tenant), answers, start, n, q);
      }
    }

    /**
     One scan of the directory. Every tenant is visited once, in order, except one with an
     empty name, and gets its share; the scan is healthy exactly when every share was; the
     backlog reported is exactly what is still queued for them.
     */
    method Scan(answers: nat -> Answer)
      returns (healthy: bool, busy: bool, backlog: nat, visited: seq<string>, ghost shares: seq<Share>)
      requires Valid()
      modifies this
      ensures Valid() && OnlyQueues(old(db), db)
      ensures Ascending(visited)
      ensures forall t :: t in visited <==> t in db.tenants && t != ""
      ensures backlog == |Named(db.pending)|
      ensures forall q :: q in old(db).pending && q !in db.pending ==> Delivered(db, q)
      ensures Consecutive(shares) && SharesTaken(db.journal, visited, old(db).pending, db.pending, answers, shares)
      ensures (healthy <==> AllHealthy(shares)) && (busy <==> SomeRemoved(shares))
      ensures !busy ==> db.pending == old(db).pending
    {
      var at := Progress("", 0, true, false, 0, []);
      shares := [];
      EmptyCovers(db.pending, db.tenants);
      var found, tenant := NextTenant(db.tenants, at.cursor);
      while found
        invariant Valid() && InProgress(old(db), db, at, answers, shares) && Follows(db.tenants, at.cursor, found, tenant)
        decreases |Ahead(db.tenants, at.cursor)|, found
      {
        at, shares := Visit(at, tenant, answers, old(db), shares);
        found, tenant := NextTenant(db.tenants, at.cursor);
      }
      AllCovered(db, at.cursor);
      RemovedDelivered(old(db), db);
      return at.healthy, at.busy, at.backlog, at.visited, shares;
    }

    /** One tenant's turn in a scan. */
    method Visit(at: Progress, tenant: string, answers: nat -> Answer, ghost first: State, ghost shares: seq<Share>)
      returns (next: Progress, ghost more: seq<Share>)
      requires Valid() && InProgress(first, db, at, answers, shares) && Follows(db.tenants, at.cursor, true, tenant)
      modifies this
      ensures Valid() && InProgress(first, db, next, answers, more) && db.tenants == old(db).tenants
      ensures |Ahead(db.tenants, next.cursor)| < |Ahead(db.tenants, at.cursor)|
    {
      ghost var before := db;
      var well, busy, asked, share := DeliverTenant(tenant, answers, at.asked);
      ScannedNext(first, before, db, at.cursor, tenant, at.visited, at.backlog, answers, shares, share);
      ShareAdded(shares, share, at.healthy, at.busy);
      next := Progress(tenant, asked, at.healthy && well, at.busy || busy, at.backlog + |Rows(db.pending, tenant)|,
                       at.visited + [tenant]);
      more := shares + [share];
    }
  }

  /** A scan under way: where its cursor stands, the attempts made, and what it will report. */
  datatype Progress = Progress(cursor: string, asked: nat, healthy: bool, busy: bool, backlog: nat, visited: seq<string>)

  ghost predicate InProgress(first: State, db: State, at: Progress, answers: nat -> Answer, shares: seq<Share>) {
    && Scanned(first, db, at.cursor, at.visited, at.backlog, answers, shares)
    && Reported(shares, at.asked, at.healthy, at.busy) && (!at.busy ==> db.pending == first.pending)
  }

  /** The next tenant of the directory, or none. */
  ghost predicate Follows(tenants: set<string>, cursor: string, found: bool, tenant: string) {
    if found then
      tenant in tenants && Less(cursor, tenant) && forall t :: t in tenants && Less(cursor, t) ==> !Less(t, tenant)
    else
      forall t :: t in tenants ==> !Less(cursor, t)
  }

  /** How far a scan has come: the tenants up to the cursor have had their shares, the rest are untouched. */
  ghost predicate Scanned(first: State, db: State, cursor: string, visited: seq<string>, backlog: nat, answers: nat -> Answer,
                          shares: seq<Share>)
  {
    && OnlyQueues(first, db) && VisitedUpTo(visited, db.tenants, cursor) && Ascending(visited)
    && backlog == |Covered(db.pending, cursor)| && Untouched(first.pending, db.pending, cursor)
    && SharesTaken(db.journal, visited, first.pending, db.pending, answers, shares)
  }

  /** What the shares so far add up to. */
  ghost predicate Reported(shares: seq<Share>, asked: nat, healthy: bool, busy: bool) {
    Consecutive(shares) && asked == Asked(shares) && (healthy <==> AllHealthy(shares)) && (busy <==> SomeRemoved(shares))
  }

  lemma ScannedNext(first: State, before: State, after: State, cursor: string, tenant: string, visited: seq<string>, backlog: nat,
                    answers: nat -> Answer, shares: seq<Share>, share: Share)
    requires Inv(before) && Scanned(first, before, cursor, visited, backlog, answers, shares) && OnlyTenant(before, after, tenant)
    requires tenant in before.tenants && Less(cursor, tenant)
    requires forall u :: u in before.tenants && Less(cursor, u) ==> !Less(u, tenant)
    requires ShareOf(after.journal, Rows(before.pending, tenant), Rows(after.pending, tenant), answers, share)
    ensures Scanned(first, after, tenant, visited + [tenant], backlog + |Rows(after.pending, tenant)|, answers, shares + [share])
    ensures |Ahead(after.tenants, tenant)| < |Ahead(before.tenants, cursor)|
  {
    CursorMoves(before, after, cursor, tenant);
    VisitNext(visited, before.tenants, cursor, tenant);
    ShareTaken(visited, first.pending, before, after, cursor, tenant, answers, shares, share);
    UntouchedMoves(first.pending, before, after, cursor, tenant);
  }

  lemma RemovedDelivered(first: State, db: State)
    requires Inv(first) && Inv(db) && OnlyQueues(first, db)
    ensures forall q :: q in first.pending && q !in db.pending ==> Delivered(db, q)
  {
    forall q | q in first.pending && q !in db.pending ensures Delivered(db, q) {
      assert Accounted(db, q);
    }
  }

  /** A tenant's share: the attempt it starts with, the rows it removes, and whether no attempt failed. */
  datatype Share = Share(start: nat, count: nat, healthy: bool)

  /** The attempts a share makes: one per row removed, and one more that finds nothing or fails. */
  function Attempts(count: nat): nat {
    if count < SHARE then count + 1 else count
  }

  /** The `n` lowest rows are gone, each attributed and its publish accepted. */
  ghost predicate TakenLowest(journal: map<int, Record>, before: set<int>, after: set<int>, answers: nat -> Answer, start: nat, n: nat) {
    && after <= before && |before| == |after| + n
    && (forall gone, kept :: gone in before && gone !in after && kept in after ==> gone < kept)
    && (forall q :: q in before && q !in after ==> q in journal && SpeaksFor(journal[q]))
    && (forall k :: start <= k < start + n ==> answers(k) == Accepted)
  }

  /** The row cannot go: it is not attributed, or the publish of attempt `k` is not accepted. */
  ghost predicate Fails(journal: map<int, Record>, q: int, answers: nat -> Answer, k: nat) {
    q in journal && !(SpeaksFor(journal[q]) && answers(k) == Accepted)
  }

  /** The share took as many rows as it could: all of them, or sixteen, or up to the first that fails. */
  ghost predicate ShareOf(journal: map<int, Record>, before: set<int>, after: set<int>, answers: nat -> Answer, share: Share) {
    && share.count <= SHARE && TakenLowest(journal, before, after, answers, share.start, share.count)
    && (share.healthy <==> share.count == SHARE || after == {})
    && (!share.healthy ==> exists q :: Lowest(after, q) && Fails(journal, q, answers, share.start + share.count))
  }

  lemma NothingTaken(journal: map<int, Record>, rows: set<int>, answers: nat -> Answer, start: nat)
    ensures TakenLowest(journal, rows, rows, answers, start, 0)
  {
  }

  lemma ShareStops(journal: map<int, Record>, rows: set<int>, after: set<int>, answers: nat -> Answer, start: nat, n: nat, q: int)
    requires TakenLowest(journal, rows, after, answers, start, n) && n < SHARE
    requires Lowest(after, q) && Fails(journal, q, answers, start + n)
    ensures ShareOf(journal, rows, after, answers, Share(start, n, false))
  {
    assert q in after;
  }

  lemma TakeOne(journal: map<int, Record>, rows: set<int>, pending: map<int, Row>, tenant: string, q: int, answers: nat -> Answer,
                start: nat, n: nat)
    requires TakenLowest(journal, rows, Rows(pending, tenant), answers, start, n) && Lowest(Rows(pending, tenant), q)
    requires q in journal && SpeaksFor(journal[q]) && answers(start + n) == Accepted
    ensures TakenLowest(journal, rows, Rows(pending - {q}, tenant), answers, start, n + 1)
  {
    OneRowLess(pending, tenant, q);
    assert Rows(pending - {q}, tenant) == Rows(pending, tenant) - {q};
  }

  /** The share is determined by the queue and the broker's answers. */
  lemma OneShare(journal: map<int, Record>, before: set<int>, a: set<int>, b: set<int>, answers: nat -> Answer, s: Share, t: Share)
    requires s.start == t.start && ShareOf(journal, before, a, answers, s) && ShareOf(journal, before, b, answers, t)
    ensures s == t && a == b
  {
    if s.count < t.count {
      NotLonger(journal, before, a, b, answers, s, t);
    } else if t.count < s.count {
      NotLonger(journal, before, b, a, answers, t, s);
    }
    SameSize(before, a, b);
  }

  lemma NotLonger(journal: map<int, Record>, before: set<int>, a: set<int>, b: set<int>, answers: nat -> Answer, s: Share, t: Share)
    requires s.start == t.start && ShareOf(journal, before, a, answers, s) && ShareOf(journal, before, b, answers, t)
    ensures s.count >= t.count
  {
    if s.count < t.count {
      assert a != {};
      var q :| Lowest(a, q) && Fails(journal, q, answers, s.start + s.count);
      assert answers(t.start + s.count) == Accepted;
      assert q in b;
      forall p | p in a ensures p in b {
        assert p !in b ==> p < q;
      }
      SubsetSize(a, b);
      assert false;
    }
  }

  /** Two sets of highest rows of the same size are the same. */
  lemma SameSize(before: set<int>, a: set<int>, b: set<int>)
    requires a <= before && b <= before && |a| == |b|
    requires forall gone, kept :: gone in before && gone !in a && kept in a ==> gone < kept
    requires forall gone, kept :: gone in before && gone !in b && kept in b ==> gone < kept
    ensures a == b
  {
    forall p | p in a ensures p in b {
      if p !in b {
        forall q | q in b ensures q in a - {p} {
          assert p < q;
        }
        SubsetSize(b, a - {p});
        assert false;
      }
    }
    assert b == a + (b - a);
  }

  /** Each share starts where the one before it ended. */
  ghost predicate Consecutive(shares: seq<Share>) {
    forall i :: 0 <= i < |shares| ==> StartsInTurn(shares, i)
  }

  ghost predicate StartsInTurn(shares: seq<Share>, i: nat)
    requires i < |shares|
  {
    shares[i].start == if i == 0 then 0 else EndOf(shares[i - 1])
  }

  ghost function EndOf(share: Share): nat {
    share.start + Attempts(share.count)
  }

  /** The attempts made by all the shares. */
  ghost function Asked(shares: seq<Share>): nat {
    if shares == [] then 0 else EndOf(shares[|shares| - 1])
  }

  ghost predicate AllHealthy(shares: seq<Share>) {
    forall s :: s in shares ==> s.healthy
  }

  ghost predicate SomeRemoved(shares: seq<Share>) {
    exists s :: s in shares && s.count > 0
  }

  lemma InTurn(shares: seq<Share>, share: Share)
    requires Consecutive(shares) && share.start == Asked(shares)
    ensures Consecutive(shares + [share]) && Asked(shares + [share]) == EndOf(share)
  {
    var more := shares + [share];
    forall i | 0 <= i < |more| ensures StartsInTurn(more, i) {
      assert i < |shares| ==> StartsInTurn(shares, i);
    }
  }

  lemma ShareAdded(shares: seq<Share>, share: Share, healthy: bool, busy: bool)
    requires Reported(shares, share.start, healthy, busy)
    ensures Reported(shares + [share], EndOf(share), healthy && share.healthy, busy || share.count > 0)
  {
    InTurn(shares, share);
    assert forall s :: s in shares + [share] <==> s in shares || s == share;
  }

  ghost function Ahead(tenants: set<string>, cursor: string): set<string> {
    set t | t in tenants && Less(cursor, t)
  }

  /** The queued rows a scan can reach: an empty tenant name never follows the cursor. */
  ghost function Named(pending: map<int, Row>): set<int> {
    set q | q in pending && pending[q].tenant != ""
  }

  ghost predicate OnlyQueues(before: State, after: State) {
    && after.journal == before.journal && after.ids == before.ids && after.tenants == before.tenants
    && Grows(before, after) && after.held == map[]
    && (forall q :: q in after.pending ==> q in before.pending && after.pending[q] == before.pending[q])
  }

  lemma OnlyRowsAreFree(s: State, tenant: string, q: int)
    requires Inv(s) && s.held == map[] && Lowest(Rows(s.pending, tenant), q)
    ensures Free(s, tenant, q) && forall p :: Free(s, tenant, p) ==> q <= p
  {
    assert forall p :: Free(s, tenant, p) ==> p in Rows(s.pending, tenant);
  }

  lemma OneRowLess(pending: map<int, Row>, tenant: string, q: int)
    requires q in Rows(pending, tenant)
    ensures |Rows(pending - {q}, tenant)| == |Rows(pending, tenant)| - 1
  {
    assert Rows(pending - {q}, tenant) == Rows(pending, tenant) - {q};
  }

  ghost predicate Ascending(visited: seq<string>) {
    forall i, j :: 0 <= i < j < |visited| ==> Less(visited[i], visited[j])
  }

  /** Names the cursor has passed. */
  ghost predicate Passed(cursor: string, t: string) {
    t != "" && !Less(cursor, t)
  }

  ghost predicate VisitedUpTo(visited: seq<string>, tenants: set<string>, cursor: string) {
    forall t :: t in visited <==> t in tenants && Passed(cursor, t)
  }

  /** Every visited tenant got its share. */
  ghost predicate SharesTaken(journal: map<int, Record>, visited: seq<string>, before: map<int, Row>, after: map<int, Row>,
                              answers: nat -> Answer, shares: seq<Share>)
  {
    |shares| == |visited|
    && forall i :: 0 <= i < |visited| ==> ShareOf(journal, Rows(before, visited[i]), Rows(after, visited[i]), answers, shares[i])
  }

  ghost predicate Untouched(before: map<int, Row>, after: map<int, Row>, cursor: string) {
    forall t :: !Passed(cursor, t) ==> Rows(after, t) == Rows(before, t)
  }

  ghost function Covered(pending: map<int, Row>, cursor: string): set<int> {
    set q | q in pending && Passed(cursor, pending[q].tenant)
  }

  lemma EmptyCovers(pending: map<int, Row>, tenants: set<string>)
    ensures Covered(pending, "") == {} && VisitedUpTo([], tenants, "")
  {
    assert forall q :: q !in Covered(pending, "");
  }

  lemma AllCovered(s: State, cursor: string)
    requires Inv(s) && forall t :: t in s.tenants ==> !Less(cursor, t)
    ensures Covered(s.pending, cursor) == Named(s.pending)
  {
    forall q | q in s.pending ensures s.pending[q].tenant in s.tenants {
      assert Accounted(s, q);
    }
    assert forall q :: q in Covered(s.pending, cursor) <==> q in Named(s.pending);
  }

  /** Moving to the next tenant passes it and no other. */
  lemma PassedNext(tenants: set<string>, cursor: string, tenant: string, t: string)
    requires tenant in tenants && Less(cursor, tenant) && t in tenants
    requires forall u :: u in tenants && Less(cursor, u) ==> !Less(u, tenant)
    ensures Passed(tenant, t) <==> Passed(cursor, t) || t == tenant
  {
    LessTrichotomy(tenant, t);
    LessTrichotomy(cursor, t);
    if Less(tenant, t) {
      LessTransitive(cursor, tenant, t);
    }
  }

  lemma CursorMoves(before: State, after: State, cursor: string, tenant: string)
    requires Inv(before) && OnlyTenant(before, after, tenant) && tenant in before.tenants && Less(cursor, tenant)
    requires forall u :: u in before.tenants && Less(cursor, u) ==> !Less(u, tenant)
    ensures |Covered(after.pending, tenant)| == |Covered(before.pending, cursor)| + |Rows(after.pending, tenant)|
    ensures |Ahead(before.tenants, tenant)| < |Ahead(before.tenants, cursor)|
  {
    forall q | q in before.pending
      ensures Passed(tenant, before.pending[q].tenant) <==> Passed(cursor, before.pending[q].tenant) || before.pending[q].tenant == tenant
    {
      assert Accounted(before, q);
      PassedNext(before.tenants, cursor, tenant, before.pending[q].tenant);
    }
    assert forall q :: q in Covered(after.pending, tenant) <==> q in Covered(before.pending, cursor) + Rows(after.pending, tenant);
    assert Covered(after.pending, tenant) == Covered(before.pending, cursor) + Rows(after.pending, tenant);
    forall q | q in Covered(before.pending, cursor) ensures q !in Rows(after.pending, tenant) {
      assert before.pending[q].tenant != tenant;
    }
    assert Covered(before.pending, cursor) !! Rows(after.pending, tenant);
    AheadShrinks(before.tenants, cursor, tenant);
  }

  lemma AheadShrinks(tenants: set<string>, cursor: string, tenant: string)
    requires tenant in tenants && Less(cursor, tenant)
    ensures |Ahead(tenants, tenant)| < |Ahead(tenants, cursor)|
  {
    LessTrichotomy(tenant, tenant);
    forall t | t in Ahead(tenants, tenant) ensures t in Ahead(tenants, cursor) {
      LessTransitive(cursor, tenant, t);
    }
    var rest := Ahead(tenants, cursor) - {tenant} - Ahead(tenants, tenant);
    assert Ahead(tenants, cursor) == {tenant} + Ahead(tenants, tenant) + rest;
  }

  lemma VisitNext(visited: seq<string>, tenants: set<string>, cursor: string, tenant: string)
    requires VisitedUpTo(visited, tenants, cursor) && Ascending(visited) && tenant in tenants && Less(cursor, tenant)
    requires forall u :: u in tenants && Less(cursor, u) ==> !Less(u, tenant)
    ensures VisitedUpTo(visited + [tenant], tenants, tenant) && Ascending(visited + [tenant])
  {
    forall t ensures t in visited + [tenant] <==> t in tenants && Passed(tenant, t) {
      if t in tenants {
        PassedNext(tenants, cursor, tenant, t);
      }
    }
    forall i | 0 <= i < |visited| ensures Less(visited[i], tenant) {
      assert visited[i] in visited;
      LessTrichotomy(visited[i], cursor);
      if visited[i] != cursor {
        LessTransitive(visited[i], cursor, tenant);
      }
    }
  }

  lemma OtherRowsSame(before: State, after: State, tenant: string, t: string)
    requires OnlyTenant(before, after, tenant) && t != tenant
    ensures Rows(after.pending, t) == Rows(before.pending, t)
  {
    assert forall q :: q in Rows(after.pending, t) <==> q in Rows(before.pending, t);
  }

  lemma ShareTaken(visited: seq<string>, first: map<int, Row>, before: State, after: State, cursor: string, tenant: string,
                   answers: nat -> Answer, shares: seq<Share>, share: Share)
    requires SharesTaken(before.journal, visited, first, before.pending, answers, shares)
    requires Untouched(first, before.pending, cursor) && OnlyTenant(before, after, tenant)
    requires Less(cursor, tenant) && tenant !in visited
    requires ShareOf(after.journal, Rows(before.pending, tenant), Rows(after.pending, tenant), answers, share)
    ensures SharesTaken(after.journal, visited + [tenant], first, after.pending, answers, shares + [share])
  {
    assert !Passed(cursor, tenant);
    forall i | 0 <= i < |visited|
      ensures Rows(after.pending, visited[i]) == Rows(before.pending, visited[i])
    {
      assert visited[i] in visited;
      OtherRowsSame(before, after, tenant, visited[i]);
    }
  }

  lemma UntouchedMoves(first: map<int, Row>, before: State, after: State, cursor: string, tenant: string)
    requires Untouched(first, before.pending, cursor) && OnlyTenant(before, after, tenant) && Less(cursor, tenant)
    ensures Untouched(first, after.pending, tenant)
  {
    forall t | !Passed(tenant, t) ensures Rows(after.pending, t) == Rows(first, t) {
      LessTrichotomy(tenant, tenant);
      assert t != tenant;
      if t != "" {
        LessTransitive(cursor, tenant, t);
      }
      assert !Passed(cursor, t);
      OtherRowsSame(before, after, tenant, t);
    }
  }
}
