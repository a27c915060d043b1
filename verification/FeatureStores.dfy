/**
 The point-in-time feature store: per subject and feature set, two parallel arrays sorted by
 time and searched by bisection, against the plain table with replacement on equal keys that
 the durable store queries.
 */
module FeatureStores {

  import opened Wrappers

  /** Seconds and nanoseconds. */
  datatype Time = Time(seconds: int, nanos: int)

  predicate Before(a: Time, b: Time) {
    a.seconds < b.seconds || (a.seconds == b.seconds && a.nanos < b.nanos)
  }

  predicate AtMost(a: Time, b: Time) {
    !Before(b, a)
  }

  datatype Key = Key(subject: string, featureSet: string)

  datatype Vector = Vector(key: Key, asOf: Option<Time>, values: map<string, real>)

  type Rows = map<Time, Vector>

  type Table = map<Key, Rows>

  // The simple form: a table queried for the newest row not after a bound

  function RowsOf(table: Table, key: Key): Rows {
    if key in table then table[key] else map[]
  }

  /** The query's condition: seconds first, then nanoseconds. */
  ghost predicate Within(t: Time, bound: Option<Time>) {
    || bound.None? || t.seconds < bound.value.seconds
    || (t.seconds == bound.value.seconds && t.nanos <= bound.value.nanos)
  }

  /** The query's order: seconds first, then nanoseconds. */
  ghost predicate NotAfter(t: Time, u: Time) {
    t.seconds < u.seconds || (t.seconds == u.seconds && t.nanos <= u.nanos)
  }

  /** The query's answer: the row with the greatest time within the bound, none if there is no such row. */
  ghost predicate Answers(rows: Rows, bound: Option<Time>, answer: Option<Vector>) {
    match answer
    case None => forall t :: t in rows ==> !Within(t, bound)
    case Some(v) => exists t :: IsNewest(rows, bound, t) && rows[t] == v
  }

  ghost predicate IsNewest(rows: Rows, bound: Option<Time>, t: Time) {
    t in rows && Within(t, bound) && forall u :: u in rows && Within(u, bound) ==> NotAfter(u, t)
  }

  predicate Storable(v: Vector) {
    v.key.subject != "" && v.key.featureSet != "" && v.asOf.Some?
  }

  /** Insert or replace; a vector without identity or time is refused. */
  function Put(table: Table, v: Vector): Table {
    if Storable(v) then table[v.key := RowsOf(table, v.key)[v.asOf.value := v]] else table
  }

  function PutAll(table: Table, vs: seq<Vector>): Table {
    if |vs| == 0 then table else Put(PutAll(table, vs[..|vs| - 1]), vs[|vs| - 1])
  }

  /** The query has one answer. */
  lemma OneAnswer(rows: Rows, bound: Option<Time>, a: Option<Vector>, b: Option<Vector>)
    requires Answers(rows, bound, a) && Answers(rows, bound, b)
    ensures a == b
  {
    if a.Some? && b.Some? {
      var t :| IsNewest(rows, bound, t) && rows[t] == a.value;
      var u :| IsNewest(rows, bound, u) && rows[u] == b.value;
      assert NotAfter(t, u) && NotAfter(u, t);
    }
  }

  /** Vectors for different points in time, or different subjects, may be put in either order. */
  lemma PutsCommute(table: Table, a: Vector, b: Vector)
    requires a.key != b.key || a.asOf != b.asOf
    ensures Put(Put(table, a), b) == Put(Put(table, b), a)
  {
    if Storable(a) && Storable(b) && a.key == b.key {
      var rows := RowsOf(table, a.key);
      assert rows[a.asOf.value := a][b.asOf.value := b] == rows[b.asOf.value := b][a.asOf.value := a];
    }
  }

  /** Nothing later than the bound can influence the answer: no leakage from the future. */
  lemma NoFutureLeakage(table: Table, v: Vector, key: Key, bound: Time, answer: Option<Vector>)
    requires Storable(v) && !Within(v.asOf.value, Some(bound))
    ensures Answers(RowsOf(Put(table, v), key), Some(bound), answer) <==> Answers(RowsOf(table, key), Some(bound), answer)
  {
    var before, after := RowsOf(table, key), RowsOf(Put(table, v), key);
    assert forall t :: Within(t, Some(bound)) ==> (t in after <==> t in before);
    assert forall t :: Within(t, Some(bound)) && t in before ==> after[t] == before[t];
    assert forall t :: IsNewest(after, Some(bound), t) <==> IsNewest(before, Some(bound), t);
  }

  // The fast form: parallel sorted arrays

  ghost predicate Sorted(keys: seq<Time>) {
    forall i, j :: 0 <= i < j < |keys| ==> Before(keys[i], keys[j])
  }

  ghost predicate Represents(keys: seq<Time>, history: seq<Vector>, rows: Rows) {
    && |keys| == |history| && Sorted(keys)
    && (forall i :: 0 <= i < |keys| ==> keys[i] in rows && rows[keys[i]] == history[i])
    && (forall t :: t in rows ==> t in keys)
  }

  /** The number of keys before the target, or at most the target when `inclusive`. */
  method Bisect(keys: seq<Time>, target: Time, inclusive: bool) returns (k: nat)
    requires Sorted(keys)
    ensures k <= |keys|
    ensures forall i :: 0 <= i < k ==> Precedes(keys[i], target, inclusive)
    ensures forall i :: k <= i < |keys| ==> !Precedes(keys[i], target, inclusive)
  {
    var lo, hi := 0, |keys|;
    while lo < hi
      invariant 0 <= lo <= hi <= |keys|
      invariant forall i :: 0 <= i < lo ==> Precedes(keys[i], target, inclusive)
      invariant forall i :: hi <= i < |keys| ==> !Precedes(keys[i], target, inclusive)
    {
      var mid := (lo + hi) / 2;
      if Precedes(keys[mid], target, inclusive) {
        lo := mid + 1;
      } else {
        hi := mid;
      }
    }
    k := lo;
  }

  predicate Precedes(t: Time, target: Time, inclusive: bool) {
    if inclusive then AtMost(t, target) else Before(t, target)
  }

  lemma SortedInsert(keys: seq<Time>, k: nat, t: Time)
    requires Sorted(keys) && k <= |keys|
    requires (forall i :: 0 <= i < k ==> Before(keys[i], t)) && (forall i :: k <= i < |keys| ==> Before(t, keys[i]))
    ensures Sorted(keys[..k] + [t] + keys[k..])
  {
    var keys' := keys[..k] + [t] + keys[k..];
    assert forall i :: 0 <= i < |keys'| ==> keys'[i] == if i < k then keys[i] else if i == k then t else keys[i - 1];
  }

  lemma InsertRepresents(keys: seq<Time>, history: seq<Vector>, rows: Rows, k: nat, t: Time, v: Vector)
    requires Represents(keys, history, rows) && k <= |keys|
    requires (forall i :: 0 <= i < k ==> Before(keys[i], t)) && (forall i :: k <= i < |keys| ==> Before(t, keys[i]))
    ensures Represents(keys[..k] + [t] + keys[k..], history[..k] + [v] + history[k..], rows[t := v])
  {
    var keys', history' := keys[..k] + [t] + keys[k..], history[..k] + [v] + history[k..];
    assert t !in keys;
    SortedInsert(keys, k, t);
    forall i | 0 <= i < |keys'|
      ensures keys'[i] in rows[t := v] && rows[t := v][keys'[i]] == history'[i]
    {
      if i != k {
        var j := if i < k then i else i - 1;
        assert keys'[i] == keys[j] && history'[i] == history[j];
      }
    }
    forall u | u in rows[t := v] ensures u in keys' {
      if u != t {
        var i :| 0 <= i < |keys| && keys[i] == u;
        assert keys'[if i < k then i else i + 1] == u;
      } else {
        assert keys'[k] == t;
      }
    }
  }

  lemma ReplaceRepresents(keys: seq<Time>, history: seq<Vector>, rows: Rows, k: nat, v: Vector)
    requires Represents(keys, history, rows) && k < |keys|
    ensures Represents(keys, history[k := v], rows[keys[k] := v])
  {
  }

  /** One subject's arrays with the vector put at its place. */
  method Place(keys: seq<Time>, history: seq<Vector>, t: Time, v: Vector, ghost rows: Rows)
      returns (times: seq<Time>, past: seq<Vector>)
    requires Represents(keys, history, rows)
    ensures Represents(times, past, rows[t := v]) && past != []
  {
    var k := Bisect(keys, t, false);
    if k < |keys| && keys[k] == t {
      ReplaceRepresents(keys, history, rows, k, v);
      return keys, history[k := v];
    }
    InsertRepresents(keys, history, rows, k, t, v);
    return keys[..k] + [t] + keys[k..], history[..k] + [v] + history[k..];
  }

  class InMemoryFeatureStore {
    var history: map<Key, seq<Vector>>
    var keys: map<Key, seq<Time>>
    ghost var table: Table

    ghost predicate Valid()
      reads this
    {
      && history.Keys == keys.Keys == table.Keys
      && forall key :: key in table ==> history[key] != [] && Represents(keys[key], history[key], table[key])
    }

    constructor ()
      ensures Valid() && table == map[]
    {
      history, keys, table := map[], map[], map[];
    }

    /** The same answer as the query on the table. */
    method Get(key: Key, asOf: Option<Time>) returns (answer: Option<Vector>)
      requires Valid()
      ensures Answers(RowsOf(table, key), asOf, answer)
    {
      if key !in history {
        return None;
      }
      var past := history[key];
      if asOf.None? {
        NewestIsLast(keys[key], past, table[key], None, |past|);
        return Some(past[|past| - 1]);
      }
      var k := Bisect(keys[key], asOf.value, true);
      if k == 0 {
        return None;
      }
      NewestIsLast(keys[key], past, table[key], asOf, k);
      return Some(past[k - 1]);
    }

    /** The same effect as insert-or-replace on the table. */
    method PutVector(v: Vector) returns (stored: bool)
      requires Valid()
      modifies this
      ensures Valid() && table == Put(old(table), v) && (stored <==> Storable(v))
    {
      if !Storable(v) {
        return false;
      }
      var past := if v.key in history then history[v.key] else [];
      var times := if v.key in keys then keys[v.key] else [];
      ghost var rows := RowsOf(table, v.key);
      assert Represents(times, past, rows);
      times, past := Place(times, past, v.asOf.value, v, rows);
      history, keys := history[v.key := past], keys[v.key := times];
      table := Put(table, v);
      return true;
    }
  }

  /** With the first `k` keys exactly those within the bound, the newest of them is the last. */
  lemma NewestIsLast(keys: seq<Time>, history: seq<Vector>, rows: Rows, bound: Option<Time>, k: nat)
    requires Represents(keys, history, rows) && 0 < k <= |keys|
    requires forall i :: 0 <= i < |keys| ==> (Within(keys[i], bound) <==> i < k)
    ensures Answers(rows, bound, Some(history[k - 1]))
  {
    forall u | u in rows && Within(u, bound) ensures NotAfter(u, keys[k - 1]) {
      var i :| 0 <= i < |keys| && keys[i] == u;
    }
    assert IsNewest(rows, bound, keys[k - 1]);
  }

  // The answer in terms of the puts themselves

  /** The put stores a vector of the subject and feature set. */
  ghost predicate PutFor(v: Vector, key: Key) {
    v.key == key && key.subject != "" && key.featureSet != "" && v.asOf.Some?
  }

  /** The last put of the key for this time. */
  ghost predicate LastPut(vs: seq<Vector>, key: Key, t: Time, i: nat) {
    && i < |vs| && PutFor(vs[i], key) && vs[i].asOf == Some(t)
    && forall j :: i < j < |vs| && PutFor(vs[j], key) ==> vs[j].asOf != Some(t)
  }

  ghost predicate Told(vs: seq<Vector>, key: Key, rows: Rows) {
    && (forall t :: t in rows ==> exists i: nat :: LastPut(vs, key, t, i) && rows[t] == vs[i])
    && (forall i :: 0 <= i < |vs| && PutFor(vs[i], key) ==> vs[i].asOf.value in rows)
  }

  lemma {:induction false} PutsAreTold(vs: seq<Vector>, key: Key)
    ensures Told(vs, key, RowsOf(PutAll(map[], vs), key))
  {
    if |vs| > 0 {
      var rest, v := vs[..|vs| - 1], vs[|vs| - 1];
      PutsAreTold(rest, key);
      var before, rows := RowsOf(PutAll(map[], rest), key), RowsOf(PutAll(map[], vs), key);
      forall t | t in rows ensures exists i: nat :: LastPut(vs, key, t, i) && rows[t] == vs[i] {
        if PutFor(v, key) && v.asOf == Some(t) {
          assert LastPut(vs, key, t, |vs| - 1);
        } else {
          var i: nat :| LastPut(rest, key, t, i) && before[t] == rest[i];
          assert LastPut(vs, key, t, i);
        }
      }
    }
  }

  /** The put that a point-in-time query answers with: the last for the newest time within the bound. */
  ghost predicate AnswersPuts(vs: seq<Vector>, key: Key, bound: Option<Time>, answer: Option<Vector>) {
    match answer
    case None => forall j :: 0 <= j < |vs| && PutFor(vs[j], key) ==> !Within(vs[j].asOf.value, bound)
    case Some(v) =>
      && v.asOf.Some? && Within(v.asOf.value, bound)
      && (exists i: nat :: LastPut(vs, key, v.asOf.value, i) && vs[i] == v)
      && (forall j :: 0 <= j < |vs| && PutFor(vs[j], key) && Within(vs[j].asOf.value, bound) ==>
            NotAfter(vs[j].asOf.value, v.asOf.value))
  }

  lemma AnswersAreOfPuts(vs: seq<Vector>, key: Key, bound: Option<Time>, answer: Option<Vector>)
    requires Answers(RowsOf(PutAll(map[], vs), key), bound, answer)
    ensures AnswersPuts(vs, key, bound, answer)
  {
    PutsAreTold(vs, key);
  }

  /**
   A fresh store, after any puts, gives the answers of the table that took the same puts: the
   last put for the newest time within the bound.
   */
  method Replay(vs: seq<Vector>, key: Key, asOf: Option<Time>) returns (answer: Option<Vector>)
    ensures Answers(RowsOf(PutAll(map[], vs), key), asOf, answer)
    ensures AnswersPuts(vs, key, asOf, answer)
  {
    var store := new InMemoryFeatureStore();
    for i := 0 to |vs|
      invariant store.Valid() && store.table == PutAll(map[], vs[..i]) && fresh(store)
    {
      var stored := store.PutVector(vs[i]);
      assert vs[..i + 1][..i] == vs[..i];
    }
    assert vs[..|vs|] == vs;
    answer := store.Get(key, asOf);
    AnswersAreOfPuts(vs, key, asOf, answer);
  }
}
