/**
 The consumer-side dedup window: a bounded map from idempotency key to the time it was
 recorded, swept of expired entries and then of its oldest ones when full.
 */
module Dedup {

  import opened Wrappers

  type Times = map<string, real>

  ghost predicate Expired(recorded: real, now: real, ttl: real) {
    now - recorded >= ttl
  }

  /** The entries that have not expired. */
  ghost function Swept(seen: Times, now: real, ttl: real): Times {
    map k | k in seen && !Expired(seen[k], now, ttl) :: seen[k]
  }

  /** `kept` is `seen` without some of its oldest entries, no more than needed to get below `max`. */
  ghost predicate Trimmed(seen: Times, kept: Times, max: nat) {
    && (forall k :: k in kept ==> k in seen && kept[k] == seen[k])
    && (forall gone, k :: gone in seen && gone !in kept && k in kept ==> seen[gone] <= seen[k])
    && (if |seen| < max then kept == seen else |kept| == max - 1)
  }

  /** Recording one key at time `now`. */
  ghost predicate RecordStep(seen: Times, key: string, now: real, next: Times, ttl: real, max: nat) {
    if |seen| < max then next == seen[key := now]
    else exists kept :: Trimmed(Swept(seen, now, ttl), kept, max) && next == kept[key := now]
  }

  lemma UpdateSize(kept: Times, key: string, now: real)
    ensures |kept[key := now]| <= |kept| + 1
  {
    assert kept[key := now].Keys == kept.Keys + {key};
    assert |kept.Keys + {key}| <= |kept.Keys| + 1;
  }

  /** Recording never grows the window beyond its capacity. */
  lemma RecordKeepsCapacity(seen: Times, key: string, now: real, next: Times, ttl: real, max: nat)
    requires max > 0 && |seen| <= max && RecordStep(seen, key, now, next, ttl, max)
    ensures |next| <= max && key in next && next[key] == now
    ensures forall k :: k in next && k != key ==> k in seen && next[k] == seen[k]
  {
    if |seen| < max {
      UpdateSize(seen, key, now);
    } else {
      var kept :| Trimmed(Swept(seen, now, ttl), kept, max) && next == kept[key := now];
      UpdateSize(kept, key, now);
    }
  }

  class DedupWindow {
    const disabled: bool
    const ttl: real
    const max: int
    var seen: Times

    ghost predicate Valid()
      reads this
    {
      && (disabled <==> ttl <= 0.0 || max <= 0)
      && (if disabled then seen == map[] else |seen| <= max)
    }

    constructor (ttl: real, max: int)
      ensures Valid() && seen == map[] && this.ttl == ttl && this.max == max
    {
      this.disabled, this.ttl, this.max := ttl <= 0.0 || max <= 0, ttl, max;
      seen := map[];
    }

    /** Whether the key was recorded less than the time to live ago. */
    method Seen(key: string, now: real) returns (duplicate: bool)
      requires Valid()
      ensures duplicate <==> ttl > 0.0 && max > 0 && key != "" && key in seen && now - seen[key] < ttl
    {
      if disabled || key == "" {
        return false;
      }
      if key !in seen {
        return false;
      }
      return now - seen[key] < ttl;
    }

    method Record(key: string, now: real)
      requires Valid()
      modifies this
      ensures Valid()
      ensures disabled || key == "" ==> seen == old(seen)
      ensures !disabled && key != "" ==> RecordStep(old(seen), key, now, seen, ttl, max)
    {
      if disabled || key == "" {
        return;
      }
      if |seen| >= max {
        CollectGarbage(now);
        assert Trimmed(Swept(old(seen), now, ttl), seen, max);
      }
      UpdateSize(seen, key, now);
      seen := seen[key := now];
    }

    /** Sweeps expired entries, then evicts the oldest until there is room. */
    method CollectGarbage(now: real)
      requires Valid() && !disabled
      modifies this
      ensures Valid() && |seen| < max && Trimmed(Swept(old(seen), now, ttl), seen, max)
    {
      var swept := SweepExpired(now);
      seen := swept;
      while |seen| >= max
        invariant Valid() && TrimmedSoFar(swept, seen, max)
        decreases |seen|
      {
        var oldest := Oldest(seen);
        EvictStep(swept, seen, oldest, max);
        seen := seen - {oldest};
      }
    }

    method SweepExpired(now: real) returns (swept: Times)
      requires Valid()
      ensures swept == Swept(seen, now, ttl) && |swept| <= |seen|
    {
      swept := seen;
      var pending := seen.Keys;
      while pending != {}
        invariant pending <= seen.Keys && swept.Keys <= seen.Keys
        invariant forall k :: k in swept ==> swept[k] == seen[k]
        invariant forall k :: k in seen ==> (k in swept <==> k in pending || !Expired(seen[k], now, ttl))
        decreases |pending|
      {
        var k :| k in pending;
        pending := pending - {k};
        if now - seen[k] >= ttl {
          swept := swept - {k};
        }
      }
      SubsetSize(swept.Keys, seen.Keys);
    }
  }

  method Oldest(seen: Times) returns (oldest: string)
    requires |seen| > 0
    ensures oldest in seen && forall k :: k in seen ==> seen[oldest] <= seen[k]
  {
    assert seen.Keys != {};
    oldest :| oldest in seen;
    var pending := seen.Keys - {oldest};
    while pending != {}
      invariant pending <= seen.Keys && oldest in seen
      invariant forall k :: k in seen && k !in pending ==> seen[oldest] <= seen[k]
      decreases |pending|
    {
      var k :| k in pending;
      pending := pending - {k};
      if seen[k] < seen[oldest] {
        oldest := k;
      }
    }
  }

  /** Part-way through eviction. */
  ghost predicate TrimmedSoFar(seen: Times, kept: Times, max: nat) {
    && (forall k :: k in kept ==> k in seen && kept[k] == seen[k])
    && (forall gone, k :: gone in seen && gone !in kept && k in kept ==> seen[gone] <= seen[k])
    && (if |seen| < max then kept == seen else |kept| >= max - 1)
  }

  lemma EvictStep(seen: Times, kept: Times, oldest: string, max: nat)
    requires TrimmedSoFar(seen, kept, max) && |kept| >= max && oldest in kept
    requires forall k :: k in kept ==> kept[oldest] <= kept[k]
    ensures TrimmedSoFar(seen, kept - {oldest}, max) && |kept - {oldest}| == |kept| - 1
  {
    assert (kept - {oldest}).Keys == kept.Keys - {oldest};
  }

  /** One call of `record`: the key and the clock reading. */
  datatype Entry = Entry(key: string, at: real)

  ghost predicate Before(a: Entry, b: Entry) {
    a.at < b.at
  }

  /** The clock moves on between calls. */
  ghost predicate Increasing(log: seq<Entry>) {
    forall i, j {:trigger Before(log[i], log[j])} :: 0 <= i < j < |log| ==> Before(log[i], log[j])
  }

  ghost predicate StepAt(windows: seq<Times>, log: seq<Entry>, i: nat, ttl: real, max: nat)
    requires i < |log| && i + 1 < |windows|
  {
    RecordStep(windows[i], log[i].key, log[i].at, windows[i + 1], ttl, max)
  }

  /** The windows seen before and after each call of `record`, from an empty window. */
  ghost predicate IsRun(windows: seq<Times>, log: seq<Entry>, ttl: real, max: nat) {
    && |windows| == |log| + 1 && windows[0] == map[]
    && (forall i :: 0 <= i < |log| ==> StepAt(windows, log, i, ttl, max))
    && Increasing(log)
  }

  /** The keys other than `key` recorded after call `i` and before call `n`. */
  ghost function Others(log: seq<Entry>, i: nat, n: nat, key: string): set<string>
    requires n <= |log|
  {
    set m | i < m < n && log[m].key != key :: log[m].key
  }

  /** Every entry of the window is one of the first `n` calls of `record`. */
  ghost predicate Logged(seen: Times, log: seq<Entry>, n: nat)
    requires n <= |log|
  {
    forall k :: k in seen ==> exists m :: 0 <= m < n && log[m] == Entry(k, seen[k])
  }

  lemma {:induction false} WindowIsLogged(windows: seq<Times>, log: seq<Entry>, ttl: real, max: nat, n: nat)
    requires max > 0 && IsRun(windows, log, ttl, max) && n <= |log|
    ensures Logged(windows[n], log, n) && |windows[n]| <= max
  {
    if n > 0 {
      WindowIsLogged(windows, log, ttl, max, n - 1);
      var before, entry := windows[n - 1], log[n - 1];
      assert StepAt(windows, log, n - 1, ttl, max);
      RecordKeepsCapacity(before, entry.key, entry.at, windows[n], ttl, max);
      forall k | k in windows[n] ensures exists m :: 0 <= m < n && log[m] == Entry(k, windows[n][k]) {
        if k == entry.key {
          assert log[n - 1] == Entry(k, windows[n][k]);
        } else {
          var m :| 0 <= m < n - 1 && log[m] == Entry(k, before[k]);
          assert log[m] == Entry(k, windows[n][k]);
        }
      }
    }
  }

  /** Eviction needs room for `max - 1` newer keys before it can reach a given one. */
  lemma EvictedByNewer(swept: Times, kept: Times, key: string, log: seq<Entry>, i: nat, n: nat, max: nat)
    requires i < n <= |log| && log[i].key == key && max > 0
    requires Increasing(log)
    requires key in swept && swept[key] >= log[i].at && Logged(swept, log, n) && Trimmed(swept, kept, max)
    requires |Others(log, i, n, key)| < max - 1
    ensures key in kept
  {
    if key !in kept {
      forall k | k in kept ensures k in Others(log, i, n, key) {
        var m :| 0 <= m < n && log[m] == Entry(k, swept[k]);
        assert !Before(log[m], log[i]);
      }
      SubsetSize(kept.Keys, Others(log, i, n, key));
      assert false;
    }
  }

  lemma RecordKeepsOther(before: Times, entry: Entry, next: Times, key: string, log: seq<Entry>, i: nat, n: nat, ttl: real, max: nat)
    requires i < n <= |log| && log[i].key == key && max > 0
    requires Increasing(log)
    requires key in before && before[key] >= log[i].at && Logged(before, log, n)
    requires |Others(log, i, n, key)| < max - 1 && entry.at - log[i].at < ttl && entry.key != key
    requires RecordStep(before, entry.key, entry.at, next, ttl, max)
    ensures key in next && next[key] == before[key]
  {
    if |before| >= max {
      var swept := Swept(before, entry.at, ttl);
      var kept :| Trimmed(swept, kept, max) && next == kept[entry.key := entry.at];
      EvictedByNewer(swept, kept, key, log, i, n, max);
    }
  }

  lemma FewerOthers(log: seq<Entry>, i: nat, n: nat, key: string)
    requires n < |log|
    ensures |Others(log, i, n, key)| <= |Others(log, i, n + 1, key)|
  {
    SubsetSize(Others(log, i, n, key), Others(log, i, n + 1, key));
  }

  /**
   An unexpired key stays in the window, under a time no older than its recording, while fewer
   than `max - 1` other distinct keys have been recorded since.
   */
  lemma {:induction false} RecordedKeySurvives(windows: seq<Times>, log: seq<Entry>, ttl: real, max: nat, i: nat, n: nat)
    requires max > 0 && IsRun(windows, log, ttl, max) && i < n <= |log|
    requires log[n - 1].at - log[i].at < ttl
    requires n > i + 1 ==> |Others(log, i, n - 1, log[i].key)| < max - 1
    ensures log[i].key in windows[n] && windows[n][log[i].key] >= log[i].at
  {
    var key, entry := log[i].key, log[n - 1];
    WindowIsLogged(windows, log, ttl, max, n - 1);
    assert StepAt(windows, log, n - 1, ttl, max);
    if entry.key == key {
      assert n - 1 == i || Before(log[i], entry);
      RecordKeepsCapacity(windows[n - 1], key, entry.at, windows[n], ttl, max);
    } else {
      assert Before(log[n - 2], entry);
      FewerOthers(log, i, n - 2, key);
      RecordedKeySurvives(windows, log, ttl, max, i, n - 1);
      RecordKeepsOther(windows[n - 1], entry, windows[n], key, log, i, n - 1, ttl, max);
    }
  }

  // When a key leaves

  ghost predicate DistinctTimes(seen: Times) {
    forall a, b :: a in seen && b in seen && a != b ==> seen[a] != seen[b]
  }

  /** The unexpired entries newer than this one. */
  ghost function Newer(swept: Times, key: string): set<string>
    requires key in swept
  {
    set k | k in swept && swept[key] < swept[k]
  }

  /** Of a full swept window, exactly the `max - 1` newest entries stay. */
  lemma TrimmedIff(swept: Times, kept: Times, key: string, max: nat)
    requires max > 0 && |swept| >= max && Trimmed(swept, kept, max) && DistinctTimes(swept) && key in swept
    ensures key !in kept <==> |Newer(swept, key)| >= max - 1
  {
    if key !in kept {
      forall k | k in kept ensures k in Newer(swept, key) {
        assert swept[key] <= swept[k];
      }
      SubsetSize(kept.Keys, Newer(swept, key));
    } else {
      forall k | k in Newer(swept, key) ensures k in kept.Keys - {key} {
        assert !(swept[k] <= swept[key]);
      }
      SubsetSize(Newer(swept, key), kept.Keys - {key});
    }
  }

  /**
   One call of `record` for another key drops an entry exactly when the window was full and the
   entry has expired, or the window is still full without the expired ones and `max - 1`
   unexpired entries are newer.
   */
  lemma EvictedIff(before: Times, entry: Entry, next: Times, key: string, ttl: real, max: nat)
    requires max > 0 && RecordStep(before, entry.key, entry.at, next, ttl, max) && DistinctTimes(before)
    requires key in before && key != entry.key
    ensures var swept := Swept(before, entry.at, ttl);
            key !in next <==>
              && |before| >= max
              && (key !in swept || (|swept| >= max && |Newer(swept, key)| >= max - 1))
  {
    if |before| >= max {
      var swept := Swept(before, entry.at, ttl);
      var kept :| Trimmed(swept, kept, max) && next == kept[entry.key := entry.at];
      assert key in next <==> key in kept;
      if key in swept && |swept| >= max {
        assert DistinctTimes(swept);
        TrimmedIff(swept, kept, key, max);
      }
    }
  }

  /** With a clock that moves on, the entries of the window have different times. */
  lemma LoggedTimesDistinct(seen: Times, log: seq<Entry>, n: nat)
    requires n <= |log| && Increasing(log) && Logged(seen, log, n)
    ensures DistinctTimes(seen)
  {
    forall a, b | a in seen && b in seen && a != b ensures seen[a] != seen[b] {
      var i :| 0 <= i < n && log[i] == Entry(a, seen[a]);
      var j :| 0 <= j < n && log[j] == Entry(b, seen[b]);
      assert if i < j then Before(log[i], log[j]) else Before(log[j], log[i]);
    }
  }

  /** In a run, each call drops exactly the entries the condition names. */
  lemma EvictedInRun(windows: seq<Times>, log: seq<Entry>, ttl: real, max: nat, n: nat, key: string)
    requires max > 0 && IsRun(windows, log, ttl, max) && n < |log| && key in windows[n] && key != log[n].key
    ensures var swept := Swept(windows[n], log[n].at, ttl);
            key !in windows[n + 1] <==>
              && |windows[n]| >= max
              && (key !in swept || (|swept| >= max && |Newer(swept, key)| >= max - 1))
  {
    WindowIsLogged(windows, log, ttl, max, n);
    LoggedTimesDistinct(windows[n], log, n);
    assert StepAt(windows, log, n, ttl, max);
    EvictedIff(windows[n], log[n], windows[n + 1], key, ttl, max);
  }

  // The survival bound is tight at every capacity

  /** The `i`-th of infinitely many keys. */
  function Name(i: nat): (name: string)
    ensures |name| == i
  {
    seq(i, _ => 'k')
  }

  /** The window after recording the names `1` to `n` at the times `0` to `n - 1`. */
  ghost function Filled(n: nat): Times {
    if n == 0 then map[] else Filled(n - 1)[Name(n) := (n - 1) as real]
  }

  lemma {:induction false} FilledKeys(n: nat, k: string)
    ensures k in Filled(n) <==> 1 <= |k| <= n && k == Name(|k|)
    ensures k in Filled(n) ==> Filled(n)[k] == (|k| - 1) as real
  {
    if n > 0 {
      FilledKeys(n - 1, k);
    }
  }

  lemma {:induction false} FilledSize(n: nat)
    ensures |Filled(n)| == n
  {
    if n > 0 {
      FilledSize(n - 1);
      FilledKeys(n - 1, Name(n));
      AddedSize(Filled(n - 1), Name(n), (n - 1) as real);
    }
  }

  lemma AddedSize(seen: Times, key: string, at: real)
    requires key !in seen
    ensures |seen[key := at]| == |seen| + 1
  {
    assert seen[key := at].Keys == seen.Keys + {key};
  }

  /** The first name recorded, `max - 1` others, and the last of them once more. */
  ghost function FillingLog(max: nat): (log: seq<Entry>)
    requires max >= 2
    ensures |log| == max + 1 && log[max] == Entry(Name(max), max as real)
    ensures forall i :: 0 <= i < max ==> log[i] == Entry(Name(i + 1), i as real)
  {
    seq(max, (i: nat) => Entry(Name(i + 1), i as real)) + [Entry(Name(max), max as real)]
  }

  ghost function FillingWindows(max: nat): (windows: seq<Times>)
    requires max >= 2
    ensures |windows| == max + 2 && windows[max + 1] == (Filled(max) - {Name(1)})[Name(max) := max as real]
    ensures forall i :: 0 <= i <= max ==> windows[i] == Filled(i)
  {
    seq(max + 1, (i: nat) => Filled(i)) + [(Filled(max) - {Name(1)})[Name(max) := max as real]]
  }

  /** A full window of unexpired entries makes room by dropping its oldest one. */
  lemma OldestLeaves(full: Times, oldest: string, key: string, now: real, ttl: real, max: nat)
    requires |full| == max > 0 && oldest in full && DistinctTimes(full)
    requires forall k :: k in full ==> full[oldest] <= full[k] && now - full[k] < ttl
    ensures RecordStep(full, key, now, (full - {oldest})[key := now], ttl, max)
  {
    var kept := full - {oldest};
    assert Swept(full, now, ttl) == full;
    assert kept.Keys == full.Keys - {oldest};
    assert Trimmed(full, kept, max);
  }

  lemma FirstNameGoes(max: nat, ttl: real)
    requires max >= 2 && ttl > max as real
    ensures RecordStep(Filled(max), Name(max), max as real, (Filled(max) - {Name(1)})[Name(max) := max as real], ttl, max)
  {
    FilledSize(max);
    FilledKeys(max, Name(1));
    forall k | k in Filled(max) ensures Filled(max)[Name(1)] <= Filled(max)[k] && max as real - Filled(max)[k] < ttl {
      FilledKeys(max, k);
    }
    forall a, b | a in Filled(max) && b in Filled(max) && a != b ensures Filled(max)[a] != Filled(max)[b] {
      FilledKeys(max, a);
      FilledKeys(max, b);
    }
    OldestLeaves(Filled(max), Name(1), Name(max), max as real, ttl, max);
  }

  lemma OthersAreAll(max: nat)
    requires max >= 2
    ensures |Others(FillingLog(max), 0, max, Name(1))| == max - 1
  {
    var log, others := FillingLog(max), Others(FillingLog(max), 0, max, Name(1));
    forall k ensures k in others <==> k in Filled(max) && k != Name(1) {
      FilledKeys(max, k);
      if k in Filled(max) && k != Name(1) {
        assert log[|k| - 1].key == k;
      }
    }
    FilledSize(max);
    FilledKeys(max, Name(1));
    assert others == Filled(max).Keys - {Name(1)};
  }

  lemma FillingStep(max: nat, ttl: real, i: nat)
    requires max >= 2 && ttl > max as real && i <= max
    ensures StepAt(FillingWindows(max), FillingLog(max), i, ttl, max)
  {
    if i < max {
      FilledSize(i);
    } else {
      FirstNameGoes(max, ttl);
      FilledSize(max);
    }
  }

  /**
   The bound is tight at every capacity: there is a run that loses a key well within its time to
   live although only `max - 1` other keys were recorded since.
   */
  lemma SurvivalIsTight(max: nat, ttl: real)
    requires max >= 2 && ttl > max as real
    ensures var log := FillingLog(max);
            && IsRun(FillingWindows(max), log, ttl, max)
            && log[0].key !in FillingWindows(max)[max + 1] && log[max].at - log[0].at < ttl
            && |Others(log, 0, max, log[0].key)| == max - 1
  {
    var log, windows := FillingLog(max), FillingWindows(max);
    forall i | 0 <= i < |log| ensures StepAt(windows, log, i, ttl, max) {
      FillingStep(max, ttl, i);
    }
    forall i, j | 0 <= i < j < |log| ensures Before(log[i], log[j]) {
      assert log[i].at == i as real && log[j].at == j as real;
    }
    assert Increasing(log);
    OthersAreAll(max);
    assert |Name(1)| != |Name(max)|;
  }
}
