/** The sliding-window rate limiter (kosta-server/src/rate_limiter.rs). */
module RateLimiter {
  import opened Wrappers

  datatype LimitError = RateLimitExceeded

  /** Time between two instants, zero when the clock would have to run backwards. */
  function Elapsed(now: nat, t: nat): nat {
    if now >= t then now - t else 0
  }

  /** The timestamps younger than the window. */
  function Retained(timestamps: seq<nat>, now: nat, window: nat): (r: seq<nat>) {
    if timestamps == [] then []
    else
      var last := timestamps[|timestamps| - 1];
      var kept := Retained(timestamps[..|timestamps| - 1], now, window);
      if Elapsed(now, last) < window then kept + [last] else kept
  }

  function Stored<K(==)>(storage: map<K, seq<nat>>, key: K): seq<nat> {
    if key in storage then storage[key] else []
  }

  predicate Admits<K(==)>(storage: map<K, seq<nat>>, key: K, now: nat, window: nat, maxRequests: nat) {
    |Retained(Stored(storage, key), now, window)| < maxRequests
  }

  function Updated<K(==)>(storage: map<K, seq<nat>>, key: K, now: nat, window: nat, maxRequests: nat): map<K, seq<nat>> {
    var kept := Retained(Stored(storage, key), now, window);
    storage[key := if |kept| < maxRequests then kept + [now] else kept]
  }

  class Limiter<K(==)> {
    const window: nat
    const maxRequests: nat
    var storage: map<K, seq<nat>>

    constructor (window: nat, maxRequests: nat)
      ensures this.window == window && this.maxRequests == maxRequests && storage == map[]
    {
      this.window := window;
      this.maxRequests := maxRequests;
      storage := map[];
    }

    method Check(key: K, now: nat) returns (r: Result<(), LimitError>)
      modifies this`storage
      ensures r.Ok? <==> Admits(old(storage), key, now, window, maxRequests)
      ensures (forall t :: t in Stored(old(storage), key) ==> t <= now) ==>
        (r.Ok? <==> CountBetween(Stored(old(storage), key), WindowStart(now, window), now + 1) < maxRequests)
      ensures storage == Updated(old(storage), key, now, window, maxRequests)
    {
      StoredCounts(Stored(storage, key), now, window);
      var timestamps := if key in storage then storage[key] else [];
      timestamps := Retained(timestamps, now, window);
      if |timestamps| >= maxRequests {
        storage := storage[key := timestamps];
        return Err(RateLimitExceeded);
      } else {
        timestamps := timestamps + [now];
        storage := storage[key := timestamps];
        return Ok(());
      }
    }
  }

  // ---------- whole runs ----------

  datatype Call<K> = Call(key: K, now: nat)

  ghost predicate ClockRuns<K>(calls: seq<Call<K>>) {
    forall i, j :: 0 <= i < j < |calls| ==> calls[i].now <= calls[j].now
  }

  /** The storage after a run of checks. */
  function StorageAfter<K(==)>(calls: seq<Call<K>>, window: nat, maxRequests: nat): map<K, seq<nat>> {
    if calls == [] then map[]
    else
      var last := calls[|calls| - 1];
      Updated(StorageAfter(calls[..|calls| - 1], window, maxRequests), last.key, last.now, window, maxRequests)
  }

  /** Whether the run's storage admits one more call. */
  predicate Admitted<K(==)>(before: seq<Call<K>>, call: Call<K>, window: nat, maxRequests: nat) {
    Admits(StorageAfter(before, window, maxRequests), call.key, call.now, window, maxRequests)
  }

  /** The times at which a key was admitted over a whole run, nothing pruned. */
  function Admissions<K(==)>(calls: seq<Call<K>>, key: K, window: nat, maxRequests: nat): seq<nat> {
    if calls == [] then []
    else
      var before, last := calls[..|calls| - 1], calls[|calls| - 1];
      var earlier := Admissions(before, key, window, maxRequests);
      if last.key == key && Admitted(before, last, window, maxRequests) then earlier + [last.now] else earlier
  }

  /** How many of the times lie in the half-open interval from lo to hi. */
  function CountBetween(times: seq<nat>, lo: nat, hi: nat): nat {
    if times == [] then 0
    else
      var last := times[|times| - 1];
      CountBetween(times[..|times| - 1], lo, hi) + if lo <= last < hi then 1 else 0
  }

  lemma {:induction false} RetainedTwice(times: seq<nat>, earlier: nat, now: nat, window: nat)
    requires earlier <= now
    ensures Retained(Retained(times, earlier, window), now, window) == Retained(times, now, window)
  {
    if times != [] {
      var init, last := times[..|times| - 1], times[|times| - 1];
      RetainedTwice(init, earlier, now, window);
      if Elapsed(earlier, last) < window {
        RetainedSnoc(Retained(init, earlier, window), last, now, window);
      }
    }
  }

  lemma RetainedSnoc(times: seq<nat>, t: nat, now: nat, window: nat)
    ensures Elapsed(now, t) < window ==> Retained(times + [t], now, window) == Retained(times, now, window) + [t]
    ensures Elapsed(now, t) >= window ==> Retained(times + [t], now, window) == Retained(times, now, window)
  {
    assert (times + [t])[..|times|] == times;
  }

  lemma CountSnoc(times: seq<nat>, t: nat, lo: nat, hi: nat)
    ensures CountBetween(times + [t], lo, hi) == CountBetween(times, lo, hi) + if lo <= t < hi then 1 else 0
  {
    assert (times + [t])[..|times|] == times;
  }

  lemma StoredAfterUpdate<K>(storage: map<K, seq<nat>>, call: Call<K>, key: K, window: nat, maxRequests: nat)
    ensures key != call.key ==>
      Stored(Updated(storage, call.key, call.now, window, maxRequests), key) == Stored(storage, key)
    ensures key == call.key ==>
      Stored(Updated(storage, call.key, call.now, window, maxRequests), key) ==
        var kept := Retained(Stored(storage, key), call.now, window);
        if Admits(storage, key, call.now, window, maxRequests) then kept + [call.now] else kept
  {
  }

  /** Pruning loses nothing that could still count: the stored times of a key and its full history
      retain the same times at every later moment. */
  lemma {:induction false} PruningIsInvisible<K>(calls: seq<Call<K>>, key: K, now: nat, window: nat, maxRequests: nat)
    requires ClockRuns(calls) && (calls != [] ==> calls[|calls| - 1].now <= now)
    ensures Retained(Stored(StorageAfter(calls, window, maxRequests), key), now, window)
         == Retained(Admissions(calls, key, window, maxRequests), now, window)
  {
    if calls != [] {
      var before, last := calls[..|calls| - 1], calls[|calls| - 1];
      hide Retained;
      PruningIsInvisible(before, key, now, window, maxRequests);
      StoredAfterUpdate(StorageAfter(before, window, maxRequests), last, key, window, maxRequests);
      if last.key == key {
        PrunedAlike(Stored(StorageAfter(before, window, maxRequests), key), Admissions(before, key, window, maxRequests),
                    last.now, now, window);
      }
    }
  }

  lemma PrunedAlike(stored: seq<nat>, history: seq<nat>, last: nat, now: nat, window: nat)
    requires last <= now && Retained(stored, now, window) == Retained(history, now, window)
    ensures Retained(Retained(stored, last, window), now, window) == Retained(history, now, window)
    ensures Retained(Retained(stored, last, window) + [last], now, window) == Retained(history + [last], now, window)
  {
    hide Retained;
    RetainedTwice(stored, last, now, window);
    RetainedSnoc(Retained(stored, last, window), last, now, window);
    RetainedSnoc(history, last, now, window);
  }

  /** The times kept now are those less than one window ago. */
  lemma {:induction false} RetainedCounts(times: seq<nat>, now: nat, window: nat)
    requires forall i :: 0 <= i < |times| ==> times[i] <= now
    ensures |Retained(times, now, window)| == CountBetween(times, WindowStart(now, window), now + 1)
  {
    if times != [] { RetainedCounts(times[..|times| - 1], now, window); }
  }

  lemma StoredCounts(times: seq<nat>, now: nat, window: nat)
    ensures (forall t :: t in times ==> t <= now) ==>
      |Retained(times, now, window)| == CountBetween(times, WindowStart(now, window), now + 1)
  {
    if forall t :: t in times ==> t <= now {
      assert forall i :: 0 <= i < |times| ==> times[i] <= now by {
        forall i | 0 <= i < |times| ensures times[i] <= now { assert times[i] in times; }
      }
      RetainedCounts(times, now, window);
    }
  }

  /** The first instant less than one window before now. */
  function WindowStart(now: nat, window: nat): nat {
    if now >= window then now - window + 1 else 0
  }

  lemma {:induction false} AdmittedEarlier<K>(calls: seq<Call<K>>, key: K, now: nat, window: nat, maxRequests: nat)
    requires ClockRuns(calls) && (calls != [] ==> calls[|calls| - 1].now <= now)
    ensures forall i :: 0 <= i < |Admissions(calls, key, window, maxRequests)| ==>
      Admissions(calls, key, window, maxRequests)[i] <= now
  {
    if calls != [] { AdmittedEarlier(calls[..|calls| - 1], key, now, window, maxRequests); }
  }

  /** A call is refused exactly when maxRequests or more admissions of its key, in the full history, are less
      than one window old. */
  lemma RefusedIffWindowFull<K>(before: seq<Call<K>>, call: Call<K>, window: nat, maxRequests: nat)
    requires ClockRuns(before + [call])
    ensures !Admitted(before, call, window, maxRequests)
       <==> CountBetween(Admissions(before, call.key, window, maxRequests), WindowStart(call.now, window), call.now + 1) >= maxRequests
  {
    hide ClockRuns, Admissions, StorageAfter, Retained, CountBetween;
    ClockRunsPrefix(before, call);
    PruningIsInvisible(before, call.key, call.now, window, maxRequests);
    HistoryCounts(before, call, window, maxRequests);
  }

  lemma HistoryCounts<K>(before: seq<Call<K>>, call: Call<K>, window: nat, maxRequests: nat)
    requires ClockRuns(before + [call])
    ensures var history := Admissions(before, call.key, window, maxRequests);
      |Retained(history, call.now, window)| == CountBetween(history, WindowStart(call.now, window), call.now + 1)
  {
    hide ClockRuns, Admissions, Retained, CountBetween;
    ClockRunsPrefix(before, call);
    AdmittedEarlier(before, call.key, call.now, window, maxRequests);
    RetainedCounts(Admissions(before, call.key, window, maxRequests), call.now, window);
  }

  lemma {:induction false} NoneBetween(times: seq<nat>, lo: nat, hi: nat)
    requires forall i :: 0 <= i < |times| ==> !(lo <= times[i] < hi)
    ensures CountBetween(times, lo, hi) == 0
  {
    if times != [] { NoneBetween(times[..|times| - 1], lo, hi); }
  }

  /** No key is shut out for longer than a window: after a window without an admission it is admitted. */
  lemma AdmittedAfterPause<K>(before: seq<Call<K>>, call: Call<K>, window: nat, maxRequests: nat)
    requires ClockRuns(before + [call]) && maxRequests > 0
    requires forall t :: t in Admissions(before, call.key, window, maxRequests) ==> t + window <= call.now
    ensures Admitted(before, call, window, maxRequests)
  {
    hide Admissions, Admitted, ClockRuns, CountBetween;
    RefusedIffWindowFull(before, call, window, maxRequests);
    NoneRecent(Admissions(before, call.key, window, maxRequests), call.now, window);
  }

  lemma NoneRecent(times: seq<nat>, now: nat, window: nat)
    requires forall t :: t in times ==> t + window <= now
    ensures CountBetween(times, WindowStart(now, window), now + 1) == 0
  {
    forall i | 0 <= i < |times| ensures !(WindowStart(now, window) <= times[i] < now + 1) {
      assert times[i] in times;
    }
    NoneBetween(times, WindowStart(now, window), now + 1);
  }

  /** Other keys play no part: the calls of a key alone decide. */
  lemma {:induction false} KeysAreSeparate<K>(calls: seq<Call<K>>, key: K, window: nat, maxRequests: nat)
    ensures Stored(StorageAfter(calls, window, maxRequests), key)
         == Stored(StorageAfter(CallsOf(calls, key), window, maxRequests), key)
  {
    if calls != [] {
      var before, last := calls[..|calls| - 1], calls[|calls| - 1];
      KeysAreSeparate(before, key, window, maxRequests);
      StoredAfterUpdate(StorageAfter(before, window, maxRequests), last, key, window, maxRequests);
      if last.key == key {
        var own := CallsOf(before, key);
        assert (own + [last])[..|own|] == own;
        StoredAfterUpdate(StorageAfter(own, window, maxRequests), last, key, window, maxRequests);
      }
    }
  }

  /** The calls of one key. */
  function CallsOf<K(==)>(calls: seq<Call<K>>, key: K): seq<Call<K>> {
    if calls == [] then []
    else
      var earlier, last := CallsOf(calls[..|calls| - 1], key), calls[|calls| - 1];
      if last.key == key then earlier + [last] else earlier
  }

  lemma ClockRunsPrefix<K>(before: seq<Call<K>>, call: Call<K>)
    requires ClockRuns(before + [call])
    ensures ClockRuns(before) && (before != [] ==> before[|before| - 1].now <= call.now)
  {
    assert before != [] ==> (before + [call])[|before| - 1].now <= (before + [call])[|before|].now;
    forall i, j | 0 <= i < j < |before| ensures before[i].now <= before[j].now {
      assert (before + [call])[i].now <= (before + [call])[j].now;
    }
  }

  /** Everything in an interval of one window length that contains now is still in the window. */
  lemma {:induction false} IntervalWithinWindow(times: seq<nat>, lo: nat, now: nat, window: nat)
    requires lo <= now < lo + window
    ensures CountBetween(times, lo, lo + window) <= |Retained(times, now, window)|
  {
    if times != [] {
      IntervalWithinWindow(times[..|times| - 1], lo, now, window);
    }
  }

  /** No interval of one window length ever holds more than maxRequests admissions of one key,
      however the calls of different keys interleave. */
  lemma {:induction false} SlidingWindowBound<K>(calls: seq<Call<K>>, key: K, lo: nat, window: nat, maxRequests: nat)
    requires ClockRuns(calls)
    ensures CountBetween(Admissions(calls, key, window, maxRequests), lo, lo + window) <= maxRequests
  {
    if calls != [] {
      var before, last := calls[..|calls| - 1], calls[|calls| - 1];
      assert calls == before + [last];
      var history := Admissions(before, key, window, maxRequests);
      assert Admissions(calls, key, window, maxRequests) ==
        if last.key == key && Admitted(before, last, window, maxRequests) then history + [last.now] else history;
      hide ClockRuns, Admissions, CountBetween, Retained, Admitted;
      ClockRunsPrefix(before, last);
      SlidingWindowBound(before, key, lo, window, maxRequests);
      if last.key == key && Admitted(before, last, window, maxRequests) {
        RefusedIffWindowFull(before, last, window, maxRequests);
        HistoryCounts(before, last, window, maxRequests);
        OneMoreFits(history, last.now, lo, window, maxRequests);
      }
    }
  }

  lemma OneMoreFits(history: seq<nat>, now: nat, lo: nat, window: nat, maxRequests: nat)
    requires CountBetween(history, lo, lo + window) <= maxRequests && |Retained(history, now, window)| < maxRequests
    ensures CountBetween(history + [now], lo, lo + window) <= maxRequests
  {
    CountSnoc(history, now, lo, lo + window);
    if lo <= now < lo + window { IntervalWithinWindow(history, lo, now, window); }
  }
}
