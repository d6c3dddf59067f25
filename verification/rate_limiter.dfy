/** The sliding-window rate limiter of backend/middleware.js. Each key (the
    client's address) owns a list of request timestamps; a request first prunes
    the list to the timestamps inside the window, is refused with 429 when the
    pruned list already holds `max` of them, and is otherwise recorded. A
    periodic sweep drops timestamps older than an hour and forgets empty keys.
    The clock is a parameter. */
module RateLimiter {

  type Store = map<string, seq<int>>

  /** The limiter's options and their defaults. */
  datatype Options = Options(windowMs: int, max: int)

  const DefaultOptions := Options(60000, 10)

  /** The age beyond which the sweep drops a timestamp: one hour. */
  const SweepAgeMs := 3600000

  /** The list stored for a key; a key seen for the first time starts empty. */
  function Stored(store: Store, key: string): seq<int> {
    if key in store then store[key] else []
  }

  /** `ts.filter(time => now - time < windowMs)`, order kept. */
  function Prune(ts: seq<int>, now: int, windowMs: int): seq<int>
    decreases |ts|
  {
    if |ts| == 0 then []
    else Prune(ts[..|ts| - 1], now, windowMs) + (if now - ts[|ts| - 1] < windowMs then [ts[|ts| - 1]] else [])
  }

  /** The positions of the timestamps inside the window. */
  function RecentIndices(ts: seq<int>, now: int, windowMs: int): set<int> {
    set i | 0 <= i < |ts| && now - ts[i] < windowMs
  }

  /** Pruning keeps exactly the timestamps inside the window. */
  lemma {:induction false} PruneMembers(ts: seq<int>, now: int, windowMs: int)
    ensures forall x :: x in Prune(ts, now, windowMs) <==> x in ts && now - x < windowMs
    ensures |Prune(ts, now, windowMs)| <= |ts|
    decreases |ts|
  {
    if |ts| > 0 {
      var init := ts[..|ts| - 1];
      PruneMembers(init, now, windowMs);
      assert ts == init + [ts[|ts| - 1]];
    }
  }

  /** The pruned list is as long as the number of timestamps inside the window. */
  lemma {:induction false} PruneCountsRecent(ts: seq<int>, now: int, windowMs: int)
    ensures |Prune(ts, now, windowMs)| == |RecentIndices(ts, now, windowMs)|
    decreases |ts|
  {
    if |ts| > 0 {
      var n := |ts| - 1;
      var init := ts[..n];
      PruneCountsRecent(init, now, windowMs);
      var before := RecentIndices(init, now, windowMs);
      assert n !in before;
      if now - ts[n] < windowMs {
        assert RecentIndices(ts, now, windowMs) == before + {n};
      } else {
        assert RecentIndices(ts, now, windowMs) == before;
      }
    }
  }

  /** Pruning distributes over concatenation. */
  lemma {:induction false} PruneAppend(a: seq<int>, b: seq<int>, now: int, windowMs: int)
    ensures Prune(a + b, now, windowMs) == Prune(a, now, windowMs) + Prune(b, now, windowMs)
    decreases |b|
  {
    if |b| == 0 {
      assert a + b == a;
    } else {
      var initB := b[..|b| - 1];
      assert (a + b)[..|a + b| - 1] == a + initB;
      assert (a + b)[|a + b| - 1] == b[|b| - 1];
      PruneAppend(a, initB, now, windowMs);
    }
  }

  /** Pruning at an earlier time and then at a later one is pruning at the later
      one: a timestamp outside the window stays outside as time moves on. */
  lemma {:induction false} PruneLater(ts: seq<int>, earlier: int, later: int, windowMs: int)
    requires earlier <= later
    ensures Prune(Prune(ts, earlier, windowMs), later, windowMs) == Prune(ts, later, windowMs)
    decreases |ts|
  {
    if |ts| > 0 {
      var init := ts[..|ts| - 1];
      var x := ts[|ts| - 1];
      var tail := if earlier - x < windowMs then [x] else [];
      PruneLater(init, earlier, later, windowMs);
      PruneAppend(Prune(init, earlier, windowMs), tail, later, windowMs);
    }
  }

  datatype Verdict = Allowed | TooManyRequests

  function VerdictCode(v: Verdict): int {
    if v.Allowed? then 200 else 429
  }

  /** One request for `key` at time `now`: the stored list is replaced by its
      pruned copy, and the request is refused when that copy already holds
      `max` timestamps, and recorded otherwise. */
  function Request(store: Store, key: string, now: int, opts: Options): (Store, Verdict) {
    var pruned := Prune(Stored(store, key), now, opts.windowMs);
    if |pruned| >= opts.max then (store[key := pruned], TooManyRequests)
    else (store[key := pruned + [now]], Allowed)
  }

  /** A request is refused exactly when at least `max` of the key's timestamps
      lie inside the window; a refused request stores only the pruned list, an
      allowed one appends `now` to it; no other key changes. */
  lemma RequestSpec(store: Store, key: string, now: int, opts: Options)
    ensures var (s, v) := Request(store, key, now, opts);
            && (v == TooManyRequests <==> |RecentIndices(Stored(store, key), now, opts.windowMs)| >= opts.max)
            && (v == TooManyRequests ==> s[key] == Prune(Stored(store, key), now, opts.windowMs))
            && (v == Allowed ==> s[key] == Prune(Stored(store, key), now, opts.windowMs) + [now])
            && s.Keys == store.Keys + {key}
            && (forall k :: k in store && k != key ==> s[k] == store[k])
  {
    PruneCountsRecent(Stored(store, key), now, opts.windowMs);
  }

  /** Every list holds at most `max` timestamps. */
  predicate Bounded(store: Store, max: int) {
    forall k :: k in store ==> |store[k]| <= max
  }

  /** A request keeps every list within `max`. */
  lemma RequestKeepsBound(store: Store, key: string, now: int, opts: Options)
    requires opts.max >= 0 && Bounded(store, opts.max)
    ensures Bounded(Request(store, key, now, opts).0, opts.max)
  {
    PruneMembers(Stored(store, key), now, opts.windowMs);
  }

  // ---------------------------------------------------------------------------
  // A run of requests through one limiter
  // ---------------------------------------------------------------------------

  datatype Req = Req(key: string, now: int)

  /** A served request and its verdict. */
  datatype Entry = Entry(key: string, now: int, verdict: Verdict)

  /** The requests served in order from an empty store: the final store and the log. */
  function Serve(reqs: seq<Req>, opts: Options): (Store, seq<Entry>)
    decreases |reqs|
  {
    if |reqs| == 0 then (map[], [])
    else
      var (s, log) := Serve(reqs[..|reqs| - 1], opts);
      var r := reqs[|reqs| - 1];
      var (s', v) := Request(s, r.key, r.now, opts);
      (s', log + [Entry(r.key, r.now, v)])
  }

  /** However many requests one limiter serves, no list grows beyond `max`. */
  lemma {:induction false} ServeKeepsBound(reqs: seq<Req>, opts: Options)
    requires opts.max >= 0
    ensures Bounded(Serve(reqs, opts).0, opts.max)
    decreases |reqs|
  {
    if |reqs| > 0 {
      var r := reqs[|reqs| - 1];
      ServeKeepsBound(reqs[..|reqs| - 1], opts);
      RequestKeepsBound(Serve(reqs[..|reqs| - 1], opts).0, r.key, r.now, opts);
    }
  }

  /** The times of the key's allowed requests, in order. */
  function AllowedTimes(log: seq<Entry>, key: string): seq<int>
    decreases |log|
  {
    if |log| == 0 then []
    else
      var e := log[|log| - 1];
      AllowedTimes(log[..|log| - 1], key) + (if e.key == key && e.verdict == Allowed then [e.now] else [])
  }

  predicate Chronological(reqs: seq<Req>) {
    forall i, j :: 0 <= i < j < |reqs| ==> reqs[i].now <= reqs[j].now
  }

  /** Seen from any time from `since` on, each key's stored list has the same
      timestamps inside the window as the key's allowed requests in the log. */
  ghost predicate Tracks(store: Store, log: seq<Entry>, since: int, windowMs: int) {
    forall k, t :: since <= t ==> Prune(Stored(store, k), t, windowMs) == Prune(AllowedTimes(log, k), t, windowMs)
  }

  /** One request preserves the tracking from its own time on. */
  lemma RequestTracks(store: Store, log: seq<Entry>, since: int, key: string, now: int, opts: Options)
    requires since <= now && Tracks(store, log, since, opts.windowMs)
    ensures var (s, v) := Request(store, key, now, opts);
            Tracks(s, log + [Entry(key, now, v)], now, opts.windowMs)
  {
    var w := opts.windowMs;
    var (s, v) := Request(store, key, now, opts);
    var log' := log + [Entry(key, now, v)];
    assert log'[..|log'| - 1] == log;
    forall k, t | now <= t
      ensures Prune(Stored(s, k), t, w) == Prune(AllowedTimes(log', k), t, w)
    {
      if k == key {
        var pruned := Prune(Stored(store, key), now, w);
        var tail := if v == Allowed then [now] else [];
        assert Stored(s, k) == pruned + tail;
        assert AllowedTimes(log', k) == AllowedTimes(log, k) + tail;
        PruneAppend(pruned, tail, t, w);
        PruneAppend(AllowedTimes(log, k), tail, t, w);
        PruneLater(Stored(store, key), now, t, w);
      } else {
        assert Stored(s, k) == Stored(store, k);
        assert AllowedTimes(log', k) == AllowedTimes(log, k);
      }
    }
  }

  /** The run keeps a log entry per request, in order, and keeps tracking the
      allowed requests from the last request's time on. */
  lemma {:induction false} ServeTracks(reqs: seq<Req>, opts: Options)
    requires |reqs| > 0 && Chronological(reqs)
    ensures var (s, log) := Serve(reqs, opts);
            && |log| == |reqs|
            && (forall i :: 0 <= i < |log| ==> log[i].key == reqs[i].key && log[i].now == reqs[i].now)
            && Tracks(s, log, reqs[|reqs| - 1].now, opts.windowMs)
    decreases |reqs|
  {
    var init := reqs[..|reqs| - 1];
    var r := reqs[|reqs| - 1];
    var (s0, log0) := Serve(init, opts);
    if |init| == 0 {
      forall k, t ensures Prune(Stored(s0, k), t, opts.windowMs) == Prune(AllowedTimes(log0, k), t, opts.windowMs) {
      }
      RequestTracks(s0, log0, r.now, r.key, r.now, opts);
    } else {
      ServeTracks(init, opts);
      RequestTracks(s0, log0, init[|init| - 1].now, r.key, r.now, opts);
    }
  }

  /** Before any request of a chronological run, the key's stored list holds
      the same timestamps inside the window as its allowed requests so far. */
  lemma StoredMatchesAllowed(reqs: seq<Req>, key: string, now: int, opts: Options)
    requires Chronological(reqs) && (|reqs| > 0 ==> reqs[|reqs| - 1].now <= now)
    ensures var (s, log) := Serve(reqs, opts);
            Prune(Stored(s, key), now, opts.windowMs) == Prune(AllowedTimes(log, key), now, opts.windowMs)
  {
    if |reqs| > 0 {
      ServeTracks(reqs, opts);
    }
  }

  /** The verdict of the last request of a chronological run: it is allowed
      exactly when fewer than `max` of the same key's earlier allowed requests
      lie inside the window ending at its time. So a key never has more than
      `max` allowed requests in any window, refused requests not counting. */
  lemma ServeIsSlidingWindowLog(reqs: seq<Req>, opts: Options)
    requires |reqs| > 0 && Chronological(reqs)
    ensures var log := Serve(reqs, opts).1;
            var r := reqs[|reqs| - 1];
            && |log| == |reqs|
            && (log[|log| - 1].verdict == Allowed <==>
                  |Prune(AllowedTimes(log[..|log| - 1], r.key), r.now, opts.windowMs)| < opts.max)
  {
    var init := reqs[..|reqs| - 1];
    var r := reqs[|reqs| - 1];
    assert Chronological(init);
    StoredMatchesAllowed(init, r.key, r.now, opts);
    ServeLength(reqs, opts);
    var log0 := Serve(init, opts).1;
    var log := Serve(reqs, opts).1;
    assert log[..|log| - 1] == log0;
  }

  lemma {:induction false} ServeLength(reqs: seq<Req>, opts: Options)
    ensures |Serve(reqs, opts).1| == |reqs|
    decreases |reqs|
  {
    if |reqs| > 0 {
      ServeLength(reqs[..|reqs| - 1], opts);
    }
  }

  // ---------------------------------------------------------------------------
  // The periodic sweep
  // ---------------------------------------------------------------------------

  /** One pass of the cleanup interval at time `now`. */
  function Sweep(store: Store, now: int): Store {
    map k | k in store && |Prune(store[k], now, SweepAgeMs)| > 0 :: Prune(store[k], now, SweepAgeMs)
  }

  /** The sweep keeps a key exactly when one of its timestamps is younger than an
      hour, keeps only those timestamps, and never adds a key. */
  lemma SweepSpec(store: Store, now: int)
    ensures forall k :: k in Sweep(store, now) <==> k in store && exists t :: t in store[k] && now - t < SweepAgeMs
    ensures forall k :: k in Sweep(store, now) ==>
              forall t :: t in Sweep(store, now)[k] <==> t in store[k] && now - t < SweepAgeMs
  {
    forall k | k in store
      ensures |Prune(store[k], now, SweepAgeMs)| > 0 <==> exists t :: t in store[k] && now - t < SweepAgeMs
      ensures forall t :: t in Prune(store[k], now, SweepAgeMs) <==> t in store[k] && now - t < SweepAgeMs
    {
      PruneMembers(store[k], now, SweepAgeMs);
      PruneEmptyIffNoneRecent(store[k], now, SweepAgeMs);
    }
  }

  /** Pruning leaves something exactly when some timestamp is inside the window. */
  lemma PruneEmptyIffNoneRecent(ts: seq<int>, now: int, windowMs: int)
    ensures |Prune(ts, now, windowMs)| > 0 <==> exists t :: t in ts && now - t < windowMs
  {
    var kept := Prune(ts, now, windowMs);
    PruneMembers(ts, now, windowMs);
    if |kept| > 0 {
      var t := kept[0];
      assert t in kept;
      assert t in ts && now - t < windowMs;
    }
    if exists t :: t in ts && now - t < windowMs {
      var t :| t in ts && now - t < windowMs;
      assert t in kept;
    }
  }

  /** The sweep does not change the decision of a request made at the same time
      or later, as long as the window is at most an hour. */
  lemma SweepPreservesVerdicts(store: Store, now: int, key: string, later: int, opts: Options)
    requires now <= later && opts.windowMs <= SweepAgeMs
    ensures Request(Sweep(store, now), key, later, opts).1 == Request(store, key, later, opts).1
  {
    var w := opts.windowMs;
    if key in store {
      var ts := store[key];
      PruneCountsRecent(ts, later, w);
      PruneCountsRecent(Prune(ts, now, SweepAgeMs), later, w);
      PruneMembers(ts, now, SweepAgeMs);
      PruneMembers(ts, later, w);
      PruneMembers(Prune(ts, now, SweepAgeMs), later, w);
      if |Prune(ts, now, SweepAgeMs)| > 0 {
        assert Prune(Prune(ts, now, SweepAgeMs), later, w) == Prune(ts, later, w) by {
          PruneWider(ts, now, later, w);
        }
      } else {
        assert Prune(ts, later, w) == [] by {
          PruneWider(ts, now, later, w);
          assert Prune(Prune(ts, now, SweepAgeMs), later, w) == [];
        }
      }
    }
  }

  /** Pruning to an hour at one time and then to a window of at most an hour at a
      later time is pruning to the window at the later time. */
  lemma {:induction false} PruneWider(ts: seq<int>, now: int, later: int, windowMs: int)
    requires now <= later && windowMs <= SweepAgeMs
    ensures Prune(Prune(ts, now, SweepAgeMs), later, windowMs) == Prune(ts, later, windowMs)
    decreases |ts|
  {
    if |ts| > 0 {
      var init := ts[..|ts| - 1];
      var x := ts[|ts| - 1];
      var tail := if now - x < SweepAgeMs then [x] else [];
      PruneWider(init, now, later, windowMs);
      PruneAppend(Prune(init, now, SweepAgeMs), tail, later, windowMs);
    }
  }
}
