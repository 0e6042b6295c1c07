/**
 The sliding-window limiters of backend/app.py: a queue of recent times per key, pruned from
 the front, against the whole history of what was accepted.
 */
module RateLimit {
  import Sorting

  /** Times in the order they were recorded. */
  ghost predicate Ordered(ts: seq<real>) {
    forall i, j :: 0 <= i < j < |ts| ==> ts[i] <= ts[j]
  }

  /** How many of the recorded times lie at most `window` before `now`. */
  function CountRecent(ts: seq<real>, now: real, window: real): nat {
    if ts == [] then 0
    else CountRecent(ts[..|ts| - 1], now, window) + if now - ts[|ts| - 1] <= window then 1 else 0
  }

  /** The same as a selection: nothing else about a time matters. */
  lemma {:induction false} CountRecentSelects(ts: seq<real>, now: real, window: real)
    ensures CountRecent(ts, now, window) == |Sorting.Filter(ts, (t: real) => now <= t + window)|
  {
    if ts != [] {
      var n := |ts| - 1;
      CountRecentSelects(ts[..n], now, window);
      Sorting.FilterConcat(ts[..n], [ts[n]], (t: real) => now <= t + window);
      assert ts == ts[..n] + [ts[n]];
    }
  }

  /** `while q and now-q[0] > window: q.popleft()` */
  function Evict(q: seq<real>, now: real, window: real): seq<real> {
    if q != [] && now - q[0] > window then Evict(q[1..], now, window) else q
  }

  /**
   The queue is the end of the history, and what was dropped is outside the window at every
   time from the last request on.
   */
  ghost predicate Tracks(q: seq<real>, history: seq<real>, last: real, window: real) {
    && |q| <= |history| && q == history[|history| - |q|..]
    && Ordered(history)
    && (forall i :: 0 <= i < |history| ==> history[i] <= last)
    && (forall i :: 0 <= i < |history| - |q| ==> last - history[i] > window)
  }

  lemma {:induction false} CountAll(ts: seq<real>, now: real, window: real)
    requires forall i :: 0 <= i < |ts| ==> now - ts[i] <= window
    ensures CountRecent(ts, now, window) == |ts|
  {
    if ts != [] { CountAll(ts[..|ts| - 1], now, window); }
  }

  lemma {:induction false} CountNone(ts: seq<real>, now: real, window: real)
    requires forall i :: 0 <= i < |ts| ==> now - ts[i] > window
    ensures CountRecent(ts, now, window) == 0
  {
    if ts != [] { CountNone(ts[..|ts| - 1], now, window); }
  }

  lemma {:induction false} CountConcat(ts: seq<real>, us: seq<real>, now: real, window: real)
    ensures CountRecent(ts + us, now, window) == CountRecent(ts, now, window) + CountRecent(us, now, window)
  {
    if us == [] {
      assert ts + us == ts;
    } else {
      assert (ts + us)[..|ts + us| - 1] == ts + us[..|us| - 1];
      CountConcat(ts, us[..|us| - 1], now, window);
    }
  }

  /** Pruning keeps the queue in step with the history, whatever it drops. */
  lemma {:induction false} EvictTracks(q: seq<real>, history: seq<real>, last: real, now: real, window: real)
    requires Tracks(q, history, last, window) && last <= now
    ensures Tracks(Evict(q, now, window), history, now, window)
    ensures var kept := Evict(q, now, window); kept == [] || now - kept[0] <= window
    decreases |q|
  {
    if q != [] && now - q[0] > window {
      var k := |history| - |q|;
      assert history[k] == q[0] && history[k + 1..] == q[1..];
      assert Tracks(q[1..], history, now, window);
      EvictTracks(q[1..], history, now, now, window);
    }
  }

  /** Times in order lose to pruning exactly those outside the window, whatever the clock says. */
  lemma {:induction false} EvictCounts(q: seq<real>, now: real, window: real)
    requires Ordered(q)
    ensures |Evict(q, now, window)| == CountRecent(q, now, window)
    decreases |q|
  {
    if q != [] {
      if now - q[0] > window {
        EvictCounts(q[1..], now, window);
        CountConcat([q[0]], q[1..], now, window);
        CountNone([q[0]], now, window);
        assert q == [q[0]] + q[1..];
      } else {
        forall i | 0 <= i < |q| ensures now - q[i] <= window { assert q[0] <= q[i]; }
        CountAll(q, now, window);
      }
    }
  }

  /** None of a prefix is recent exactly when its last time, the latest, is not. */
  lemma NoneRecentExactly(gone: seq<real>, now: real, window: real)
    requires Ordered(gone)
    ensures CountRecent(gone, now, window) == 0 <==> gone == [] || now - gone[|gone| - 1] > window
  {
    if gone != [] && now - gone[|gone| - 1] > window {
      forall i | 0 <= i < |gone| ensures now - gone[i] > window { assert gone[i] <= gone[|gone| - 1]; }
      CountNone(gone, now, window);
    }
  }

  /**
   At any clock reading after an ordered history, earlier than the last one or not: the pruned
   queue is as long as the number of recent times in the whole history exactly when nothing was
   ever dropped, or the last time dropped is outside the window now.
   */
  lemma QueueCountsExactly(q: seq<real>, history: seq<real>, last: real, now: real, window: real)
    requires Tracks(q, history, last, window)
    ensures |Evict(q, now, window)| == CountRecent(history, now, window)
       <==> |q| == |history| || now - history[|history| - |q| - 1] > window
  {
    var k := |history| - |q|;
    var gone := history[..k];
    assert history == gone + q;
    CountConcat(gone, q, now, window);
    EvictCounts(q, now, window);
    NoneRecentExactly(gone, now, window);
    assert k > 0 ==> gone[k - 1] == history[k - 1];
  }

  /** After pruning, the length of the queue is the number of recent times in the whole history. */
  lemma QueueCountsRecent(q: seq<real>, history: seq<real>, last: real, now: real, window: real)
    requires Tracks(q, history, last, window) && last <= now
    ensures |Evict(q, now, window)| == CountRecent(history, now, window)
  {
    QueueCountsExactly(q, history, last, now, window);
  }

  /** Until a time is recorded out of order, a clock that has gone back never makes a limiter stricter. */
  lemma ClockGoingBackIsLenient(q: seq<real>, history: seq<real>, last: real, now: real, window: real)
    requires Tracks(q, history, last, window)
    ensures |Evict(q, now, window)| <= CountRecent(history, now, window)
  {
    var gone := history[..|history| - |q|];
    assert history == gone + q;
    CountConcat(gone, q, now, window);
    EvictCounts(q, now, window);
  }

  lemma {:induction false} CountAtMost(ts: seq<real>, now: real, window: real)
    ensures CountRecent(ts, now, window) <= |ts|
    ensures (exists i :: 0 <= i < |ts| && now - ts[i] > window) ==> CountRecent(ts, now, window) < |ts|
  {
    if ts != [] { CountAtMost(ts[..|ts| - 1], now, window); }
  }

  /** An expired time behind a recent one is not dropped, and is counted against the caller. */
  lemma {:induction false} ExpiredBehindRecent(q: seq<real>, i: nat, j: nat, now: real, window: real)
    requires i < j < |q| && now - q[i] <= window < now - q[j]
    ensures |Evict(q, now, window)| > CountRecent(q, now, window)
    decreases |q|
  {
    if now - q[0] > window {
      ExpiredBehindRecent(q[1..], i - 1, j - 1, now, window);
      CountConcat([q[0]], q[1..], now, window);
      CountNone([q[0]], now, window);
      assert q == [q[0]] + q[1..];
    } else {
      CountAtMost(q, now, window);
    }
  }

  /** A reading so early that every recorded time is still inside the window. */
  lemma {:induction false} EarlyReading(ts: seq<real>, window: real) returns (now: real)
    ensures forall i :: 0 <= i < |ts| ==> now - ts[i] <= window
  {
    if ts == [] {
      now := 0.0;
    } else {
      var n := |ts| - 1;
      now := EarlyReading(ts[..n], window);
      assert forall i :: 0 <= i < n ==> ts[..n][i] == ts[i];
      if now - ts[n] > window { now := ts[n] + window; }
    }
  }

  /** At every clock reading the pruned queue is as long as the number of recent times recorded. */
  ghost predicate CountsAlways(q: seq<real>, history: seq<real>, window: real) {
    forall now: real :: |Evict(q, now, window)| == CountRecent(history, now, window)
  }

  lemma CountsOnlyWhole(q: seq<real>, history: seq<real>, window: real)
    requires |q| <= |history| && q == history[|history| - |q|..] && CountsAlways(q, history, window)
    ensures q == history
  {
    var now := EarlyReading(history, window);
    CountAll(history, now, window);
    assert |Evict(q, now, window)| == |history|;
    assert q != [] ==> q[0] == history[|history| - |q|];
  }

  /**
   Whatever the clock did before: a queue that is the end of the history answers for it at every
   later reading, forward or back, exactly when it is all of the history and that is in order.
   */
  lemma QueueCountsAlwaysExactly(q: seq<real>, history: seq<real>, window: real)
    requires |q| <= |history| && q == history[|history| - |q|..]
    ensures CountsAlways(q, history, window) <==> q == history && Ordered(history)
  {
    if CountsAlways(q, history, window) {
      CountsOnlyWhole(q, history, window);
      forall i, j | 0 <= i < j < |history| ensures history[i] <= history[j] {
        var now := history[i] + window;
        assert |Evict(q, now, window)| == CountRecent(history, now, window);
        if history[i] > history[j] { ExpiredBehindRecent(history, i, j, now, window); }
      }
    }
    if q == history && Ordered(history) {
      forall now: real ensures |Evict(q, now, window)| == CountRecent(history, now, window) {
        EvictCounts(q, now, window);
      }
    }
  }

  // --------------------------------------------------------------------- spacing

  /** Any `max` + 1 consecutive times span more than the window. */
  ghost predicate Spaced(h: seq<real>, max: nat, window: real) {
    forall i :: 0 <= i && i + max < |h| ==> h[i + max] - h[i] > window
  }

  lemma CountSuffix(ts: seq<real>, k: nat, now: real, window: real)
    requires Ordered(ts) && k < |ts| && now - ts[k] <= window
    ensures CountRecent(ts, now, window) >= |ts| - k
  {
    var late := ts[k..];
    CountConcat(ts[..k], late, now, window);
    assert ts == ts[..k] + late;
    forall i | 0 <= i < |late| ensures now - late[i] <= window { assert ts[k] <= ts[k + i]; }
    CountAll(late, now, window);
  }

  /** Recording one more time, when fewer than `max` are recent at `now`, keeps the spacing. */
  lemma RecordKeepsSpacing(h: seq<real>, max: nat, window: real, now: real, later: real)
    requires Ordered(h) && Spaced(h, max, window) && now <= later
    requires CountRecent(h, now, window) < max
    ensures Spaced(h + [later], max, window)
  {
    var longer := h + [later];
    forall i | 0 <= i && i + max < |longer| ensures longer[i + max] - longer[i] > window {
      if i + max == |h| {
        if now - h[i] <= window { CountSuffix(h, i, now, window); }
      } else {
        assert longer[i + max] == h[i + max] && longer[i] == h[i];
      }
    }
  }

  // ------------------------------------------------------------------ the API limiter

  function Find(m: map<string, seq<real>>, key: string): seq<real> {
    if key in m then m[key] else []
  }

  ghost predicate AllTrack(queues: map<string, seq<real>>, histories: map<string, seq<real>>,
                           last: real, window: real)
  {
    forall key: string {:trigger Tracks(Find(queues, key), Find(histories, key), last, window)} ::
      Tracks(Find(queues, key), Find(histories, key), last, window)
  }

  ghost predicate AllSpaced(histories: map<string, seq<real>>, max: nat, window: real) {
    forall key: string {:trigger Spaced(Find(histories, key), max, window)} ::
      Spaced(Find(histories, key), max, window)
  }

  lemma RecordKeepsAllSpaced(hs: map<string, seq<real>>, max: nat, window: real, key: string, now: real, later: real)
    requires AllSpaced(hs, max, window) && Ordered(Find(hs, key)) && now <= later
    requires CountRecent(Find(hs, key), now, window) < max
    ensures AllSpaced(hs[key := Find(hs, key) + [later]], max, window)
  {
    var after := hs[key := Find(hs, key) + [later]];
    forall k: string ensures Spaced(Find(after, k), max, window) {
      assert Spaced(Find(hs, k), max, window);
      if k == key { RecordKeepsSpacing(Find(hs, key), max, window, now, later); }
    }
  }

  lemma ClearKeepsAllSpaced(hs: map<string, seq<real>>, max: nat, window: real, key: string)
    requires AllSpaced(hs, max, window)
    ensures AllSpaced(hs[key := []], max, window)
  {
    var after := hs[key := []];
    forall k: string ensures Spaced(Find(after, k), max, window) {
      assert Spaced(Find(hs, k), max, window);
    }
  }

  /** A request touches one key; time passing leaves the other queues in step. */
  lemma OthersTrack(q0: map<string, seq<real>>, h0: map<string, seq<real>>, last: real,
                    q1: map<string, seq<real>>, h1: map<string, seq<real>>, now: real, key: string, window: real)
    requires AllTrack(q0, h0, last, window) && last <= now
    requires Tracks(Find(q1, key), Find(h1, key), now, window)
    requires forall k: string :: k != key ==> Find(q1, k) == Find(q0, k) && Find(h1, k) == Find(h0, k)
    ensures AllTrack(q1, h1, now, window)
  {
    forall k: string ensures Tracks(Find(q1, k), Find(h1, k), now, window) {
      if k != key { assert Tracks(Find(q0, k), Find(h0, k), last, window); }
    }
  }

  lemma AppendTracks(q: seq<real>, history: seq<real>, last: real, now: real, window: real)
    requires Tracks(q, history, last, window) && last <= now && window > 0.0
    ensures Tracks(q + [now], history + [now], now, window)
  {
    var h := history + [now];
    var k := |history| - |q|;
    assert h[k..] == q + [now];
  }

  /** One request under `key`: the pruned queue counts the recent times, and every queue stays in step. */
  lemma PruneTracks(qs: map<string, seq<real>>, hs: map<string, seq<real>>, last: real,
                    key: string, now: real, window: real)
    requires AllTrack(qs, hs, last, window) && last <= now
    ensures |Evict(Find(qs, key), now, window)| == CountRecent(Find(hs, key), now, window)
    ensures AllTrack(qs[key := Evict(Find(qs, key), now, window)], hs, now, window)
  {
    assert Tracks(Find(qs, key), Find(hs, key), last, window);
    QueueCountsRecent(Find(qs, key), Find(hs, key), last, now, window);
    EvictTracks(Find(qs, key), Find(hs, key), last, now, window);
    OthersTrack(qs, hs, last, qs[key := Evict(Find(qs, key), now, window)], hs, now, key, window);
  }

  lemma RecordTracks(qs: map<string, seq<real>>, hs: map<string, seq<real>>, last: real,
                     key: string, now: real, window: real)
    requires AllTrack(qs, hs, last, window) && last <= now && window > 0.0
    ensures AllTrack(qs[key := Find(qs, key) + [now]], hs[key := Find(hs, key) + [now]], now, window)
  {
    assert Tracks(Find(qs, key), Find(hs, key), last, window);
    AppendTracks(Find(qs, key), Find(hs, key), last, now, window);
    OthersTrack(qs, hs, last, qs[key := Find(qs, key) + [now]], hs[key := Find(hs, key) + [now]], now, key, window);
  }

  lemma ClearTracks(qs: map<string, seq<real>>, hs: map<string, seq<real>>, last: real, key: string, window: real)
    requires AllTrack(qs, hs, last, window)
    ensures AllTrack(qs[key := []], hs[key := []], last, window)
  {
    OthersTrack(qs, hs, last, qs[key := []], hs[key := []], last, key, window);
  }

  /** The pruning loop of both limiters. */
  method Prune(queue: seq<real>, now: real, window: real) returns (q: seq<real>)
    ensures q == Evict(queue, now, window)
  {
    q := queue;
    while q != [] && now - q[0] > window
      invariant Evict(q, now, window) == Evict(queue, now, window)
    {
      q := q[1..];
    }
  }

  class ApiLimiter {
    const max: nat
    const window: real
    var buckets: map<string, seq<real>>
    ghost var accepted: map<string, seq<real>>
    ghost var last: real

    ghost predicate Valid()
      reads this
    {
      && max > 0 && window > 0.0
      && AllTrack(buckets, accepted, last, window)
      && AllSpaced(accepted, max, window)
    }

    constructor (max: nat, window: real)
      requires max > 0 && window > 0.0
      ensures Valid() && accepted == map[] && this.max == max && this.window == window
    {
      this.max, this.window := max, window;
      buckets, accepted, last := map[], map[], 0.0;
    }

    /**
     One request under `key` at time `now`, the clock not having gone back: it is refused exactly
     when `max` accepted requests of the key lie within the last `window` seconds.
     */
    method Request(key: string, now: real) returns (allowed: bool)
      requires Valid() && last <= now
      modifies this
      ensures Valid() && last == now
      ensures allowed <==> CountRecent(Find(old(accepted), key), now, window) < max
      ensures accepted == if allowed then old(accepted)[key := Find(old(accepted), key) + [now]] else old(accepted)
      ensures AllSpaced(accepted, max, window)
    {
      assert Tracks(Find(buckets, key), Find(accepted, key), last, window);
      PruneTracks(buckets, accepted, last, key, now, window);
      var q := Prune(Find(buckets, key), now, window);
      buckets := buckets[key := q];
      last := now;
      allowed := |q| < max;
      if allowed {
        RecordKeepsAllSpaced(accepted, max, window, key, now, now);
        RecordTracks(buckets, accepted, last, key, now, window);
        buckets := buckets[key := q + [now]];
        accepted := accepted[key := Find(accepted, key) + [now]];
      }
    }
  }

  /** When the clock goes back the queue may have dropped times that count again. */
  lemma ClockMustNotGoBack()
    ensures var history := [100.0, 120.0];
      var q := Evict([100.0], 120.0, 10.0) + [120.0];
      |Evict(q, 105.0, 10.0)| < 2 <= CountRecent(history, 105.0, 10.0)
  {
    assert Evict([100.0], 120.0, 10.0) == Evict([], 120.0, 10.0);
    assert [100.0, 120.0][..1] == [100.0] && [100.0][..0] == [];
  }

  /** And once it has recorded an earlier time, it refuses one that the full history would allow. */
  lemma ClockGoneBackCanBeStrict()
    ensures var history := [100.0, 50.0];
      && Evict([100.0], 50.0, 10.0) + [50.0] == history
      && |Evict(history, 105.0, 10.0)| == 2 && CountRecent(history, 105.0, 10.0) == 1
  {
    assert [100.0, 50.0][..1] == [100.0] && [100.0][..0] == [];
  }

  // ---------------------------------------------------------------- the login limiter

  const LOGIN_MAX: nat := 5
  const LOGIN_WINDOW: real := 300.0

  datatype LoginOutcome = TooMany | Failed | LoggedIn

  class LoginLimiter {
    var attempts: map<string, seq<real>>
    ghost var failures: map<string, seq<real>>
    ghost var last: real

    ghost predicate Valid()
      reads this
    {
      AllTrack(attempts, failures, last, LOGIN_WINDOW) && AllSpaced(failures, LOGIN_MAX, LOGIN_WINDOW)
    }

    constructor ()
      ensures Valid() && failures == map[]
    {
      attempts, failures, last := map[], map[], 0.0;
    }

    /**
     A login for `name` checked at `now` and, if the password is wrong, recorded at `later`:
     refused unread exactly when five failures since the last success are at most 300 s old.
     */
    method Login(name: string, passwordOk: bool, now: real, later: real) returns (outcome: LoginOutcome)
      requires Valid() && last <= now <= later
      modifies this
      ensures Valid() && last <= later
      ensures outcome.TooMany? <==> CountRecent(Find(old(failures), name), now, 300.0) >= 5
      ensures !outcome.TooMany? ==> (outcome.LoggedIn? <==> passwordOk)
      ensures failures == match outcome
        case TooMany => old(failures)
        case Failed => old(failures)[name := Find(old(failures), name) + [later]]
        case LoggedIn => old(failures)[name := []]
      ensures AllSpaced(failures, LOGIN_MAX, LOGIN_WINDOW)
    {
      assert Tracks(Find(attempts, name), Find(failures, name), last, LOGIN_WINDOW);
      PruneTracks(attempts, failures, last, name, now, LOGIN_WINDOW);
      var q := Prune(Find(attempts, name), now, LOGIN_WINDOW);
      attempts := attempts[name := q];
      last := now;
      if |q| >= LOGIN_MAX {
        return TooMany;
      }
      if !passwordOk {
        RecordKeepsAllSpaced(failures, LOGIN_MAX, LOGIN_WINDOW, name, now, later);
        RecordTracks(attempts, failures, last, name, later, LOGIN_WINDOW);
        attempts := attempts[name := q + [later]];
        failures := failures[name := Find(failures, name) + [later]];
        last := later;
        return Failed;
      }
      ClearKeepsAllSpaced(failures, LOGIN_MAX, LOGIN_WINDOW, name);
      ClearTracks(attempts, failures, last, name, LOGIN_WINDOW);
      attempts := attempts[name := []];
      failures := failures[name := []];
      return LoggedIn;
    }
  }
}
