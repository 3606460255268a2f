/**
 * common/rate-limit.go: the in-memory limiter, a queue of accept times per key with a background sweeper,
 * proved to be a sliding-window counter.
 */
module RateLimiter {
  import opened Wrappers
  import opened Sorting

  datatype Event =
    | Request(key: string, max: int, duration: int, now: int)
    | Sweep(now: int)

  // ---------------------------------------------------------------- one key

  /** What a request does to its key's queue, and its answer. */
  function RequestStep(q: Option<seq<int>>, max: int, duration: int, now: int): (Option<seq<int>>, bool)
    requires q.Some? ==> q.value != []
  {
    if q.None? then (Some([now]), true)
    else if |q.value| < max then (Some(q.value + [now]), true)
    else if now - q.value[0] >= duration then (Some(q.value[1..] + [now]), true)
    else (q, false)
  }

  /** The sweeper keeps a queue whose last accept is at most the expiration back. */
  predicate SweepKeeps(q: seq<int>, now: int, expiration: int) {
    q != [] && now - q[|q| - 1] <= expiration
  }

  /** The queue of a key after a trace of calls and sweeps, whatever happened to other keys in between. */
  ghost function QueueAfter(log: seq<Event>, key: string, expiration: int): (q: Option<seq<int>>)
    ensures q.Some? ==> q.value != []
  {
    if log == [] then None
    else
      var before, e := QueueAfter(log[..|log| - 1], key, expiration), log[|log| - 1];
      match e
      case Request(k, max, duration, now) => if k == key then RequestStep(before, max, duration, now).0 else before
      case Sweep(now) => if before.Some? && SweepKeeps(before.value, now, expiration) then before else None
  }

  /** The answer to a request made after a trace. */
  ghost predicate Accepts(log: seq<Event>, expiration: int, key: string, max: int, duration: int, now: int) {
    RequestStep(QueueAfter(log, key, expiration), max, duration, now).1
  }

  class InMemoryRateLimiter {
    var store: map<string, seq<int>>
    const expirationSeconds: int
    ghost var log: seq<Event>

    ghost predicate Valid()
      reads this
    {
      forall key :: match QueueAfter(log, key, expirationSeconds)
                    case Some(q) => key in store && store[key] == q
                    case None => key !in store
    }

    constructor (expiration: int)
      ensures Valid() && log == [] && expirationSeconds == expiration
    {
      store, expirationSeconds, log := map[], expiration, [];
    }

    /** One pass of the sweeper over the keys, in any order. */
    method ClearExpiredItems(now: int)
      requires Valid()
      modifies this
      ensures Valid() && log == old(log) + [Sweep(now)]
    {
      var keys := AnyOrder(store.Keys);
      for i := 0 to |keys|
        invariant log == old(log)
        invariant forall k :: k in store
                         <==> k in old(store) && (k in keys[..i] ==> SweepKeeps(old(store)[k], now, expirationSeconds))
        invariant forall k :: k in store ==> store[k] == old(store)[k]
      {
        assert keys[..i + 1] == keys[..i] + [keys[i]];
        assert keys[i] in keys && keys[i] in old(store);
        assert keys[i] in store;
        var queue := store[keys[i]];
        var size := |queue|;
        if size == 0 || now - queue[size - 1] > expirationSeconds {
          store := store - {keys[i]};
        }
      }
      assert keys[..|keys|] == keys;
      log := log + [Sweep(now)];
      assert log[..|log| - 1] == old(log);
    }

    /** A call without a queue is always accepted; making that queue panics on a negative maximum. */
    method Request(key: string, maxRequestNum: int, duration: int, now: int) returns (accepted: bool)
      requires Valid() && (maxRequestNum >= 0 || key in store)
      modifies this
      ensures Valid() && log == old(log) + [Event.Request(key, maxRequestNum, duration, now)]
      ensures accepted <==> Accepts(old(log), expirationSeconds, key, maxRequestNum, duration, now)
    {
      ghost var before := QueueAfter(log, key, expirationSeconds);
      if key in store {
        var queue := store[key];
        if |queue| < maxRequestNum {
          store := store[key := queue + [now]];
          accepted := true;
        } else if now - queue[0] >= duration {
          queue := queue[1..];
          store := store[key := queue + [now]];
          accepted := true;
        } else {
          accepted := false;
        }
      } else {
        store := store[key := [now]];
        accepted := true;
      }
      log := log + [Event.Request(key, maxRequestNum, duration, now)];
      assert log[..|log| - 1] == old(log);
    }
  }

  // ---------------------------------------------------------------- the sliding window

  /** The times at which requests of a key were accepted. */
  ghost function AcceptTimes(log: seq<Event>, key: string, expiration: int): seq<int> {
    if log == [] then []
    else
      var init, e := log[..|log| - 1], log[|log| - 1];
      var before := AcceptTimes(init, key, expiration);
      if e.Request? && e.key == key && Accepts(init, expiration, key, e.max, e.duration, e.now)
      then before + [e.now] else before
  }

  /** How many of the times lie strictly after the bound. */
  ghost function CountAfter(times: seq<int>, bound: int): nat {
    if times == [] then 0
    else CountAfter(times[..|times| - 1], bound) + (if times[|times| - 1] > bound then 1 else 0)
  }

  /** The clock never runs backwards. */
  ghost predicate Monotone(log: seq<Event>) {
    forall i, j :: 0 <= i < j < |log| ==> log[i].now <= log[j].now
  }

  ghost predicate After(log: seq<Event>, now: int) {
    Monotone(log) && forall e :: e in log ==> e.now <= now
  }

  /** Every call for the key uses the same limit. */
  ghost predicate Limited(log: seq<Event>, key: string, max: int, duration: int) {
    forall e :: e in log && e.Request? && e.key == key ==> e.max == max && e.duration == duration
  }

  /** A maximum of 0 behaves like 1: the first request of a fresh key is never refused. */
  function Effective(max: int): nat {
    if max < 1 then 1 else max
  }

  ghost predicate Nondecreasing(times: seq<int>) {
    forall i, j :: 0 <= i < j < |times| ==> times[i] <= times[j]
  }

  /**
   * The queue is the tail of the accept times. What it has lost it lost because it was full, or because it is
   * more than the expiration back.
   */
  ghost predicate QueueInvariant(queue: Option<seq<int>>, times: seq<int>, max: int, expiration: int, clock: int) {
    var q := if queue.Some? then queue.value else [];
    && Nondecreasing(times) && (forall t :: t in times ==> t <= clock)
    && |q| <= Effective(max) && |q| <= |times| && q == times[|times| - |q|..]
    && (queue.Some? ==> q != [])
    && (|q| == Effective(max) || forall i :: 0 <= i < |times| - |q| ==> clock - times[i] > expiration)
  }

  lemma NondecreasingPush(times: seq<int>, now: int)
    requires Nondecreasing(times) && forall t :: t in times ==> t <= now
    ensures Nondecreasing(times + [now]) && forall t :: t in times + [now] ==> t <= now
  {
    assert forall i :: 0 <= i < |times| ==> times[i] in times;
  }

  /** An accept below the maximum keeps the whole tail. */
  lemma InvariantPush(q: seq<int>, times: seq<int>, max: int, expiration: int, now: int)
    requires QueueInvariant(if q == [] then None else Some(q), times, max, expiration, now) && |q| < Effective(max)
    ensures QueueInvariant(Some(q + [now]), times + [now], max, expiration, now)
  {
    hide Nondecreasing;
    var more := times + [now];
    NondecreasingPush(times, now);
    assert more[|more| - |q + [now]|..] == q + [now];
    assert |more| - |q + [now]| == |times| - |q|;
    assert forall i :: 0 <= i < |times| ==> more[i] == times[i];
  }

  /** An accept at the maximum drops the oldest time. */
  lemma InvariantRotate(q: seq<int>, times: seq<int>, max: int, expiration: int, now: int)
    requires q != [] && QueueInvariant(Some(q), times, max, expiration, now) && |q| == Effective(max)
    ensures QueueInvariant(Some(q[1..] + [now]), times + [now], max, expiration, now)
  {
    hide Nondecreasing;
    NondecreasingPush(times, now);
    var more := times + [now];
    assert more[|more| - |q|..] == q[1..] + [now];
  }

  lemma InvariantRequest(queue: Option<seq<int>>, times: seq<int>, max: int, duration: int, expiration: int, now: int)
    requires queue.Some? ==> queue.value != []
    requires QueueInvariant(queue, times, max, expiration, now) && max >= 0
    ensures var (next, ok) := RequestStep(queue, max, duration, now);
            QueueInvariant(next, if ok then times + [now] else times, max, expiration, now)
  {
    var q := if queue.Some? then queue.value else [];
    var (next, ok) := RequestStep(queue, max, duration, now);
    assert |q| <= Effective(max);
    if queue.None? || |q| < max {
      InvariantPush(q, times, max, expiration, now);
      assert next.value == q + [now];
    } else if ok {
      InvariantRotate(q, times, max, expiration, now);
    }
  }

  lemma InvariantSweep(queue: Option<seq<int>>, times: seq<int>, max: int, expiration: int, clock: int, now: int)
    requires QueueInvariant(queue, times, max, expiration, clock) && clock <= now
    ensures var next := if queue.Some? && SweepKeeps(queue.value, now, expiration) then queue else None;
            QueueInvariant(next, times, max, expiration, now)
  {
    if queue.Some? && !SweepKeeps(queue.value, now, expiration) {
      var q := queue.value;
      assert q[|q| - 1] == times[|times| - 1];
      assert forall i :: 0 <= i < |times| ==> times[i] <= times[|times| - 1];
      assert times[|times|..] == [];
    }
  }

  lemma MonotonePrefix(log: seq<Event>)
    requires Monotone(log) && log != []
    ensures After(log[..|log| - 1], log[|log| - 1].now)
  {
    forall d | d in log[..|log| - 1] ensures d.now <= log[|log| - 1].now {
      var i :| 0 <= i < |log| - 1 && log[i] == d;
    }
  }

  lemma LimitedPrefix(log: seq<Event>, key: string, max: int, duration: int)
    requires Limited(log, key, max, duration) && log != []
    ensures Limited(log[..|log| - 1], key, max, duration)
    ensures var e := log[|log| - 1]; e.Request? && e.key == key ==> e.max == max && e.duration == duration
  {
    assert log[|log| - 1] in log;
  }

  lemma {:induction false} TraceInvariant(log: seq<Event>, key: string, max: int, duration: int, expiration: int,
                                          clock: int)
    requires Monotone(log) && Limited(log, key, max, duration) && max >= 0
    requires forall e :: e in log ==> e.now <= clock
    ensures QueueInvariant(QueueAfter(log, key, expiration), AcceptTimes(log, key, expiration), max, expiration, clock)
  {
    hide QueueInvariant, RequestStep, SweepKeeps, Monotone;
    if log == [] {
      InvariantEmpty(max, expiration, clock);
    } else {
      var init, e := log[..|log| - 1], log[|log| - 1];
      assert log == init + [e] && e in log;
      MonotonePrefix(log);
      LimitedPrefix(log, key, max, duration);
      TraceInvariant(init, key, max, duration, expiration, e.now);
      var queue, times := QueueAfter(init, key, expiration), AcceptTimes(init, key, expiration);
      if e.Sweep? {
        InvariantSweep(queue, times, max, expiration, e.now, e.now);
      } else if e.key == key {
        InvariantRequest(queue, times, max, duration, expiration, e.now);
      }
      var after, accepted := QueueAfter(log, key, expiration), AcceptTimes(log, key, expiration);
      InvariantLater(after, accepted, max, expiration, e.now, clock);
    }
  }

  lemma InvariantEmpty(max: int, expiration: int, clock: int)
    ensures QueueInvariant(None, [], max, expiration, clock)
  {
  }

  lemma InvariantLater(queue: Option<seq<int>>, times: seq<int>, max: int, expiration: int, clock: int, later: int)
    requires QueueInvariant(queue, times, max, expiration, clock) && clock <= later
    ensures QueueInvariant(queue, times, max, expiration, later)
  {
  }

  lemma {:induction false} CountSplit(a: seq<int>, b: seq<int>, bound: int)
    ensures CountAfter(a + b, bound) == CountAfter(a, bound) + CountAfter(b, bound)
    ensures CountAfter(a, bound) <= |a|
    decreases |a| + |b|
  {
    if b == [] {
      assert a + b == a;
      if a != [] {
        CountSplit(a[..|a| - 1], [], bound);
      }
    } else {
      CountSplit(a, b[..|b| - 1], bound);
      assert (a + b)[..|a + b| - 1] == a + b[..|b| - 1];
    }
  }

  lemma {:induction false} CountAllOrNone(times: seq<int>, bound: int)
    ensures (forall t :: t in times ==> t > bound) ==> CountAfter(times, bound) == |times|
    ensures (forall t :: t in times ==> t <= bound) ==> CountAfter(times, bound) == 0
  {
    if times != [] {
      var init := times[..|times| - 1];
      CountAllOrNone(init, bound);
      assert forall t :: t in init ==> t in times;
      assert times[|times| - 1] in times;
    }
  }

  /** Times that have left the queue do not count when the last of them does not. */
  lemma CountQueue(older: seq<int>, q: seq<int>, bound: int)
    requires forall t :: t in older ==> t <= bound
    ensures CountAfter(older + q, bound) == CountAfter(q, bound) <= |q|
  {
    CountSplit(older, q, bound);
    CountSplit(q, [], bound);
    CountAllOrNone(older, bound);
  }

  lemma CountFull(older: seq<int>, q: seq<int>, bound: int)
    requires q != [] && Nondecreasing(older + q)
    ensures CountAfter(older + q, bound) < |q| <==> q[0] <= bound
  {
    var times := older + q;
    assert times[|older|] == q[0];
    if q[0] > bound {
      assert forall i :: 0 <= i < |q| ==> q[i] == times[|older| + i] >= q[0];
      CountSplit(older, q, bound);
      CountAllOrNone(q, bound);
    } else {
      var more := older + [q[0]];
      assert forall i :: 0 <= i < |more| ==> more[i] == times[i] <= q[0];
      assert times == more + q[1..];
      CountQueue(more, q[1..], bound);
    }
  }

  lemma DecisionIsCount(queue: Option<seq<int>>, times: seq<int>, max: int, duration: int, expiration: int, now: int)
    requires queue.Some? ==> queue.value != []
    requires QueueInvariant(queue, times, max, expiration, now) && max >= 0 && duration <= expiration + 1
    ensures RequestStep(queue, max, duration, now).1 <==> CountAfter(times, now - duration) < Effective(max)
  {
    hide CountAfter, Nondecreasing;
    var q := if queue.Some? then queue.value else [];
    var older := times[..|times| - |q|];
    assert times == older + q;
    if |q| < Effective(max) {
      CountQueue(older, q, now - duration);
    } else {
      CountFull(older, q, now - duration);
    }
  }

  /** A call is accepted exactly when fewer than the maximum accepts of its key lie less than the duration back. */
  ghost predicate SlidingWindowAt(log: seq<Event>, expiration: int, key: string, max: int, duration: int, now: int) {
    Accepts(log, expiration, key, max, duration, now)
    <==> CountAfter(AcceptTimes(log, key, expiration), now - duration) < Effective(max)
  }

  /** Sliding window: after any interleaving of calls and sweeps, for durations the sweeper leaves alone. */
  lemma SlidingWindow(log: seq<Event>, expiration: int, key: string, max: int, duration: int, now: int)
    requires After(log, now) && Limited(log, key, max, duration) && max >= 0 && duration <= expiration + 1
    ensures SlidingWindowAt(log, expiration, key, max, duration, now)
  {
    TraceInvariant(log, key, max, duration, expiration, now);
    var queue, times := QueueAfter(log, key, expiration), AcceptTimes(log, key, expiration);
    DecisionIsCount(queue, times, max, duration, expiration, now);
  }

  /** A queue never grows past the maximum. */
  lemma QueueBounded(log: seq<Event>, expiration: int, key: string, max: int, duration: int)
    requires Monotone(log) && Limited(log, key, max, duration) && max >= 0
    ensures var q := QueueAfter(log, key, expiration); q.Some? ==> |q.value| <= Effective(max)
  {
    if log != [] {
      var clock := log[|log| - 1].now;
      TraceInvariant(log, key, max, duration, expiration, clock);
    }
  }

  /** How many of the times fall into the window [from, from + duration). */
  ghost function CountIn(times: seq<int>, from: int, duration: int): nat {
    if times == [] then 0
    else CountIn(times[..|times| - 1], from, duration) + (if from <= times[|times| - 1] < from + duration then 1 else 0)
  }

  lemma {:induction false} CountInAtMostAfter(times: seq<int>, from: int, duration: int, bound: int)
    requires bound < from
    ensures CountIn(times, from, duration) <= CountAfter(times, bound)
  {
    if times != [] {
      CountInAtMostAfter(times[..|times| - 1], from, duration, bound);
    }
  }

  /** No window of that length, wherever it starts, ever holds more accepts than the maximum. */
  lemma {:induction false} WindowBound(log: seq<Event>, expiration: int, key: string, max: int, duration: int,
                                       from: int)
    requires Monotone(log) && Limited(log, key, max, duration) && max >= 0 && duration <= expiration + 1
    ensures CountIn(AcceptTimes(log, key, expiration), from, duration) <= Effective(max)
  {
    hide RequestStep, Limited, Monotone;
    if log != [] {
      var init, e := log[..|log| - 1], log[|log| - 1];
      assert log == init + [e] && e in log;
      MonotonePrefix(log);
      LimitedPrefix(log, key, max, duration);
      WindowBound(init, expiration, key, max, duration, from);
      if e.Request? && e.key == key && Accepts(init, expiration, key, e.max, e.duration, e.now)
         && from <= e.now < from + duration {
        SlidingWindow(init, expiration, key, max, duration, e.now);
        CountInAtMostAfter(AcceptTimes(init, key, expiration), from, duration, e.now - duration);
      }
    }
  }

  // ---------------------------------------------------------------- the bound on the duration is exact

  function Burst(key: string, max: int, duration: int, n: nat): (log: seq<Event>)
    ensures |log| == n
  {
    seq(n, i => Event.Request(key, max, duration, 0))
  }

  lemma {:induction false} BurstFills(key: string, max: int, duration: int, expiration: int, n: nat)
    requires 1 <= n <= max
    ensures QueueAfter(Burst(key, max, duration, n), key, expiration) == Some(seq(n, i => 0))
    ensures AcceptTimes(Burst(key, max, duration, n), key, expiration) == seq(n, i => 0)
  {
    var log := Burst(key, max, duration, n);
    assert log[..n - 1] == Burst(key, max, duration, n - 1);
    if n > 1 {
      BurstFills(key, max, duration, expiration, n - 1);
      assert seq(n - 1, i => 0) + [0] == seq(n, i => 0);
    } else {
      assert log[..0] == [];
      assert [0] == seq(1, i => 0);
    }
  }

  /** The sweep finds the burst too old and drops its queue; the accepts stay on record. */
  lemma SweptBurst(key: string, max: int, duration: int, expiration: int)
    requires max >= 1 && expiration >= 0
    ensures var log := Burst(key, max, duration, max) + [Sweep(expiration + 1)];
            QueueAfter(log, key, expiration) == None && AcceptTimes(log, key, expiration) == seq(max, i => 0)
  {
    hide Burst;
    BurstFills(key, max, duration, expiration, max);
    var burst := Burst(key, max, duration, max);
    var log := burst + [Sweep(expiration + 1)];
    assert log[..|log| - 1] == burst;
  }

  lemma BurstIsOrdered(key: string, max: int, duration: int, now: int)
    requires max >= 1 && now >= 0
    ensures var log := Burst(key, max, duration, max) + [Sweep(now)];
            After(log, now) && Limited(log, key, max, duration)
  {
  }

  /** For longer durations a sweep makes the limiter forget accepts that still count. */
  lemma SweepForgets(expiration: int, key: string, max: int, duration: int)
    requires max >= 1 && expiration >= 0 && duration > expiration + 1
    ensures var log := Burst(key, max, duration, max) + [Sweep(expiration + 1)];
            && After(log, expiration + 1) && Limited(log, key, max, duration)
            && !SlidingWindowAt(log, expiration, key, max, duration, expiration + 1)
  {
    hide Burst, After, Limited, QueueAfter, AcceptTimes, CountAfter;
    SweptBurst(key, max, duration, expiration);
    BurstIsOrdered(key, max, duration, expiration + 1);
    CountAllOrNone(seq(max, i => 0), expiration + 1 - duration);
  }

  /** The limiter is a sliding-window counter exactly for durations up to one second past the expiration. */
  lemma LimiterExactIff(expiration: int, key: string, max: int, duration: int)
    requires max >= 1 && expiration >= 0
    ensures (forall log, now :: After(log, now) && Limited(log, key, max, duration)
                                ==> SlidingWindowAt(log, expiration, key, max, duration, now))
       <==> duration <= expiration + 1
  {
    if duration <= expiration + 1 {
      forall log, now | After(log, now) && Limited(log, key, max, duration)
        ensures SlidingWindowAt(log, expiration, key, max, duration, now)
      {
        SlidingWindow(log, expiration, key, max, duration, now);
      }
    } else {
      SweepForgets(expiration, key, max, duration);
    }
  }

  /** One request in a window of 62 seconds, an expiration of 60: after the sweep at 61 a second one gets in. */
  lemma ForgottenExample()
    ensures var log := [Event.Request("k", 1, 62, 0), Sweep(61)];
            && After(log, 61) && Accepts(log, 60, "k", 1, 62, 61)
            && CountAfter(AcceptTimes(log, "k", 60), 61 - 62) == 1
  {
    hide SlidingWindowAt, CountAfter, QueueAfter, AcceptTimes, After, Limited;
    assert Burst("k", 1, 62, 1) == [Event.Request("k", 1, 62, 0)];
    assert Burst("k", 1, 62, 1) + [Sweep(61)] == [Event.Request("k", 1, 62, 0), Sweep(61)];
    SweepForgets(60, "k", 1, 62);
    SweptBurst("k", 1, 62, 60);
    CountAllOrNone(seq(1, i => 0), -1);
  }

  // ---------------------------------------------------------------- the maximum as the caller gives it

  /** Fewer than the maximum accepts, and not than the effective one, lie less than the duration back. */
  ghost predicate PlainWindowAt(log: seq<Event>, expiration: int, key: string, max: int, duration: int, now: int) {
    Accepts(log, expiration, key, max, duration, now)
    <==> CountAfter(AcceptTimes(log, key, expiration), now - duration) < max
  }

  /** The first request of a key gets in under a maximum of 0. */
  lemma FirstRequestUnderZero()
    ensures Accepts([], 60, "k", 0, 60, 100) && CountAfter(AcceptTimes([], "k", 60), 100 - 60) == 0
    ensures !PlainWindowAt([], 60, "k", 0, 60, 100)
  {
  }

  /** The limiter is a sliding-window counter of its maximum exactly for a positive one and such durations. */
  lemma PlainWindowIff(expiration: int, key: string, max: int, duration: int)
    requires max >= 0 && expiration >= 0
    ensures (forall log, now :: After(log, now) && Limited(log, key, max, duration)
                                ==> PlainWindowAt(log, expiration, key, max, duration, now))
       <==> max >= 1 && duration <= expiration + 1
  {
    if max >= 1 {
      LimiterExactIff(expiration, key, max, duration);
      forall log, now
        ensures PlainWindowAt(log, expiration, key, max, duration, now)
           <==> SlidingWindowAt(log, expiration, key, max, duration, now)
      {
      }
    } else {
      assert After([], 0) && Limited([], key, max, duration);
      assert !PlainWindowAt([], expiration, key, max, duration, 0);
    }
  }
}
