/** service/notification.go, EvaluateRequestFailureAlert: one alert for each burst of failures of a provider. */
module FailureAlert {
  import opened Text

  datatype Row = Row(provider: int, createdAt: int, status: int, errorMessage: string)

  datatype AlertStatus = Open | Closed

  datatype AlertState = AlertState(
    status: AlertStatus,
    lastObservedAt: int,
    lastFiredAt: int,
    windowStartedAt: int,
    windowCount: int)

  /** What is loaded for a provider without a saved state. */
  const UNSAVED: AlertState := AlertState(Closed, 0, 0, 0, 0)

  datatype Policy = Policy(enabled: bool, windowMinutes: int, threshold: int)

  /** SQL's TRIM drops spaces only. */
  function SqlTrim(s: string): string {
    if s != [] && s[0] == ' ' then SqlTrim(s[1..])
    else if s != [] && s[|s| - 1] == ' ' then SqlTrim(s[..|s| - 1])
    else s
  }

  /** The failure test of the evaluation. */
  predicate Failed(row: Row) {
    !(row.status == 1 && TrimSpace(row.errorMessage) == "")
  }

  /** The failure test of the count. */
  predicate CountsAsFailed(row: Row) {
    row.status != 1 || SqlTrim(row.errorMessage) != ""
  }

  /** Rows as logUsage writes them: status 1 exactly without an error message. */
  predicate Consistent(row: Row) {
    row.status == (if row.errorMessage == "" then 1 else 0)
  }

  lemma FailureTestsAgree(row: Row)
    requires Consistent(row)
    ensures Failed(row) <==> CountsAsFailed(row)
    ensures Failed(row) <==> row.errorMessage != ""
  {
  }

  /** CountFailedUsageLogsSince. */
  function CountFailedSince(logs: seq<Row>, provider: int, since: int): nat {
    if provider == 0 || logs == [] then 0
    else
      var last := logs[|logs| - 1];
      CountFailedSince(logs[..|logs| - 1], provider, since)
      + (if last.provider == provider && last.createdAt >= since && CountsAsFailed(last) then 1 else 0)
  }

  // ---------------------------------------------------------------- one provider's evaluations

  /** One evaluation: its time and the failures it counted in its window. */
  datatype Eval = Eval(now: int, count: int)

  /** The new alert state, and whether a notification goes out. */
  function Step(state: AlertState, e: Eval, window: int, threshold: int): (AlertState, bool) {
    var quiet := state.lastObservedAt > 0 && e.now - state.lastObservedAt > window;
    var reopened := if quiet then state.(status := Closed) else state;
    var seen := reopened.(lastObservedAt := e.now, windowStartedAt := e.now - window + 1, windowCount := e.count);
    if e.count >= threshold && seen.status != Open then (seen.(status := Open, lastFiredAt := e.now), true)
    else (seen, false)
  }

  function StateAfter(evals: seq<Eval>, window: int, threshold: int): AlertState {
    if evals == [] then UNSAVED
    else Step(StateAfter(evals[..|evals| - 1], window, threshold), evals[|evals| - 1], window, threshold).0
  }

  function EvalsIn(evals: map<int, seq<Eval>>, provider: int): seq<Eval> {
    if provider in evals then evals[provider] else []
  }

  function Load(states: map<int, AlertState>, provider: int): AlertState {
    if provider in states then states[provider] else UNSAVED
  }

  class AlertStore {
    var logs: seq<Row>
    var states: map<int, AlertState>
    const policy: Policy
    ghost var evals: map<int, seq<Eval>>

    ghost function EvalsOf(provider: int): seq<Eval>
      reads this
    {
      EvalsIn(evals, provider)
    }

    function Window(): int {
      policy.windowMinutes * 60
    }

    /** The saved state of every provider is that of its own evaluations; the others play no part. */
    ghost predicate Valid()
      reads this
    {
      forall p :: Load(states, p) == StateAfter(EvalsIn(evals, p), Window(), policy.threshold)
    }

    constructor (p: Policy)
      ensures Valid() && logs == [] && policy == p && evals == map[]
    {
      logs, states, policy, evals := [], map[], p, map[];
    }

    /** The insert stamps the row with the clock. */
    method Insert(row: Row, clock: int) returns (stored: Row)
      requires Valid()
      modifies this`logs
      ensures Valid() && stored == row.(createdAt := clock) && logs == old(logs) + [stored]
    {
      stored := row.(createdAt := clock);
      logs := logs + [stored];
    }

    /** The alert is switched on and its settings make sense. */
    predicate Active() {
      policy.enabled && policy.windowMinutes > 0 && policy.threshold > 0
    }

    /** Whether the row leads to an evaluation at all. */
    predicate Evaluates(row: Row) {
      row.provider != 0 && Failed(row) && Active()
    }

    method Evaluate(row: Row, clock: int) returns (fired: bool)
      requires Valid()
      modifies this`states, this`evals
      ensures Valid()
      ensures !Evaluates(row) ==> !fired && states == old(states) && evals == old(evals)
      ensures Evaluates(row) ==>
        var now := if row.createdAt == 0 then clock else row.createdAt;
        var e := Eval(now, CountFailedSince(logs, row.provider, now - Window() + 1));
        && evals == old(evals)[row.provider := old(EvalsOf(row.provider)) + [e]]
        && fired == Fired(EvalsOf(row.provider), |old(EvalsOf(row.provider))|, Window(), policy.threshold)
    {
      hide TrimSpace, StateAfter, CountFailedSince;
      if row.provider == 0 {
        return false;
      }
      if row.status == 1 && TrimSpace(row.errorMessage) == "" {
        return false;
      }
      if !policy.enabled {
        return false;
      }
      if policy.windowMinutes <= 0 || policy.threshold <= 0 {
        return false;
      }
      var now := row.createdAt;
      if now == 0 {
        now := clock;
      }
      var windowSeconds := policy.windowMinutes * 60;
      var windowStart := now - windowSeconds + 1;
      var count := CountFailedSince(logs, row.provider, windowStart);
      var state := UNSAVED;
      if row.provider in states {
        state := states[row.provider];
      }
      if state.lastObservedAt > 0 && now - state.lastObservedAt > windowSeconds {
        state := state.(status := Closed, windowStartedAt := 0, windowCount := 0);
      }
      state := state.(lastObservedAt := now, windowStartedAt := windowStart, windowCount := count);
      fired := count >= policy.threshold && state.status != Open;
      if fired {
        state := state.(status := Open, lastFiredAt := now);
      }
      states := states[row.provider := state];

      ghost var before := EvalsOf(row.provider);
      ghost var more := before + [Eval(now, count)];
      evals := evals[row.provider := more];
      StateAfterPush(before, Eval(now, count), Window(), policy.threshold);
      forall p ensures Load(states, p) == StateAfter(EvalsIn(evals, p), Window(), policy.threshold) {
        assert Load(old(states), p) == StateAfter(EvalsIn(old(evals), p), Window(), policy.threshold);
      }
      assert more[..|before|] == before;
    }

    /** What the logging goroutine does with a finished attempt. */
    method LogAttempt(row: Row, clock: int) returns (fired: bool)
      requires Valid() && Sequential() && clock > 0
      modifies this
      ensures Valid() && Sequential() && logs == old(logs) + [row.(createdAt := clock)]
      ensures fired <==> Active() && row.provider != 0 && Failed(row)
                         && Fired(EvalsOf(row.provider), |EvalsOf(row.provider)| - 1, Window(), policy.threshold)
    {
      hide Fired, Failed, StateAfter, CountFailedSince;
      var stored := Insert(row, clock);
      FailedKeepsTime(row, clock);
      fired := Evaluate(stored, clock);
      assert logs[..|logs| - 1] == old(logs);
    }

    /** Every evaluation so far came right after its insert; without an active policy there has been none. */
    ghost predicate Sequential()
      reads this
    {
      forall p :: EvalsIn(evals, p) == if Active() then EvalsFor(logs, p, Window()) else []
    }
  }

  lemma FailedKeepsTime(row: Row, clock: int)
    ensures Failed(row.(createdAt := clock)) == Failed(row)
  {
  }

  lemma StateAfterPush(evals: seq<Eval>, e: Eval, window: int, threshold: int)
    ensures StateAfter(evals + [e], window, threshold)
         == Step(StateAfter(evals, window, threshold), e, window, threshold).0
  {
    assert (evals + [e])[..|evals + [e]| - 1] == evals;
  }

  predicate Fired(evals: seq<Eval>, i: nat, window: int, threshold: int) {
    i < |evals| && Step(StateAfter(evals[..i], window, threshold), evals[i], window, threshold).1
  }

  // ---------------------------------------------------------------- once per burst

  /** No gap between neighbours from k to i exceeds the window. */
  ghost predicate SameBurst(evals: seq<Eval>, k: int, i: int, window: int) {
    0 <= k <= i < |evals| && forall m :: k < m <= i ==> evals[m].now - evals[m - 1].now <= window
  }

  ghost predicate Positive(evals: seq<Eval>) {
    forall e :: e in evals ==> e.now > 0
  }

  /** Some evaluation of the current burst has reached the threshold. */
  ghost predicate Reached(evals: seq<Eval>, i: int, window: int, threshold: int) {
    exists k :: SameBurst(evals, k, i, window) && evals[k].count >= threshold
  }

  lemma ReachedNext(evals: seq<Eval>, i: int, window: int, threshold: int)
    requires 0 <= i < |evals|
    ensures Reached(evals, i, window, threshold) <==>
            || evals[i].count >= threshold
            || (i > 0 && evals[i].now - evals[i - 1].now <= window && Reached(evals, i - 1, window, threshold))
  {
    forall k ensures SameBurst(evals, k, i, window)
                     <==> k == i || (i > 0 && evals[i].now - evals[i - 1].now <= window
                                     && SameBurst(evals, k, i - 1, window)) {
      BurstNext(evals, k, i, window);
    }
    hide SameBurst;
    if evals[i].count >= threshold {
      assert SameBurst(evals, i, i, window);
    }
    if i > 0 && evals[i].now - evals[i - 1].now <= window && Reached(evals, i - 1, window, threshold) {
      var k :| SameBurst(evals, k, i - 1, window) && evals[k].count >= threshold;
      assert SameBurst(evals, k, i, window);
    }
    if Reached(evals, i, window, threshold) {
      var k :| SameBurst(evals, k, i, window) && evals[k].count >= threshold;
      assert k == i || SameBurst(evals, k, i - 1, window);
    }
  }

  lemma BurstNext(evals: seq<Eval>, k: int, i: int, window: int)
    requires 0 <= i < |evals|
    ensures SameBurst(evals, k, i, window)
       <==> k == i || (i > 0 && evals[i].now - evals[i - 1].now <= window && SameBurst(evals, k, i - 1, window))
  {
  }

  /** The alert is open exactly when the current burst has reached the threshold. */
  lemma {:induction false} OpenIff(evals: seq<Eval>, n: nat, window: int, threshold: int)
    requires Positive(evals) && n <= |evals|
    ensures var s := StateAfter(evals[..n], window, threshold);
            && s.lastObservedAt == (if n == 0 then 0 else evals[n - 1].now)
            && (s.status == Open <==> n > 0 && Reached(evals, n - 1, window, threshold))
  {
    hide Reached;
    if n > 0 {
      OpenIff(evals, n - 1, window, threshold);
      ReachedNext(evals, n - 1, window, threshold);
      assert evals[..n][..n - 1] == evals[..n - 1];
      assert n > 1 ==> evals[n - 2] in evals;
    }
  }

  lemma ReachedBefore(evals: seq<Eval>, i: nat, window: int, threshold: int)
    requires i < |evals|
    ensures (exists k :: k < i && SameBurst(evals, k, i, window) && evals[k].count >= threshold)
       <==> i > 0 && evals[i].now - evals[i - 1].now <= window && Reached(evals, i - 1, window, threshold)
  {
    if i > 0 && evals[i].now - evals[i - 1].now <= window {
      forall k | 0 <= k < i ensures SameBurst(evals, k, i, window) <==> SameBurst(evals, k, i - 1, window) {
      }
    }
  }

  /** An evaluation fires exactly when it is the first of its burst to reach the threshold. */
  lemma FiresIff(evals: seq<Eval>, i: nat, window: int, threshold: int)
    requires Positive(evals) && i < |evals|
    ensures Fired(evals, i, window, threshold) <==>
            && evals[i].count >= threshold
            && forall k :: k < i && SameBurst(evals, k, i, window) ==> evals[k].count < threshold
  {
    hide StateAfter, SameBurst, Reached;
    OpenIff(evals, i, window, threshold);
    ReachedBefore(evals, i, window, threshold);
    assert i > 0 ==> evals[i - 1] in evals;
  }

  /** At most one notification per burst. */
  lemma FiresOnce(evals: seq<Eval>, i: nat, j: nat, window: int, threshold: int)
    requires Positive(evals) && i <= j && SameBurst(evals, i, j, window)
    requires Fired(evals, i, window, threshold) && Fired(evals, j, window, threshold)
    ensures i == j
  {
    FiresIff(evals, i, window, threshold);
    FiresIff(evals, j, window, threshold);
  }

  /** A burst notifies exactly when the count reaches the threshold somewhere in it. */
  lemma BurstFiresIff(evals: seq<Eval>, first: nat, last: nat, window: int, threshold: int)
    requires Positive(evals) && SameBurst(evals, first, last, window)
    requires first == 0 || evals[first].now - evals[first - 1].now > window
    ensures (exists i :: first <= i <= last && Fired(evals, i, window, threshold))
       <==> (exists i :: first <= i <= last && evals[i].count >= threshold)
  {
    hide StateAfter, Step;
    if i :| first <= i <= last && Fired(evals, i, window, threshold) {
      FiresIff(evals, i, window, threshold);
      assert evals[i].count >= threshold;
    }
    if i :| first <= i <= last && evals[i].count >= threshold {
      var k := FirstReached(evals, first, i, threshold);
      FiresIff(evals, k, window, threshold);
      forall m | m < k && SameBurst(evals, m, k, window) ensures evals[m].count < threshold {
        assert m >= first;
      }
      assert first <= k <= last && Fired(evals, k, window, threshold);
    }
  }

  lemma {:induction false} FirstReached(evals: seq<Eval>, first: nat, i: nat, threshold: int) returns (k: nat)
    requires first <= i < |evals| && evals[i].count >= threshold
    ensures first <= k <= i && evals[k].count >= threshold
    ensures forall m :: first <= m < k ==> evals[m].count < threshold
  {
    k := first;
    while evals[k].count < threshold
      invariant first <= k <= i
      invariant forall m :: first <= m < k ==> evals[m].count < threshold
      decreases i - k
    {
      k := k + 1;
    }
  }

  // ---------------------------------------------------------------- what is counted

  /** The evaluations of a provider when every row is inserted and then evaluated. */
  function EvalsFor(rows: seq<Row>, provider: int, window: int): seq<Eval> {
    if rows == [] then []
    else
      var last := rows[|rows| - 1];
      var before := EvalsFor(rows[..|rows| - 1], provider, window);
      if provider != 0 && last.provider == provider && Failed(last)
      then before + [Eval(last.createdAt, CountFailedSince(rows, provider, last.createdAt - window + 1))]
      else before
  }

  ghost predicate Stamped(rows: seq<Row>) {
    && (forall r :: r in rows ==> r.createdAt > 0 && Consistent(r))
    && (forall i, j :: 0 <= i < j < |rows| ==> rows[i].createdAt <= rows[j].createdAt)
  }

  ghost predicate Ordered(evals: seq<Eval>) {
    forall i, j :: 0 <= i < j < |evals| ==> evals[i].now <= evals[j].now
  }

  /** How many of the evaluations are at `since` or later. */
  ghost function CountSince(evals: seq<Eval>, since: int): nat {
    if evals == [] then 0
    else CountSince(evals[..|evals| - 1], since) + (if evals[|evals| - 1].now >= since then 1 else 0)
  }

  lemma {:induction false} CountedAreEvaluated(rows: seq<Row>, provider: int, window: int, since: int)
    requires provider != 0 && forall r :: r in rows ==> Consistent(r)
    ensures CountFailedSince(rows, provider, since) == CountSince(EvalsFor(rows, provider, window), since)
  {
    hide Failed, CountsAsFailed, Consistent;
    if rows != [] {
      var last := rows[|rows| - 1];
      assert last in rows;
      FailureTestsAgree(last);
      CountedAreEvaluated(rows[..|rows| - 1], provider, window, since);
    }
  }

  lemma StampedPrefix(rows: seq<Row>)
    requires Stamped(rows) && rows != []
    ensures Stamped(rows[..|rows| - 1])
    ensures rows[|rows| - 1].createdAt > 0 && Consistent(rows[|rows| - 1])
    ensures forall r :: r in rows ==> r.createdAt <= rows[|rows| - 1].createdAt
  {
    assert rows[|rows| - 1] in rows;
    assert forall r :: r in rows[..|rows| - 1] ==> r in rows;
  }

  ghost predicate Counted(evals: seq<Eval>, window: int) {
    forall i :: 0 <= i < |evals| ==> evals[i].count == CountSince(evals[..i + 1], evals[i].now - window + 1)
  }

  ghost predicate UpTo(evals: seq<Eval>, clock: int) {
    forall e :: e in evals ==> e.now <= clock
  }

  lemma CountedPush(evals: seq<Eval>, e: Eval, window: int)
    requires Counted(evals, window) && e.count == CountSince(evals + [e], e.now - window + 1)
    ensures Counted(evals + [e], window)
  {
    hide CountSince;
    var more := evals + [e];
    forall i | 0 <= i < |more|
      ensures more[i].count == CountSince(more[..i + 1], more[i].now - window + 1)
    {
      if i < |evals| {
        assert more[..i + 1] == evals[..i + 1];
      } else {
        assert more[..i + 1] == more;
      }
    }
  }

  lemma OrderedPush(evals: seq<Eval>, e: Eval, clock: int)
    requires Ordered(evals) && UpTo(evals, clock) && clock <= e.now && Positive(evals) && e.now > 0
    ensures Ordered(evals + [e]) && UpTo(evals + [e], e.now) && Positive(evals + [e])
  {
    assert forall i :: 0 <= i < |evals| ==> evals[i] in evals;
  }

  /** Each evaluation counted the evaluations so far in its own window. */
  lemma {:induction false} EvalCounts(rows: seq<Row>, provider: int, window: int, clock: int)
    requires Stamped(rows) && provider != 0 && forall r :: r in rows ==> r.createdAt <= clock
    ensures var evals := EvalsFor(rows, provider, window);
            Ordered(evals) && Positive(evals) && UpTo(evals, clock) && Counted(evals, window)
  {
    hide Stamped, Failed, CountFailedSince, CountSince, Consistent, Ordered, Positive, Counted;
    if rows == [] {
      NoEvals(window);
    } else {
      var init, last := rows[..|rows| - 1], rows[|rows| - 1];
      StampedPrefix(rows);
      assert last in rows;
      EvalCounts(init, provider, window, last.createdAt);
      var before := EvalsFor(init, provider, window);
      if last.provider == provider && Failed(last) {
        StampedConsistent(rows);
        CountedAreEvaluated(rows, provider, window, last.createdAt - window + 1);
        var e := Eval(last.createdAt, CountFailedSince(rows, provider, last.createdAt - window + 1));
        OrderedPush(before, e, last.createdAt);
        CountedPush(before, e, window);
      }
    }
  }

  lemma NoEvals(window: int)
    ensures Ordered([]) && Positive([]) && Counted([], window)
  {
  }

  lemma StampedConsistent(rows: seq<Row>)
    requires Stamped(rows)
    ensures forall r :: r in rows ==> Consistent(r)
  {
  }

  /** Whatever lies in the window lies in the burst. */
  lemma WindowInBurst(evals: seq<Eval>, k: nat, i: nat, window: int)
    requires Ordered(evals) && k <= i < |evals| && evals[k].now >= evals[i].now - window + 1
    ensures SameBurst(evals, k, i, window)
  {
    forall m | k < m <= i ensures evals[m].now - evals[m - 1].now <= window {
      assert evals[k].now <= evals[m - 1].now;
      assert evals[m].now <= evals[i].now;
    }
  }

  /** The evaluations among the first `n` at `since` or later. */
  ghost function Recent(evals: seq<Eval>, n: nat, since: int): set<int>
    requires n <= |evals|
  {
    set k | 0 <= k < n && evals[k].now >= since
  }

  lemma RecentNext(evals: seq<Eval>, n: nat, since: int)
    requires n < |evals|
    ensures |Recent(evals, n + 1, since)| == |Recent(evals, n, since)| + (if evals[n].now >= since then 1 else 0)
  {
    assert Recent(evals, n + 1, since) == Recent(evals, n, since) + (if evals[n].now >= since then {n} else {});
  }

  lemma {:induction false} CountIsSetSize(evals: seq<Eval>, n: nat, since: int)
    requires n <= |evals|
    ensures CountSince(evals[..n], since) == |Recent(evals, n, since)|
  {
    hide Recent;
    if n > 0 {
      CountIsSetSize(evals, n - 1, since);
      assert evals[..n][..n - 1] == evals[..n - 1];
      RecentNext(evals, n - 1, since);
    } else {
      RecentNone(evals, since);
    }
  }

  lemma RecentNone(evals: seq<Eval>, since: int)
    ensures Recent(evals, 0, since) == {}
  {
  }

  /** The failures of the evaluation's own burst inside its window. */
  ghost function InBurstWindow(evals: seq<Eval>, i: nat, window: int): set<int>
    requires i < |evals|
  {
    set k | 0 <= k <= i && SameBurst(evals, k, i, window) && evals[k].now > evals[i].now - window
  }

  /** The count of an evaluation is the number of failures of its own burst inside its window. */
  lemma CountsOwnBurst(rows: seq<Row>, provider: int, window: int, i: nat)
    requires Stamped(rows) && provider != 0 && i < |EvalsFor(rows, provider, window)|
    ensures var evals := EvalsFor(rows, provider, window);
            evals[i].count == |InBurstWindow(evals, i, window)|
  {
    hide SameBurst, EvalsFor, Stamped, Ordered, Positive, CountSince, Recent;
    var evals := EvalsFor(rows, provider, window);
    EvalCountsAll(rows, provider, window);
    CountIsSetSize(evals, i + 1, evals[i].now - window + 1);
    forall k | 0 <= k <= i && evals[k].now > evals[i].now - window ensures SameBurst(evals, k, i, window) {
      WindowInBurst(evals, k, i, window);
    }
    SameSet(evals, i, window);
  }

  lemma SameSet(evals: seq<Eval>, i: nat, window: int)
    requires i < |evals|
    requires forall k :: 0 <= k <= i && evals[k].now > evals[i].now - window ==> SameBurst(evals, k, i, window)
    ensures InBurstWindow(evals, i, window)
         == Recent(evals, i + 1, evals[i].now - window + 1)
  {
    hide SameBurst;
  }

  lemma EvalCountsAll(rows: seq<Row>, provider: int, window: int)
    requires Stamped(rows) && provider != 0
    ensures var evals := EvalsFor(rows, provider, window);
            Ordered(evals) && Positive(evals) && Counted(evals, window)
  {
    if rows != [] {
      StampedPrefix(rows);
      EvalCounts(rows, provider, window, rows[|rows| - 1].createdAt);
    }
  }

  /**
   * Over any run of a non-decreasing clock: a failure notifies exactly when the failures of its own burst inside
   * its window reach the threshold, and none before it in that burst did.
   */
  lemma BurstAlert(rows: seq<Row>, provider: int, window: int, threshold: int, i: nat)
    requires Stamped(rows) && provider != 0 && i < |EvalsFor(rows, provider, window)|
    ensures var evals := EvalsFor(rows, provider, window);
            Fired(evals, i, window, threshold) <==>
            && |InBurstWindow(evals, i, window)| >= threshold
            && forall k :: k < i && SameBurst(evals, k, i, window) ==> evals[k].count < threshold
  {
    EvalCountsAll(rows, provider, window);
    CountsOwnBurst(rows, provider, window, i);
    FiresIff(EvalsFor(rows, provider, window), i, window, threshold);
  }
}
