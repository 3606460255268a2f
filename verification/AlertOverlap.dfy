/**
 * service/proxy.go:944-950 and service/notification.go: every logging goroutine loads the alert state of its provider,
 * decides, and saves it again, and nothing keeps two of them apart.
 */
module AlertOverlap {
  import opened FailureAlert
  import opened Sorting

  /** An evaluation that has loaded the alert state and counted, and has not saved. */
  datatype Pending = Pending(loaded: AlertState, eval: Eval)

  datatype State = State(saved: AlertState, pending: map<int, Pending>, notified: set<int>)

  datatype Act =
    | Load(id: int, now: int)
    | Save(id: int)

  /** What the evaluations find out: the alert's policy, and the failures that each of them counts. */
  datatype World = World(window: int, threshold: int, counts: int -> int)

  // ---------------------------------------------------------------- schedules

  function Loaded(acts: seq<Act>): set<int> {
    if acts == [] then {}
    else
      var before, a := Loaded(acts[..|acts| - 1]), acts[|acts| - 1];
      if a.Load? then before + {a.id} else before
  }

  /** The evaluations under way. */
  function UnderWay(acts: seq<Act>): set<int> {
    if acts == [] then {}
    else
      var before, a := UnderWay(acts[..|acts| - 1]), acts[|acts| - 1];
      if a.Load? then before + {a.id} else before - {a.id}
  }

  /** Every evaluation loads once and then saves at most once. */
  ghost predicate IsSchedule(acts: seq<Act>) {
    forall n :: 0 <= n < |acts| ==>
      if acts[n].Load? then acts[n].id !in Loaded(acts[..n]) else acts[n].id in UnderWay(acts[..n])
  }

  /** No evaluation loads while another is under way. */
  ghost predicate Serial(acts: seq<Act>) {
    forall n :: 0 <= n < |acts| && acts[n].Load? ==> UnderWay(acts[..n]) == {}
  }

  lemma SchedulePrefix(acts: seq<Act>)
    requires IsSchedule(acts) && acts != []
    ensures IsSchedule(acts[..|acts| - 1]) && (Serial(acts) ==> Serial(acts[..|acts| - 1]))
  {
    var init := acts[..|acts| - 1];
    assert forall n :: 0 <= n < |init| ==> init[..n] == acts[..n];
  }

  lemma {:induction false} OpenIsLoaded(acts: seq<Act>)
    ensures UnderWay(acts) <= Loaded(acts)
  {
    if acts != [] {
      OpenIsLoaded(acts[..|acts| - 1]);
    }
  }

  // ---------------------------------------------------------------- runs

  function Apply(s: State, a: Act, w: World): State
    requires a.Save? ==> a.id in s.pending
  {
    match a
    case Load(id, now) => s.(pending := s.pending[id := Pending(s.saved, Eval(now, w.counts(id)))])
    case Save(id) =>
      var (next, fired) := Step(s.pending[id].loaded, s.pending[id].eval, w.window, w.threshold);
      State(next, s.pending - {id}, if fired then s.notified + {id} else s.notified)
  }

  /** The state after a schedule, from a saved alert state. */
  ghost function After(start: AlertState, acts: seq<Act>, w: World): (s: State)
    requires IsSchedule(acts)
    ensures s.pending.Keys == UnderWay(acts)
  {
    if acts == [] then State(start, map[], {})
    else
      SchedulePrefix(acts);
      Apply(After(start, acts[..|acts| - 1], w), acts[|acts| - 1], w)
  }

  function LoadTimes(acts: seq<Act>): seq<int> {
    if acts == [] then []
    else
      var before, a := LoadTimes(acts[..|acts| - 1]), acts[|acts| - 1];
      if a.Load? then before + [a.now] else before
  }

  /** One burst: every evaluation comes within the window of the one before. */
  ghost predicate OneBurst(acts: seq<Act>, window: int) {
    var times := LoadTimes(acts);
    && (forall i :: 0 <= i < |times| ==> times[i] > 0)
    && (forall i :: 0 < i < |times| ==> times[i] - times[i - 1] <= window)
  }

  /** The alert is closed when the burst begins, or was last observed longer ago than the window. */
  ghost predicate Fresh(start: AlertState, acts: seq<Act>, window: int) {
    || start.status == Closed
    || forall i :: 0 <= i < |LoadTimes(acts)| ==>
         start.lastObservedAt > 0 && LoadTimes(acts)[i] - start.lastObservedAt > window
  }

  lemma BurstPrefix(start: AlertState, acts: seq<Act>, window: int)
    requires acts != []
    ensures OneBurst(acts, window) ==> OneBurst(acts[..|acts| - 1], window)
    ensures Fresh(start, acts, window) ==> Fresh(start, acts[..|acts| - 1], window)
  {
    var init, a := acts[..|acts| - 1], acts[|acts| - 1];
    var before, times := LoadTimes(init), LoadTimes(acts);
    assert forall i :: 0 <= i < |before| ==> times[i] == before[i];
    if Fresh(start, acts, window) && start.status != Closed {
      forall i | 0 <= i < |LoadTimes(init)|
        ensures start.lastObservedAt > 0 && LoadTimes(init)[i] - start.lastObservedAt > window
      {
        assert LoadTimes(init)[i] == LoadTimes(acts)[i];
      }
    }
  }

  lemma LastGap(acts: seq<Act>, window: int)
    requires acts != [] && acts[|acts| - 1].Load? && OneBurst(acts, window)
    ensures var before, now := LoadTimes(acts[..|acts| - 1]), acts[|acts| - 1].now;
            now > 0 && (before != [] ==> now - before[|before| - 1] <= window)
  {
    var before, times := LoadTimes(acts[..|acts| - 1]), LoadTimes(acts);
    assert times[|times| - 1] == acts[|acts| - 1].now;
    assert before != [] ==> times[|times| - 2] == before[|before| - 1];
  }

  // ---------------------------------------------------------------- evaluations that do not overlap

  /** Where a serial burst stands: what is saved is as last observed, and one notification leaves the alert open. */
  ghost predicate Standing(start: AlertState, s: State, times: seq<int>, window: int) {
    && (times == [] ==> s == State(start, map[], {}))
    && (s.pending == map[] && times != [] ==>
          && s.saved.lastObservedAt == times[|times| - 1]
          && (s.notified == {} || (|s.notified| == 1 && s.saved.status == Open)))
    && (forall id :: id in s.pending ==>
          && s.pending.Keys == {id} && times != []
          && s.pending[id].eval.now == times[|times| - 1] && s.pending[id].loaded == s.saved
          && (|times| == 1 ==> s.saved == start && s.notified == {})
          && (|times| > 1 ==> s.saved.lastObservedAt == times[|times| - 2]
                              && (s.notified == {} || (|s.notified| == 1 && s.saved.status == Open))))
  }

  lemma StandingStep(start: AlertState, s: State, a: Act, times: seq<int>, w: World)
    requires Standing(start, s, times, w.window)
    requires a.Load? ==> s.pending == map[]
    requires a.Save? ==> a.id in s.pending
    requires a.Load? ==> a.now > 0 && (times != [] ==> a.now - times[|times| - 1] <= w.window)
    requires |times| > 1 ==> times[|times| - 1] - times[|times| - 2] <= w.window
    requires times != [] ==>
               start.status == Closed || (start.lastObservedAt > 0 && times[0] - start.lastObservedAt > w.window)
    ensures Standing(start, Apply(s, a, w), if a.Load? then times + [a.now] else times, w.window)
  {
  }

  lemma {:induction false} SerialStanding(start: AlertState, acts: seq<Act>, w: World)
    requires IsSchedule(acts) && Serial(acts) && OneBurst(acts, w.window) && Fresh(start, acts, w.window)
    ensures Standing(start, After(start, acts, w), LoadTimes(acts), w.window)
  {
    hide Standing, Apply, IsSchedule, Step;
    if acts == [] {
      NothingLoaded(start, w.window);
    } else {
      var init, a := acts[..|acts| - 1], acts[|acts| - 1];
      SchedulePrefix(acts);
      BurstPrefix(start, acts, w.window);
      SerialStanding(start, init, w);
      NextAct(acts);
      var s := After(start, init, w);
      assert a.Load? ==> s.pending.Keys == {} && s.pending == map[];
      if a.Load? {
        LastGap(acts, w.window);
      }
      StandingStep(start, s, a, LoadTimes(init), w);
    }
  }

  lemma NothingLoaded(start: AlertState, window: int)
    ensures Standing(start, State(start, map[], {}), [], window)
  {
  }

  lemma NextAct(acts: seq<Act>)
    requires IsSchedule(acts) && acts != []
    ensures acts[|acts| - 1].Save? ==> acts[|acts| - 1].id in UnderWay(acts[..|acts| - 1])
    ensures acts[|acts| - 1].Load? && Serial(acts) ==> UnderWay(acts[..|acts| - 1]) == {}
  {
  }

  function EvalsOf(acts: seq<Act>, w: World): seq<Eval> {
    if acts == [] then []
    else
      var before, a := EvalsOf(acts[..|acts| - 1], w), acts[|acts| - 1];
      if a.Load? then before + [Eval(a.now, w.counts(a.id))] else before
  }

  /** Nothing under way: the saved state is that of the evaluations; else of all but the one under way. */
  ghost predicate Sequential(s: State, evals: seq<Eval>, w: World) {
    && (s.pending == map[] ==> s.saved == StateAfter(evals, w.window, w.threshold))
    && (forall id :: id in s.pending ==>
          && s.pending.Keys == {id} && evals != [] && s.pending[id] == Pending(s.saved, evals[|evals| - 1])
          && s.saved == StateAfter(evals[..|evals| - 1], w.window, w.threshold))
  }

  lemma SequentialStep(s: State, a: Act, evals: seq<Eval>, w: World)
    requires Sequential(s, evals, w) && (if a.Load? then s.pending == map[] else a.id in s.pending)
    ensures Sequential(Apply(s, a, w), if a.Load? then evals + [Eval(a.now, w.counts(a.id))] else evals, w)
  {
    hide Step;
    if a.Load? {
      var more := evals + [Eval(a.now, w.counts(a.id))];
      assert more[..|more| - 1] == evals;
      assert Apply(s, a, w).pending.Keys == {a.id};
      assert a.id in Apply(s, a, w).pending;
    } else {
      assert s.pending.Keys == {a.id};
      assert (s.pending - {a.id}).Keys == {};
    }
  }

  /** Without overlap the saved states are those of the evaluations made one after the other. */
  lemma {:induction false} SerialIsSequential(acts: seq<Act>, w: World)
    requires IsSchedule(acts) && Serial(acts)
    ensures Sequential(After(UNSAVED, acts, w), EvalsOf(acts, w), w)
  {
    hide Sequential, Apply, IsSchedule, Step;
    if acts == [] {
      SequentialStart(w);
    } else {
      var init, a := acts[..|acts| - 1], acts[|acts| - 1];
      SchedulePrefix(acts);
      NextAct(acts);
      SerialIsSequential(init, w);
      var s := After(UNSAVED, init, w);
      assert a.Load? ==> s.pending.Keys == {} && s.pending == map[];
      SequentialStep(s, a, EvalsOf(init, w), w);
    }
  }

  lemma SequentialStart(w: World)
    ensures Sequential(State(UNSAVED, map[], {}), [], w)
  {
  }

  // ---------------------------------------------------------------- evaluations that overlap

  /** Only these two evaluations reach the threshold. */
  function Both(a: int, b: int, w: World): World {
    w.(counts := id => if id == a || id == b then w.threshold else 0)
  }

  /** The alert would be seen as closed by every evaluation of the burst. */
  predicate Shut(state: AlertState, start: AlertState) {
    state.status == Closed || state == start
  }

  ghost predicate AllShut(s: State, start: AlertState) {
    Shut(s.saved, start) && forall id :: id in s.pending ==> Shut(s.pending[id].loaded, start)
  }

  /** Both evaluations are under way with a closed alert and a full count, or have notified. */
  ghost predicate Bound(s: State, start: AlertState, id: int, w: World) {
    || id in s.notified
    || (id in s.pending && Shut(s.pending[id].loaded, start) && s.pending[id].eval.count >= w.threshold)
  }

  ghost predicate TimesFresh(s: State, start: AlertState, window: int) {
    forall id :: id in s.pending ==>
      start.status == Closed || (start.lastObservedAt > 0 && s.pending[id].eval.now - start.lastObservedAt > window)
  }

  lemma {:induction false} PendingFresh(start: AlertState, acts: seq<Act>, w: World)
    requires IsSchedule(acts) && Fresh(start, acts, w.window)
    ensures TimesFresh(After(start, acts, w), start, w.window)
  {
    hide IsSchedule, Step;
    if acts != [] {
      SchedulePrefix(acts);
      NextAct(acts);
      BurstPrefix(start, acts, w.window);
      PendingFresh(start, acts[..|acts| - 1], w);
      var times := LoadTimes(acts);
      assert acts[|acts| - 1].Load? ==> times[|times| - 1] == acts[|acts| - 1].now;
    }
  }

  lemma ShutStep(s: State, a: Act, start: AlertState, w: World)
    requires AllShut(s, start) && TimesFresh(s, start, w.window) && w.threshold > 0
    requires a.Save? ==> a.id in s.pending && s.pending[a.id].eval.count < w.threshold
    ensures AllShut(Apply(s, a, w), start)
  {
  }

  lemma BoundStep(s: State, a: Act, start: AlertState, id: int, w: World)
    requires Bound(s, start, id, w) && TimesFresh(s, start, w.window)
    requires if a.Save? then a.id in s.pending else a.id != id || id in s.notified
    ensures Bound(Apply(s, a, w), start, id, w)
  {
  }

  lemma {:induction false} CountsKept(start: AlertState, acts: seq<Act>, w: World)
    requires IsSchedule(acts)
    ensures forall id :: id in UnderWay(acts) ==> After(start, acts, w).pending[id].eval.count == w.counts(id)
  {
    hide IsSchedule, Step;
    if acts != [] {
      SchedulePrefix(acts);
      NextAct(acts);
      CountsKept(start, acts[..|acts| - 1], w);
    }
  }

  /** Until one of the two saves, the alert looks closed to all. */
  lemma {:induction false} ShutUntilSaved(start: AlertState, acts: seq<Act>, a: int, b: int, w: World)
    requires IsSchedule(acts) && Fresh(start, acts, w.window) && w.threshold > 0
    requires forall n :: 0 <= n < |acts| && acts[n].Save? ==> acts[n].id != a && acts[n].id != b
    ensures AllShut(After(start, acts, Both(a, b, w)), start)
  {
    hide IsSchedule, AllShut, Step;
    if acts == [] {
      ShutAtStart(start);
    } else {
      var init, last := acts[..|acts| - 1], acts[|acts| - 1];
      SchedulePrefix(acts);
      NextAct(acts);
      BurstPrefix(start, acts, w.window);
      ShutUntilSaved(start, init, a, b, w);
      PendingFresh(start, init, Both(a, b, w));
      CountsKept(start, init, Both(a, b, w));
      ShutStep(After(start, init, Both(a, b, w)), last, start, Both(a, b, w));
    }
  }

  lemma ShutAtStart(start: AlertState)
    ensures AllShut(State(start, map[], {}), start)
  {
  }

  lemma {:induction false} OpenNeverSaved(acts: seq<Act>, a: int)
    requires IsSchedule(acts) && (a in UnderWay(acts) || a !in Loaded(acts))
    ensures forall n :: 0 <= n < |acts| && acts[n].Save? ==> acts[n].id != a
  {
    hide IsSchedule;
    if acts != [] {
      var init, last := acts[..|acts| - 1], acts[|acts| - 1];
      SchedulePrefix(acts);
      NextAct(acts);
      OpenIsLoaded(init);
      FreshLoad(acts);
      OpenNeverSaved(init, a);
    }
  }

  lemma FreshLoad(acts: seq<Act>)
    requires IsSchedule(acts) && acts != []
    ensures acts[|acts| - 1].Load? ==> acts[|acts| - 1].id !in Loaded(acts[..|acts| - 1])
  {
  }

  lemma BoundAfterLoad(start: AlertState, acts: seq<Act>, a: int, b: int, now: int, w: World)
    requires IsSchedule(acts + [Load(b, now)]) && Fresh(start, acts + [Load(b, now)], w.window) && w.threshold > 0
    requires a in UnderWay(acts) && a != b
    ensures var s := After(start, acts + [Load(b, now)], Both(a, b, w));
            Bound(s, start, a, Both(a, b, w)) && Bound(s, start, b, Both(a, b, w))
  {
    hide IsSchedule, Step;
    var more := acts + [Load(b, now)];
    assert more[..|acts|] == acts;
    SchedulePrefix(more);
    BurstPrefix(start, more, w.window);
    FreshLoad(more);
    OpenIsLoaded(acts);
    OpenNeverSaved(acts, a);
    OpenNeverSaved(acts, b);
    ShutUntilSaved(start, acts, a, b, w);
    CountsKept(start, acts, Both(a, b, w));
  }

  /** Once both are under way, both notify. */
  lemma {:induction false} BoundToNotify(start: AlertState, acts: seq<Act>, m: nat, a: int, b: int, w: World)
    requires IsSchedule(acts) && Fresh(start, acts, w.window) && w.threshold > 0
    requires m < |acts| && acts[m].Load? && acts[m].id == b && a in UnderWay(acts[..m]) && a != b
    ensures Bound(After(start, acts, Both(a, b, w)), start, a, Both(a, b, w))
    ensures Bound(After(start, acts, Both(a, b, w)), start, b, Both(a, b, w))
    decreases |acts|
  {
    hide IsSchedule, Bound, Step, Apply;
    var init, last := acts[..|acts| - 1], acts[|acts| - 1];
    SchedulePrefix(acts);
    NextAct(acts);
    FreshLoad(acts);
    BurstPrefix(start, acts, w.window);
    assert acts[..m] == init[..m] && acts == init + [last];
    if m == |acts| - 1 {
      BoundAfterLoad(start, init, a, b, last.now, w);
    } else {
      BoundToNotify(start, init, m, a, b, w);
      PendingFresh(start, init, Both(a, b, w));
      LoadedBefore(init, m, a);
      BoundStep(After(start, init, Both(a, b, w)), last, start, a, Both(a, b, w));
      BoundStep(After(start, init, Both(a, b, w)), last, start, b, Both(a, b, w));
    }
  }

  lemma {:induction false} LoadedBefore(acts: seq<Act>, m: nat, a: int)
    requires m < |acts| && acts[m].Load? && a in UnderWay(acts[..m])
    ensures a in Loaded(acts) && acts[m].id in Loaded(acts)
  {
    var init := acts[..|acts| - 1];
    if m < |init| {
      assert init[..m] == acts[..m];
      LoadedBefore(init, m, a);
    } else {
      OpenIsLoaded(init);
    }
  }

  lemma OverlapNotifiesTwice(start: AlertState, acts: seq<Act>, w: World) returns (counts: int -> int)
    requires IsSchedule(acts) && UnderWay(acts) == {} && !Serial(acts) && Fresh(start, acts, w.window)
    requires w.threshold > 0
    ensures |After(start, acts, w.(counts := counts)).notified| >= 2
  {
    hide IsSchedule, Step;
    var m :| 0 <= m < |acts| && acts[m].Load? && UnderWay(acts[..m]) != {};
    var a := AnElement(UnderWay(acts[..m]));
    var b := acts[m].id;
    NewLoad(acts, m);
    OpenIsLoaded(acts[..m]);
    BoundToNotify(start, acts, m, a, b, w);
    counts := Both(a, b, w).counts;
    var notified := After(start, acts, Both(a, b, w)).notified;
    assert {a, b} <= notified;
    assert notified == {a, b} + (notified - {a, b});
  }

  lemma NewLoad(acts: seq<Act>, m: nat)
    requires IsSchedule(acts) && m < |acts| && acts[m].Load?
    ensures acts[m].id !in Loaded(acts[..m])
  {
  }

  /** A schedule under which a burst notifies at most once, whatever its evaluations count. */
  ghost predicate NotifiesOnce(start: AlertState, acts: seq<Act>, window: int, threshold: int)
    requires IsSchedule(acts)
  {
    forall counts: int -> int :: |After(start, acts, World(window, threshold, counts)).notified| <= 1
  }

  /**
   * A burst of finished evaluations notifies at most once, whatever they count, exactly when no evaluation loads the
   * alert state while another is under way.
   */
  lemma NotifiesOnceIff(start: AlertState, acts: seq<Act>, window: int, threshold: int)
    requires IsSchedule(acts) && UnderWay(acts) == {} && OneBurst(acts, window) && Fresh(start, acts, window)
    requires threshold > 0
    ensures NotifiesOnce(start, acts, window, threshold) <==> Serial(acts)
  {
    hide IsSchedule, OneBurst, Fresh, Step;
    if Serial(acts) {
      forall counts: int -> int ensures |After(start, acts, World(window, threshold, counts)).notified| <= 1 {
        var w := World(window, threshold, counts);
        SerialStanding(start, acts, w);
        AtMostOne(start, After(start, acts, w), LoadTimes(acts), window);
      }
    } else {
      var counts := OverlapNotifiesTwice(start, acts, World(window, threshold, _ => 0));
      assert |After(start, acts, World(window, threshold, counts)).notified| >= 2;
    }
  }

  lemma AtMostOne(start: AlertState, s: State, times: seq<int>, window: int)
    requires Standing(start, s, times, window) && s.pending.Keys == {}
    ensures |s.notified| <= 1
  {
    assert s.pending == map[];
  }

  // ---------------------------------------------------------------- what overlap does

  lemma Extend(start: AlertState, acts: seq<Act>, a: Act, w: World)
    requires IsSchedule(acts)
    requires if a.Load? then a.id !in Loaded(acts) else a.id in UnderWay(acts)
    ensures IsSchedule(acts + [a]) && After(start, acts + [a], w) == Apply(After(start, acts, w), a, w)
    ensures Loaded(acts + [a]) == if a.Load? then Loaded(acts) + {a.id} else Loaded(acts)
    ensures UnderWay(acts + [a]) == if a.Load? then UnderWay(acts) + {a.id} else UnderWay(acts) - {a.id}
  {
    var more := acts + [a];
    assert more[..|acts|] == acts;
    forall n | 0 <= n < |more|
      ensures if more[n].Load? then more[n].id !in Loaded(more[..n]) else more[n].id in UnderWay(more[..n])
    {
      if n < |acts| {
        assert more[..n] == acts[..n];
      }
    }
  }

  lemma TwoOverlap(w: World) returns (acts: seq<Act>)
    ensures acts == [Load(1, 100), Load(2, 100), Save(1), Save(2)] && IsSchedule(acts)
    ensures var both := Apply(Apply(State(UNSAVED, map[], {}), Load(1, 100), w), Load(2, 100), w);
            After(UNSAVED, acts, w) == Apply(Apply(both, Save(1), w), Save(2), w)
  {
    hide IsSchedule, Step;
    acts := [];
    NoActs(w);
    Extend(UNSAVED, acts, Load(1, 100), w);
    acts := acts + [Load(1, 100)];
    Extend(UNSAVED, acts, Load(2, 100), w);
    acts := acts + [Load(2, 100)];
    Extend(UNSAVED, acts, Save(1), w);
    acts := acts + [Save(1)];
    Extend(UNSAVED, acts, Save(2), w);
    acts := acts + [Save(2)];
  }

  lemma NoActs(w: World)
    ensures IsSchedule([]) && After(UNSAVED, [], w) == State(UNSAVED, map[], {})
    ensures Loaded([]) == {} && UnderWay([]) == {}
  {
  }

  /** Two failures that both find the threshold of 5 reached before either has saved: two notifications. */
  lemma TwiceExample()
    ensures var acts := [Load(1, 100), Load(2, 100), Save(1), Save(2)];
            IsSchedule(acts) && After(UNSAVED, acts, World(600, 5, _ => 5)).notified == {1, 2}
  {
    var w := World(600, 5, _ => 5);
    hide IsSchedule, After;
    var acts := TwoOverlap(w);
    var both := Apply(Apply(State(UNSAVED, map[], {}), Load(1, 100), w), Load(2, 100), w);
    assert both.pending[1] == both.pending[2] == Pending(UNSAVED, Eval(100, 5));
    assert 1 in Apply(both, Save(1), w).notified;
  }
}
