/**
 * model/model_route_cache.go: the cached routing snapshot, its double-checked lock, its time to live and its
 * invalidation, as the interleaved steps of any number of readers and writers.
 */
module SnapshotCache {
  import opened Wrappers

  /** routingStaticSnapshotTTL, in seconds. */
  const TTL: int := 60

  /** Routes, providers, tokens and prices are read one after the other; a table without use is not read. */
  const TABLES: nat := 4

  /** A snapshot is known by the database version each of its parts was read at, and by when it was made. */
  datatype Snapshot = Snapshot(parts: seq<nat>, builtAt: int, epoch: nat)

  datatype How = Fast | Recheck | Rebuilt | AfterFailure

  /** `now` is the clock value the decision used, `epoch` the number of invalidations at that moment. */
  datatype Outcome = Served(snapshot: Snapshot, how: How, now: int, epoch: nat) | Failed

  datatype Reader =
    | Sampled(now: int)
    | Missed
    | Building(at: int, parts: seq<nat>)
    | Returned(outcome: Outcome)

  /** A writer returns only after it has invalidated the cache. */
  datatype Writer = Committed(version: nat) | Finished(version: nat)

  datatype State = State(
    db: nat,
    clock: int,
    cache: Option<Snapshot>,
    expiresAt: int,
    lock: Option<nat>,
    invalidations: nat,
    readers: map<nat, Reader>,
    writers: map<nat, Writer>,
    builds: seq<Snapshot>)

  datatype Step =
    | Tick(seconds: nat)
    | Commit(w: nat)
    | Invalidate(w: nat)
    | Begin(r: nat)
    | Peek(r: nat)
    | Acquire(r: nat)
    | ReadTable(r: nat)
    | Store(r: nat)
    | GiveUp(r: nat)

  predicate Init(s: State) {
    s.cache.None? && s.lock.None? && s.readers == map[] && s.writers == map[] && s.builds == [] && s.invalidations == 0
  }

  predicate IsBuilding(s: State, r: nat) {
    r in s.readers && s.readers[r].Building? && s.lock == Some(r)
  }

  /** Readers peek under the shared lock, so not while a builder holds the exclusive one. */
  predicate Enabled(s: State, step: Step) {
    match step
    case Tick(_) => true
    case Commit(w) => w !in s.writers
    case Invalidate(w) => w in s.writers && s.writers[w].Committed? && s.lock.None?
    case Begin(r) => r !in s.readers
    case Peek(r) => r in s.readers && s.readers[r].Sampled? && s.lock.None?
    case Acquire(r) => r in s.readers && s.readers[r].Missed? && s.lock.None?
    case ReadTable(r) => IsBuilding(s, r) && |s.readers[r].parts| < TABLES
    case Store(r) => IsBuilding(s, r) && s.readers[r].parts != []
    case GiveUp(r) => IsBuilding(s, r)
  }

  predicate Usable(s: State, now: int) {
    s.cache.Some? && now < s.expiresAt
  }

  function Apply(s: State, step: Step): State
    requires Enabled(s, step)
  {
    match step
    case Tick(d) => s.(clock := s.clock + d)
    case Commit(w) => s.(db := s.db + 1, writers := s.writers[w := Committed(s.db + 1)])
    case Invalidate(w) =>
      s.(cache := None, expiresAt := 0, invalidations := s.invalidations + 1,
         writers := s.writers[w := Finished(s.writers[w].version)])
    case Begin(r) => s.(readers := s.readers[r := Sampled(s.clock)])
    case Peek(r) =>
      var now := s.readers[r].now;
      var next := if Usable(s, now) then Returned(Served(s.cache.value, Fast, now, s.invalidations)) else Missed;
      s.(readers := s.readers[r := next])
    case Acquire(r) =>
      if Usable(s, s.clock) then
        s.(readers := s.readers[r := Returned(Served(s.cache.value, Recheck, s.clock, s.invalidations))])
      else
        s.(lock := Some(r), readers := s.readers[r := Building(s.clock, [])])
    case ReadTable(r) =>
      s.(readers := s.readers[r := Building(s.readers[r].at, s.readers[r].parts + [s.db])])
    case Store(r) =>
      var b := s.readers[r];
      var made := Snapshot(b.parts, b.at, s.invalidations);
      s.(cache := Some(made), expiresAt := b.at + TTL, lock := None, builds := s.builds + [made],
         readers := s.readers[r := Returned(Served(made, Rebuilt, b.at, s.invalidations))])
    case GiveUp(r) =>
      var at := s.readers[r].at;
      var outcome := if s.cache.Some? then Served(s.cache.value, AfterFailure, at, s.invalidations) else Failed;
      s.(lock := None, readers := s.readers[r := Returned(outcome)])
  }

  ghost predicate IsRun(run: seq<State>, steps: seq<Step>) {
    && |run| == |steps| + 1 && Init(run[0])
    && forall i :: 0 <= i < |steps| ==> Enabled(run[i], steps[i]) && run[i + 1] == Apply(run[i], steps[i])
  }

  // ---------------------------------------------------------------- what every step keeps

  predicate NotBefore(parts: seq<nat>, version: nat) {
    forall i :: 0 <= i < |parts| ==> parts[i] >= version
  }

  /** Everything a later get can hand out was read at `version` or after. */
  ghost predicate ReadsAfter(s: State, version: nat) {
    && s.db >= version
    && (s.cache.Some? ==> NotBefore(s.cache.value.parts, version))
    && (forall r :: r in s.readers && s.readers[r].Building? ==> NotBefore(s.readers[r].parts, version))
  }

  ghost predicate WritesVisible(s: State) {
    && (forall w :: w in s.writers ==> s.writers[w].version <= s.db)
    && (forall w :: w in s.writers && s.writers[w].Finished? ==> ReadsAfter(s, s.writers[w].version))
  }

  /** The exclusive lock is held exactly while its one holder builds. */
  ghost predicate LockOk(s: State) {
    && (s.lock.Some? ==> s.lock.value in s.readers && s.readers[s.lock.value].Building?)
    && (forall r :: r in s.readers && s.readers[r].Building? ==> s.lock == Some(r) && !Usable(s, s.readers[r].at))
  }

  /** The cached snapshot is the last one built, and nothing has invalidated it. */
  ghost predicate CacheOk(s: State) {
    && (s.cache.Some? ==> s.builds != [] && s.cache.value == s.builds[|s.builds| - 1]
                          && s.cache.value.epoch == s.invalidations && s.expiresAt == s.cache.value.builtAt + TTL)
    && (s.cache.None? ==> s.builds == [] || s.builds[|s.builds| - 1].epoch < s.invalidations)
  }

  ghost predicate Apart(builds: seq<Snapshot>) {
    && (forall i, j :: 0 <= i < j < |builds| ==> builds[i].epoch <= builds[j].epoch)
    && (forall i, j :: 0 <= i < j < |builds| && builds[i].epoch == builds[j].epoch ==>
          builds[i].builtAt + TTL <= builds[j].builtAt)
  }

  /** A served snapshot is past its time exactly when the rebuild of that very get failed. */
  predicate Explained(o: Outcome) {
    o.Served? ==>
      && o.snapshot.epoch == o.epoch
      && (o.now >= o.snapshot.builtAt + TTL <==> o.how.AfterFailure?)
      && (o.how.Rebuilt? ==> o.now == o.snapshot.builtAt)
  }

  ghost predicate OutcomesOk(s: State) {
    forall r :: r in s.readers && s.readers[r].Returned? ==> Explained(s.readers[r].outcome)
  }

  ghost predicate Inv(s: State) {
    LockOk(s) && CacheOk(s) && Apart(s.builds) && OutcomesOk(s) && WritesVisible(s)
  }

  lemma LockStep(s: State, step: Step)
    requires LockOk(s) && Enabled(s, step)
    ensures LockOk(Apply(s, step))
  {
  }

  lemma CacheStep(s: State, step: Step)
    requires CacheOk(s) && Enabled(s, step)
    ensures CacheOk(Apply(s, step))
  {
  }

  /** Under the lock nobody else stores or invalidates, so the recheck still holds when the build is stored. */
  lemma ApartStep(s: State, step: Step)
    requires LockOk(s) && CacheOk(s) && Apart(s.builds) && Enabled(s, step)
    ensures Apart(Apply(s, step).builds)
  {
    if step.Store? {
      var b := s.readers[step.r];
      assert !Usable(s, b.at);
      if s.builds != [] {
        var last := s.builds[|s.builds| - 1];
        assert last.epoch <= s.invalidations;
        assert last.epoch == s.invalidations ==> last.builtAt + TTL <= b.at;
      }
    }
  }

  lemma OutcomeStep(s: State, step: Step)
    requires LockOk(s) && CacheOk(s) && OutcomesOk(s) && Enabled(s, step)
    ensures OutcomesOk(Apply(s, step))
  {
  }

  /** Invalidating needs the lock, so no build is under way and nothing older survives. */
  lemma ReadsAfterStep(s: State, step: Step, version: nat)
    requires Enabled(s, step) && LockOk(s) && version <= s.db
    requires ReadsAfter(s, version) || step.Invalidate?
    ensures ReadsAfter(Apply(s, step), version)
  {
  }

  lemma WritesStep(s: State, step: Step)
    requires LockOk(s) && WritesVisible(s) && Enabled(s, step)
    ensures WritesVisible(Apply(s, step))
  {
    hide ReadsAfter, LockOk;
    var next := Apply(s, step);
    forall w | w in next.writers && next.writers[w].Finished?
      ensures ReadsAfter(next, next.writers[w].version)
    {
      assert w in s.writers && next.writers[w].version == s.writers[w].version;
      ReadsAfterStep(s, step, s.writers[w].version);
    }
  }

  lemma InvStep(s: State, step: Step)
    requires Inv(s) && Enabled(s, step)
    ensures Inv(Apply(s, step))
  {
    hide LockOk, CacheOk, Apart, OutcomesOk, WritesVisible, Apply, Enabled;
    LockStep(s, step);
    CacheStep(s, step);
    ApartStep(s, step);
    OutcomeStep(s, step);
    WritesStep(s, step);
  }

  lemma {:induction false} InvAt(run: seq<State>, steps: seq<Step>, i: nat)
    requires IsRun(run, steps) && i < |run|
    ensures Inv(run[i])
  {
    hide Inv, Enabled, Apply;
    if i == 0 {
      InvInit(run[0]);
    } else {
      InvAt(run, steps, i - 1);
      InvStep(run[i - 1], steps[i - 1]);
    }
  }

  lemma InvInit(s: State)
    requires Init(s)
    ensures Inv(s)
  {
  }

  // ---------------------------------------------------------------- over whole runs

  /** What a get that has not begun at the moment of the write may return. */
  predicate SeesWrite(s: State, r: nat, version: nat) {
    r in s.readers && s.readers[r].Returned? && s.readers[r].outcome.Served? ==>
      NotBefore(s.readers[r].outcome.snapshot.parts, version)
  }

  lemma SeesWriteStep(s: State, step: Step, r: nat, version: nat)
    requires Enabled(s, step) && ReadsAfter(s, version) && SeesWrite(s, r, version)
    ensures SeesWrite(Apply(s, step), r, version)
  {
  }

  lemma {:induction false} SeesWriteLater(run: seq<State>, steps: seq<Step>, i: nat, j: nat, r: nat, version: nat)
    requires IsRun(run, steps) && i <= j < |run|
    requires ReadsAfter(run[i], version) && r !in run[i].readers
    ensures ReadsAfter(run[j], version) && SeesWrite(run[j], r, version)
  {
    hide Inv, Enabled, Apply, ReadsAfter;
    if i < j {
      SeesWriteLater(run, steps, i, j - 1, r, version);
      InvAt(run, steps, j - 1);
      SeesWritePush(run[j - 1], steps[j - 1], r, version);
    }
  }

  lemma SeesWritePush(s: State, step: Step, r: nat, version: nat)
    requires Inv(s) && Enabled(s, step) && ReadsAfter(s, version) && SeesWrite(s, r, version)
    ensures ReadsAfter(Apply(s, step), version) && SeesWrite(Apply(s, step), r, version)
  {
    assert s.db >= version;
    SeesWriteStep(s, step, r, version);
    ReadsAfterStep(s, step, version);
  }

  /** A get that begins after a write has returned never hands out a part read before that write. */
  lemma GetSeesFinishedWrites(run: seq<State>, steps: seq<Step>, i: nat, j: nat, w: nat, r: nat)
    requires IsRun(run, steps) && i <= j < |run|
    requires w in run[i].writers && run[i].writers[w].Finished? && r !in run[i].readers
    requires r in run[j].readers && run[j].readers[r].Returned? && run[j].readers[r].outcome.Served?
    ensures forall p :: p in run[j].readers[r].outcome.snapshot.parts ==> p >= run[i].writers[w].version
  {
    hide Enabled, Apply, LockOk, CacheOk, Apart, OutcomesOk;
    InvAt(run, steps, i);
    SeesWriteLater(run, steps, i, j, r, run[i].writers[w].version);
  }

  /**
   * A snapshot past its time is served exactly when the rebuild of that get failed, and no snapshot is served
   * once something has invalidated it.
   */
  lemma ServedIsExplained(run: seq<State>, steps: seq<Step>, j: nat, r: nat)
    requires IsRun(run, steps) && j < |run|
    requires r in run[j].readers && run[j].readers[r].Returned? && run[j].readers[r].outcome.Served?
    ensures var o := run[j].readers[r].outcome;
            (o.now >= o.snapshot.builtAt + TTL <==> o.how.AfterFailure?) && o.snapshot.epoch == o.epoch
  {
    hide Enabled, Apply, LockOk, CacheOk, Apart, WritesVisible;
    InvAt(run, steps, j);
  }

  /** Two stored builds with no invalidation between them start at least the time to live apart. */
  lemma BuildsAreApart(run: seq<State>, steps: seq<Step>, j: nat, a: nat, b: nat)
    requires IsRun(run, steps) && j < |run| && a < b < |run[j].builds|
    requires run[j].builds[a].epoch == run[j].builds[b].epoch
    ensures run[j].builds[b].builtAt - run[j].builds[a].builtAt >= TTL
  {
    hide Enabled, Apply, LockOk, CacheOk, OutcomesOk, WritesVisible;
    InvAt(run, steps, j);
  }

  /** At most one rebuild is under way, and whoever waits for the lock waits for a builder that can finish. */
  lemma OneBuilder(run: seq<State>, steps: seq<Step>, j: nat, a: nat, b: nat)
    requires IsRun(run, steps) && j < |run|
    requires a in run[j].readers && run[j].readers[a].Building?
    ensures b in run[j].readers && run[j].readers[b].Building? ==> a == b
    ensures Enabled(run[j], GiveUp(a)) && Apply(run[j], GiveUp(a)).lock.None?
  {
    hide CacheOk, Apart, OutcomesOk, WritesVisible;
    InvAt(run, steps, j);
  }

  // ---------------------------------------------------------------- what every kind of step comes to

  /** A snapshot was built, and nothing has invalidated the cache since: the last build is the one that stands. */
  ghost predicate Stands(s: State) {
    s.builds != [] && s.builds[|s.builds| - 1].epoch == s.invalidations
  }

  ghost function Standing(s: State): Snapshot
    requires Stands(s)
  {
    s.builds[|s.builds| - 1]
  }

  /** The standing snapshot was built less than 60 seconds before `t`. */
  ghost predicate Fresh(s: State, t: int) {
    Stands(s) && t - Standing(s).builtAt < 60
  }

  ghost predicate Ended(s: State, r: nat) {
    r in s.readers && s.readers[r].Returned?
  }

  lemma CachedIsStanding(s: State)
    requires CacheOk(s)
    ensures s.cache == if Stands(s) then Some(Standing(s)) else None
    ensures forall t :: Usable(s, t) <==> Fresh(s, t)
  {
  }

  /** A get fails exactly when its own rebuild gives up and no snapshot stands; if one does, that one is returned. */
  lemma FailsIff(run: seq<State>, steps: seq<Step>, i: nat, r: nat)
    requires IsRun(run, steps) && i < |steps| && !Ended(run[i], r)
    ensures Ended(run[i + 1], r) && run[i + 1].readers[r].outcome.Failed?
       <==> && steps[i] == GiveUp(r)
            && (run[i].builds == [] || run[i].builds[|run[i].builds| - 1].epoch < run[i].invalidations)
    ensures steps[i] == GiveUp(r) && Stands(run[i]) ==>
              && Ended(run[i + 1], r) && run[i + 1].readers[r].outcome.Served?
              && run[i + 1].readers[r].outcome.snapshot == Standing(run[i])
              && run[i + 1].readers[r].outcome.how == AfterFailure
  {
    hide Inv, LockOk, Apart, OutcomesOk, WritesVisible;
    CacheAt(run, steps, i);
  }

  lemma CacheAt(run: seq<State>, steps: seq<Step>, i: nat)
    requires IsRun(run, steps) && i < |run|
    ensures CacheOk(run[i])
  {
    hide Enabled, Apply, CacheOk;
    InvAt(run, steps, i);
  }

  /** From its begin on, a get that has not moved remembers the clock it began at. */
  lemma {:induction false} SampledAtBegin(run: seq<State>, steps: seq<Step>, b: nat, i: nat, r: nat)
    requires IsRun(run, steps) && b < i < |run| && steps[b] == Begin(r) && r in run[i].readers
    ensures run[i].readers[r].Sampled? ==> run[i].readers[r].now == run[b].clock
  {
    if i > b + 1 {
      KnownReader(run, steps, b, i - 1, r);
      SampledAtBegin(run, steps, b, i - 1, r);
    }
  }

  lemma {:induction false} KnownReader(run: seq<State>, steps: seq<Step>, b: nat, i: nat, r: nat)
    requires IsRun(run, steps) && b < i < |run| && steps[b] == Begin(r)
    ensures r in run[i].readers
  {
    if i > b + 1 {
      KnownReader(run, steps, b, i - 1, r);
    }
  }

  /** The first look serves the standing snapshot exactly when it was fresh at the moment the get began. */
  lemma PeekServesIff(run: seq<State>, steps: seq<Step>, b: nat, i: nat, r: nat)
    requires IsRun(run, steps) && b < i < |steps| && steps[b] == Begin(r) && steps[i] == Peek(r)
    ensures r in run[i + 1].readers
    ensures run[i + 1].readers[r]
         == if Fresh(run[i], run[b].clock)
            then Returned(Served(Standing(run[i]), Fast, run[b].clock, run[i].invalidations))
            else Missed
  {
    CacheAt(run, steps, i);
    CachedIsStanding(run[i]);
    KnownReader(run, steps, b, i, r);
    SampledAtBegin(run, steps, b, i, r);
  }

  /** The second look, under the lock, asks whether it is fresh at that moment; if not, the get rebuilds alone. */
  lemma AcquireServesIff(run: seq<State>, steps: seq<Step>, i: nat, r: nat)
    requires IsRun(run, steps) && i < |steps| && steps[i] == Acquire(r)
    ensures r in run[i + 1].readers
    ensures run[i + 1].readers[r]
         == if Fresh(run[i], run[i].clock)
            then Returned(Served(Standing(run[i]), Recheck, run[i].clock, run[i].invalidations))
            else Building(run[i].clock, [])
    ensures run[i + 1].lock == if Fresh(run[i], run[i].clock) then None else Some(r)
  {
    CacheAt(run, steps, i);
    CachedIsStanding(run[i]);
  }

  /** A finished rebuild is returned, and stands until something invalidates it. */
  lemma StoreStands(run: seq<State>, steps: seq<Step>, i: nat, r: nat)
    requires IsRun(run, steps) && i < |steps| && steps[i] == Store(r)
    ensures r in run[i].readers && run[i].readers[r].Building?
    ensures run[i + 1].builds == run[i].builds + [Standing(run[i + 1])] && Stands(run[i + 1])
    ensures var b := run[i].readers[r];
            && Standing(run[i + 1]) == Snapshot(b.parts, b.at, run[i].invalidations)
            && run[i + 1].readers[r] == Returned(Served(Standing(run[i + 1]), Rebuilt, b.at, run[i].invalidations))
            && run[i + 1].lock.None?
  {
    CacheAt(run, steps, i + 1);
  }

  /** Whatever stood before an invalidation never stands again. */
  lemma {:induction false} InvalidatedForGood(run: seq<State>, steps: seq<Step>, i: nat, j: nat, w: nat)
    requires IsRun(run, steps) && i < j < |run| && steps[i] == Invalidate(w)
    ensures |run[i].builds| <= |run[j].builds| && run[i].builds == run[j].builds[..|run[i].builds|]
    ensures run[i].invalidations < run[j].invalidations
    ensures Stands(run[j]) ==> |run[j].builds| > |run[i].builds|
  {
    if j > i + 1 {
      InvalidatedForGood(run, steps, i, j - 1, w);
    }
    CacheAt(run, steps, i);
  }

  lemma {:induction false} VersionsGrow(run: seq<State>, steps: seq<Step>, i: nat, j: nat)
    requires IsRun(run, steps) && i <= j < |run|
    ensures run[i].db <= run[j].db
  {
    if i < j {
      VersionsGrow(run, steps, i, j - 1);
    }
  }

  /** The part a rebuild reads reflects a write exactly when the write was committed before. */
  lemma PartReflectsIff(run: seq<State>, steps: seq<Step>, i: nat, w: nat, j: nat, r: nat)
    requires IsRun(run, steps) && i < |steps| && j < |steps| && steps[i] == Commit(w) && steps[j] == ReadTable(r)
    ensures w in run[i + 1].writers && run[i + 1].writers[w].Committed?
    ensures r in run[j].readers && run[j].readers[r].Building?
    ensures r in run[j + 1].readers && run[j + 1].readers[r].Building?
    ensures var before, after := run[j].readers[r], run[j + 1].readers[r];
            && after.at == before.at && |after.parts| == |before.parts| + 1
            && after.parts[..|before.parts|] == before.parts
            && (after.parts[|before.parts|] >= run[i + 1].writers[w].version <==> i < j)
  {
    if i < j {
      VersionsGrow(run, steps, i + 1, j);
    } else {
      VersionsGrow(run, steps, j, i);
    }
  }

  /** No get is ever stuck: it can move, or it waits for the one builder, which can. */
  lemma NoGetIsStuck(run: seq<State>, steps: seq<Step>, j: nat, r: nat)
    requires IsRun(run, steps) && j < |run| && r in run[j].readers && !Ended(run[j], r)
    ensures || Enabled(run[j], Peek(r)) || Enabled(run[j], Acquire(r)) || Enabled(run[j], GiveUp(r))
            || (run[j].lock.Some? && Enabled(run[j], GiveUp(run[j].lock.value)))
  {
    InvAt(run, steps, j);
  }
}
