/**
 * service/backup_core.go: EvaluateBackupScheduleIfNeeded starts a retry pass without waiting for the one before. Every
 * pass fetches copies of the due rows, uploads for a while, and writes its copies back.
 */
module RetryOverlap {
  import opened BackupRetry
  import opened Sorting

  /** A fetched row with the time and the base of the pass that fetched it. */
  datatype Copy = Copy(row: Row, now: int, base: int)

  /** One stored row, the copies that passes have under way, and the failed uploads so far. */
  datatype State = State(row: Row, held: map<int, Copy>, failures: nat)

  datatype Step =
    | Fetch(pass: int, now: int, base: int)
    | WriteBack(pass: int, ok: bool)

  predicate Enabled(s: State, step: Step) {
    match step
    case Fetch(p, now, base) => p !in s.held && Due(s.row, now) && BaseOk(base)
    case WriteBack(p, _) => p in s.held
  }

  function Outcome(c: Copy, ok: bool): Row {
    Attempt(c.row, Visit(c.now, c.base, ok))
  }

  /** A write-back stores the whole copy, whatever has become of the stored row. */
  function Apply(s: State, step: Step): State
    requires Enabled(s, step)
  {
    match step
    case Fetch(p, now, base) => s.(held := s.held[p := Copy(s.row, now, base)])
    case WriteBack(p, ok) =>
      State(Outcome(s.held[p], ok), s.held - {p}, if ok then s.failures else s.failures + 1)
  }

  ghost predicate Possible(s: State, steps: seq<Step>)
    decreases |steps|, 0
  {
    steps == [] || (Possible(s, steps[..|steps| - 1]) && Enabled(After(s, steps[..|steps| - 1]), steps[|steps| - 1]))
  }

  ghost function After(s: State, steps: seq<Step>): State
    requires Possible(s, steps)
    decreases |steps|, 1
  {
    if steps == [] then s else Apply(After(s, steps[..|steps| - 1]), steps[|steps| - 1])
  }

  lemma Extend(s: State, steps: seq<Step>, step: Step)
    requires Possible(s, steps) && Enabled(After(s, steps), step)
    ensures Possible(s, steps + [step]) && After(s, steps + [step]) == Apply(After(s, steps), step)
  {
    assert (steps + [step])[..|steps|] == steps;
  }

  lemma {:induction false} Prefix(s: State, steps: seq<Step>, n: nat)
    requires Possible(s, steps) && n <= |steps|
    ensures Possible(s, steps[..n])
    ensures n < |steps| ==> Enabled(After(s, steps[..n]), steps[n])
    ensures n < |steps| ==>
              Possible(s, steps[..n + 1]) && After(s, steps[..n + 1]) == Apply(After(s, steps[..n]), steps[n])
  {
    var last := |steps| - 1;
    if n < |steps| {
      if n < last {
        Prefix(s, steps[..last], n);
        assert steps[..last][..n] == steps[..n] && steps[..last][..n + 1] == steps[..n + 1];
      } else {
        assert steps[..n + 1] == steps && steps[..n + 1][..n] == steps[..n];
      }
    } else {
      assert steps[..n] == steps;
    }
  }

  // ---------------------------------------------------------------- all rows of the queue

  /** The passes' steps on the rows of the queue, each on the row of its id. */
  datatype QueueStep = On(id: int, step: Step)

  type Queue = map<int, State>

  ghost predicate QueuePossible(q: Queue, steps: seq<QueueStep>)
    decreases |steps|, 0
  {
    steps == []
    || (var init, last := steps[..|steps| - 1], steps[|steps| - 1];
        QueuePossible(q, init) && last.id in QueueAfter(q, init) && Enabled(QueueAfter(q, init)[last.id], last.step))
  }

  ghost function QueueAfter(q: Queue, steps: seq<QueueStep>): Queue
    requires QueuePossible(q, steps)
    decreases |steps|, 1
  {
    if steps == [] then q
    else
      var before, last := QueueAfter(q, steps[..|steps| - 1]), steps[|steps| - 1];
      before[last.id := Apply(before[last.id], last.step)]
  }

  function StepsOn(steps: seq<QueueStep>, id: int): seq<Step> {
    if steps == [] then []
    else
      var before, last := StepsOn(steps[..|steps| - 1], id), steps[|steps| - 1];
      if last.id == id then before + [last.step] else before
  }

  /** Rows do not disturb each other: what becomes of one is told by the steps on it. */
  lemma {:induction false} RowsAreIndependent(q: Queue, steps: seq<QueueStep>, id: int)
    requires QueuePossible(q, steps) && id in q
    ensures Possible(q[id], StepsOn(steps, id)) && id in QueueAfter(q, steps)
    ensures QueueAfter(q, steps)[id] == After(q[id], StepsOn(steps, id))
  {
    hide Enabled, Apply;
    if steps != [] {
      var init, last := steps[..|steps| - 1], steps[|steps| - 1];
      RowsAreIndependent(q, init, id);
      if last.id == id {
        Extend(q[id], StepsOn(init, id), last.step);
      }
    }
  }

  // ---------------------------------------------------------------- done and given up

  /** However the run goes on, the status stays. */
  ghost predicate StatusStays(s: State) {
    forall steps :: Possible(s, steps) ==> After(s, steps).row.status == s.row.status
  }

  /** The status at every moment of a run. */
  ghost predicate StatusKept(s: State, steps: seq<Step>)
    requires Possible(s, steps)
  {
    forall n :: 0 <= n <= |steps| && Possible(s, steps[..n]) ==> After(s, steps[..n]).row.status == s.row.status
  }

  predicate IsFinal(row: Row) {
    row.status != Pending
  }

  /** The write-back of this copy would leave the final status as it is. */
  predicate Agrees(status: Status, c: Copy, ok: bool) {
    match status
    case Pending => true
    case Done => ok
    case GivenUp => !ok && c.row.retryCount >= c.row.maxRetries
  }

  lemma AgreesIff(status: Status, c: Copy, ok: bool)
    requires status != Pending && c.row.status == Pending
    ensures Outcome(c, ok).status == status <==> Agrees(status, c, ok)
  {
  }

  /** Copies are fetched while the row is pending. */
  ghost predicate CopiesPending(s: State) {
    forall p :: p in s.held ==> s.held[p].row.status == Pending
  }

  /** So it is in every run from the first enqueueing on. */
  lemma {:induction false} CopiesArePending(s: State, steps: seq<Step>)
    requires Start(s) && Possible(s, steps)
    ensures CopiesPending(After(s, steps)) && After(s, steps).row.maxRetries == s.row.maxRetries
    ensures forall p :: p in After(s, steps).held ==> After(s, steps).held[p].row.maxRetries == s.row.maxRetries
  {
    hide BackoffSeconds;
    if steps != [] {
      CopiesArePending(s, steps[..|steps| - 1]);
    }
  }

  /** While a final status lasts nothing is fetched, so the copies under way only become fewer. */
  lemma {:induction false} FinalOnlyWritesBack(s: State, steps: seq<Step>)
    requires IsFinal(s.row) && CopiesPending(s) && Possible(s, steps)
    requires forall n :: 0 <= n < |steps| && Possible(s, steps[..n]) ==> After(s, steps[..n]).row.status == s.row.status
    ensures After(s, steps).held.Keys <= s.held.Keys
    ensures forall p :: p in After(s, steps).held ==> After(s, steps).held[p] == s.held[p]
    ensures forall i :: 0 <= i < |steps| ==> steps[i].WriteBack? && steps[i].pass in s.held
  {
    if steps != [] {
      var init, last := steps[..|steps| - 1], |steps| - 1;
      forall n | 0 <= n < |init| && Possible(s, init[..n]) ensures After(s, init[..n]).row.status == s.row.status {
        assert init[..n] == steps[..n];
      }
      FinalOnlyWritesBack(s, init);
      assert steps[..last] == init;
      assert After(s, init).row.status == s.row.status;
      assert steps[last].WriteBack?;
    }
  }

  /**
   * Done stays done through a run exactly when no later write-back reports a failed upload, and given up stays
   * given up exactly when every later write-back reports one, for a copy without retries left.
   */
  lemma {:induction false} StatusKeptIff(s: State, steps: seq<Step>)
    requires IsFinal(s.row) && CopiesPending(s) && Possible(s, steps)
    ensures StatusKept(s, steps)
       <==> forall i :: 0 <= i < |steps| ==>
              steps[i].WriteBack? && steps[i].pass in s.held && Agrees(s.row.status, s.held[steps[i].pass], steps[i].ok)
    decreases |steps|
  {
    hide Agrees;
    if steps == [] {
      assert steps[..0] == [];
    } else {
      var init, last := steps[..|steps| - 1], |steps| - 1;
      StatusKeptIff(s, init);
      KeptNext(s, steps);
      if StatusKept(s, init) {
        forall n | 0 <= n < |steps| && Possible(s, steps[..n]) ensures After(s, steps[..n]).row.status == s.row.status {
          assert init[..n] == steps[..n];
        }
        FinalOnlyWritesBack(s, steps);
        FinalOnlyWritesBack(s, init);
        AgreesIff(s.row.status, s.held[steps[last].pass], steps[last].ok);
      }
    }
  }

  lemma KeptNext(s: State, steps: seq<Step>)
    requires Possible(s, steps) && steps != []
    ensures StatusKept(s, steps) <==> StatusKept(s, steps[..|steps| - 1]) && After(s, steps).row.status == s.row.status
  {
    hide After, Possible;
    var init := steps[..|steps| - 1];
    PossiblePrefix(s, steps);
    assert steps[..|steps|] == steps;
    forall n | 0 <= n < |steps| ensures steps[..n] == init[..n] {
    }
    if StatusKept(s, steps) {
      forall n | 0 <= n <= |init| && Possible(s, init[..n]) ensures After(s, init[..n]).row.status == s.row.status {
        assert steps[..n] == init[..n];
      }
    }
    if StatusKept(s, init) && After(s, steps).row.status == s.row.status {
      forall n | 0 <= n <= |steps| && Possible(s, steps[..n]) ensures After(s, steps[..n]).row.status == s.row.status {
        if n < |steps| {
          assert steps[..n] == init[..n];
        }
      }
    }
  }

  lemma PossiblePrefix(s: State, steps: seq<Step>)
    requires Possible(s, steps) && steps != []
    ensures Possible(s, steps[..|steps| - 1])
  {
  }

  /** A final status is safe, whatever comes, exactly when no pass has a copy of the row under way. */
  lemma FinalStaysIff(s: State)
    requires IsFinal(s.row) && CopiesPending(s)
    ensures StatusStays(s) <==> s.held == map[]
  {
    if s.held == map[] {
      forall steps | Possible(s, steps) ensures After(s, steps).row.status == s.row.status {
        NothingUnderWay(s, steps);
      }
    } else {
      var p := AnElement(s.held.Keys);
      var late := [WriteBack(p, s.row.status == GivenUp)];
      Extend(s, [], late[0]);
      assert [] + late == late;
      AgreesIff(s.row.status, s.held[p], late[0].ok);
    }
  }

  /** At any moment of any run from the enqueueing on. */
  lemma FinalStaysInRunsIff(start: State, steps: seq<Step>)
    requires Start(start) && Possible(start, steps) && IsFinal(After(start, steps).row)
    ensures StatusStays(After(start, steps)) <==> After(start, steps).held == map[]
  {
    hide After, Possible, StatusStays, CopiesPending;
    CopiesArePending(start, steps);
    FinalStaysIff(After(start, steps));
  }

  /** The rest of any run, from any moment at which the row is done or given up. */
  lemma StatusKeptInRunsIff(start: State, steps: seq<Step>, rest: seq<Step>)
    requires Start(start) && Possible(start, steps) && IsFinal(After(start, steps).row)
    requires Possible(After(start, steps), rest)
    ensures var s := After(start, steps);
            StatusKept(s, rest)
            <==> forall i :: 0 <= i < |rest| ==>
                   && rest[i].WriteBack? && rest[i].pass in s.held
                   && Agrees(s.row.status, s.held[rest[i].pass], rest[i].ok)
  {
    hide After, Possible, StatusKept, CopiesPending, Agrees;
    CopiesArePending(start, steps);
    StatusKeptIff(After(start, steps), rest);
  }

  lemma {:induction false} NothingUnderWay(s: State, steps: seq<Step>)
    requires IsFinal(s.row) && s.held == map[] && Possible(s, steps)
    ensures After(s, steps) == s
  {
    if steps != [] {
      NothingUnderWay(s, steps[..|steps| - 1]);
    }
  }

  // ---------------------------------------------------------------- failed uploads

  predicate OnlyWriteBacks(steps: seq<Step>) {
    forall i :: 0 <= i < |steps| ==> steps[i].WriteBack?
  }

  /** Whatever becomes of the uploads under way, at most so many have failed. */
  ghost predicate FailuresAtMost(s: State, bound: nat) {
    forall steps :: Possible(s, steps) && OnlyWriteBacks(steps) ==> After(s, steps).failures <= bound
  }

  lemma {:induction false} FailuresPotential(s: State, steps: seq<Step>)
    requires Possible(s, steps) && OnlyWriteBacks(steps)
    ensures After(s, steps).failures + |After(s, steps).held| <= s.failures + |s.held|
  {
    if steps != [] {
      var init, last := steps[..|steps| - 1], |steps| - 1;
      FailuresPotential(s, init);
      assert steps[last].WriteBack?;
      Removed(After(s, init).held, steps[last].pass);
    }
  }

  lemma Removed(held: map<int, Copy>, p: int)
    requires p in held
    ensures |held - {p}| == |held| - 1
  {
    assert (held - {p}).Keys == held.Keys - {p};
  }

  lemma AllFail(s: State) returns (steps: seq<Step>)
    ensures Possible(s, steps) && OnlyWriteBacks(steps) && After(s, steps).failures == s.failures + |s.held|
  {
    steps := [];
    while After(s, steps).held != map[]
      invariant Possible(s, steps) && OnlyWriteBacks(steps)
      invariant After(s, steps).failures + |After(s, steps).held| == s.failures + |s.held|
      decreases |After(s, steps).held|
    {
      var t := After(s, steps);
      var p := AnElement(t.held.Keys);
      Extend(s, steps, WriteBack(p, false));
      Removed(t.held, p);
      steps := steps + [WriteBack(p, false)];
    }
  }

  /** The bound is safe exactly when the failures so far and the uploads under way together meet it. */
  lemma FailuresAtMostIff(s: State, bound: nat)
    ensures FailuresAtMost(s, bound) <==> s.failures + |s.held| <= bound
  {
    if s.failures + |s.held| <= bound {
      forall steps | Possible(s, steps) && OnlyWriteBacks(steps) ensures After(s, steps).failures <= bound {
        FailuresPotential(s, steps);
      }
    } else {
      var steps := AllFail(s);
    }
  }

  /** As enqueued, with no pass near. */
  predicate Start(s: State) {
    Enqueued(s.row) && s.held == map[] && s.failures == 0
  }

  ghost predicate AlwaysAtMost(s: State, steps: seq<Step>, bound: nat)
    requires Possible(s, steps)
  {
    forall n :: 0 <= n <= |steps| && Possible(s, steps[..n]) ==> FailuresAtMost(After(s, steps[..n]), bound)
  }

  /** At every fetch the failures so far and the uploads already under way are below the bound. */
  ghost predicate FetchesBelow(s: State, steps: seq<Step>, bound: nat)
    requires Possible(s, steps)
  {
    forall n :: 0 <= n < |steps| && steps[n].Fetch? && Possible(s, steps[..n]) ==>
      After(s, steps[..n]).failures + |After(s, steps[..n]).held| < bound
  }

  /**
   * Over any run: at most MaxRetries + 1 uploads fail, however those under way end, exactly when every pass
   * fetched the row while its failures and the uploads under way were no more than MaxRetries.
   */
  lemma FailuresBoundedIff(s: State, steps: seq<Step>)
    requires Start(s) && Possible(s, steps)
    ensures AlwaysAtMost(s, steps, Allowed(s.row) + 1) <==> FetchesBelow(s, steps, Allowed(s.row) + 1)
  {
    var bound := Allowed(s.row) + 1;
    hide After, Possible, FailuresAtMost, Start;
    if AlwaysAtMost(s, steps, bound) {
      forall n | 0 <= n < |steps| && steps[n].Fetch? && Possible(s, steps[..n])
        ensures After(s, steps[..n]).failures + |After(s, steps[..n]).held| < bound
      {
        Prefix(s, steps, n);
        FailuresAtMostIff(After(s, steps[..n + 1]), bound);
        Fetched(After(s, steps[..n]), steps[n]);
      }
    }
    if FetchesBelow(s, steps, bound) {
      forall n | 0 <= n <= |steps| && Possible(s, steps[..n]) ensures FailuresAtMost(After(s, steps[..n]), bound) {
        StaysBelow(s, steps, bound, n);
        FailuresAtMostIff(After(s, steps[..n]), bound);
      }
    }
  }

  lemma Fetched(s: State, step: Step)
    requires Enabled(s, step) && step.Fetch?
    ensures |Apply(s, step).held| == |s.held| + 1 && Apply(s, step).failures == s.failures
  {
    assert Apply(s, step).held.Keys == s.held.Keys + {step.pass};
  }

  lemma {:induction false} StaysBelow(s: State, steps: seq<Step>, bound: nat, n: nat)
    requires Start(s) && Possible(s, steps) && FetchesBelow(s, steps, bound) && n <= |steps|
    ensures Possible(s, steps[..n]) && After(s, steps[..n]).failures + |After(s, steps[..n]).held| <= bound
  {
    hide Possible;
    Prefix(s, steps, n);
    if n > 0 {
      Prefix(s, steps, n - 1);
      StaysBelow(s, steps, bound, n - 1);
      var t := After(s, steps[..n - 1]);
      if steps[n - 1].Fetch? {
        Fetched(t, steps[n - 1]);
      } else {
        Removed(t.held, steps[n - 1].pass);
      }
    }
  }

  // ---------------------------------------------------------------- retry times

  /** Every write-back that leaves the row pending stores a later time than the one it overwrites. */
  ghost predicate MovesForward(s: State, steps: seq<Step>)
    requires Possible(s, steps)
  {
    forall n ::
      0 <= n < |steps| && steps[n].WriteBack? && Possible(s, steps[..n]) && Enabled(After(s, steps[..n]), steps[n]) ==>
        StoresLater(After(s, steps[..n]), steps[n])
  }

  predicate StoresLater(s: State, step: Step)
    requires Enabled(s, step)
  {
    var next := Apply(s, step).row;
    next.status == Pending ==> next.nextRetryAt > s.row.nextRetryAt
  }

  predicate RetriesLeft(c: Copy) {
    c.row.retryCount < c.row.maxRetries
  }

  function DueNext(c: Copy): int {
    c.now + BackoffSeconds(c.base, c.row.retryCount + 1)
  }

  /**
   * No two copies with retries left are under way, and the one there may be has its next time past the stored one and
   * past those of the other copies.
   */
  ghost predicate InOrder(s: State) {
    forall p :: p in s.held && RetriesLeft(s.held[p]) ==>
      && DueNext(s.held[p]) > s.row.nextRetryAt
      && forall q :: q in s.held && q != p ==> !RetriesLeft(s.held[q]) && DueNext(s.held[p]) > s.held[q].row.nextRetryAt
  }

  lemma InOrderStep(s: State, step: Step)
    requires InOrder(s) && CopiesPending(s) && Enabled(s, step) && step.WriteBack?
    ensures InOrder(Apply(s, step)) && CopiesPending(Apply(s, step)) && StoresLater(s, step)
  {
    hide BackoffSeconds;
  }

  lemma {:induction false} InOrderMovesForward(s: State, steps: seq<Step>)
    requires InOrder(s) && CopiesPending(s) && Possible(s, steps) && OnlyWriteBacks(steps)
    ensures MovesForward(s, steps) && InOrder(After(s, steps)) && CopiesPending(After(s, steps))
  {
    hide InOrder, CopiesPending, Apply, Enabled, StoresLater;
    if steps != [] {
      var init, last := steps[..|steps| - 1], |steps| - 1;
      InOrderMovesForward(s, init);
      InOrderStep(After(s, init), steps[last]);
      forall n |
        0 <= n < |steps| && steps[n].WriteBack? && Possible(s, steps[..n]) && Enabled(After(s, steps[..n]), steps[n])
        ensures StoresLater(After(s, steps[..n]), steps[n])
      {
        if n < last {
          assert steps[..n] == init[..n] && steps[n] == init[n];
        }
      }
    }
  }

  lemma OneWrite(s: State, step: Step)
    requires Enabled(s, step)
    ensures Possible(s, [step]) && After(s, [step]) == Apply(s, step)
    ensures MovesForward(s, [step]) && step.WriteBack? ==> StoresLater(s, step)
  {
    Extend(s, [], step);
    assert [] + [step] == [step] && [step][..0] == [];
  }

  lemma TwoWrites(s: State, first: Step, second: Step)
    requires Enabled(s, first) && Enabled(Apply(s, first), second) && second.WriteBack?
    ensures Possible(s, [first, second])
    ensures MovesForward(s, [first, second]) ==> StoresLater(Apply(s, first), second)
  {
    OneWrite(s, first);
    Extend(s, [first], second);
    var steps := [first, second];
    assert [first] + [second] == steps && steps[..1] == [first];
  }

  lemma LaterThanStored(s: State, p: int)
    requires CopiesPending(s) && p in s.held && RetriesLeft(s.held[p])
    requires forall steps :: Possible(s, steps) && OnlyWriteBacks(steps) ==> MovesForward(s, steps)
    ensures DueNext(s.held[p]) > s.row.nextRetryAt
  {
    hide MovesForward, Possible, After;
    OneWrite(s, WriteBack(p, false));
    assert OnlyWriteBacks([WriteBack(p, false)]);
  }

  lemma LaterThanOther(s: State, p: int, q: int, ok: bool)
    requires CopiesPending(s) && p in s.held && q in s.held && p != q && RetriesLeft(s.held[p])
    requires forall steps :: Possible(s, steps) && OnlyWriteBacks(steps) ==> MovesForward(s, steps)
    ensures DueNext(s.held[p]) > Outcome(s.held[q], ok).nextRetryAt
  {
    hide MovesForward, Possible, After;
    TwoWrites(s, WriteBack(q, ok), WriteBack(p, false));
    assert OnlyWriteBacks([WriteBack(q, ok), WriteBack(p, false)]);
  }

  /** Retry times increase, however the uploads under way end, exactly when the copies are in order. */
  lemma RetryTimeIncreasesIff(s: State)
    requires CopiesPending(s)
    ensures (forall steps :: Possible(s, steps) && OnlyWriteBacks(steps) ==> MovesForward(s, steps)) <==> InOrder(s)
  {
    hide MovesForward, Possible, After, BackoffSeconds;
    if InOrder(s) {
      forall steps | Possible(s, steps) && OnlyWriteBacks(steps) ensures MovesForward(s, steps) {
        InOrderMovesForward(s, steps);
      }
    }
    if forall steps :: Possible(s, steps) && OnlyWriteBacks(steps) ==> MovesForward(s, steps) {
      forall p | p in s.held && RetriesLeft(s.held[p])
        ensures DueNext(s.held[p]) > s.row.nextRetryAt
      {
        LaterThanStored(s, p);
      }
      forall p, q | p in s.held && q in s.held && q != p && RetriesLeft(s.held[p])
        ensures !RetriesLeft(s.held[q]) && DueNext(s.held[p]) > s.held[q].row.nextRetryAt
      {
        LaterThanOther(s, p, q, true);
        LaterThanOther(s, p, q, false);
        if RetriesLeft(s.held[q]) {
          LaterThanOther(s, q, p, false);
          assert false;
        }
      }
    }
  }

  /** At any moment of any run from the enqueueing on. */
  lemma RetryTimeIncreasesInRunsIff(start: State, steps: seq<Step>)
    requires Start(start) && Possible(start, steps)
    ensures var s := After(start, steps);
            (forall rest :: Possible(s, rest) && OnlyWriteBacks(rest) ==> MovesForward(s, rest)) <==> InOrder(s)
  {
    hide After, Possible, MovesForward, InOrder, CopiesPending;
    CopiesArePending(start, steps);
    RetryTimeIncreasesIff(After(start, steps));
  }

  // ---------------------------------------------------------------- passes that do not overlap

  /** No pass fetches the row while another has a copy of it. */
  ghost predicate Serial(s: State, steps: seq<Step>)
    requires Possible(s, steps)
  {
    forall n :: 0 <= n < |steps| && steps[n].Fetch? && Possible(s, steps[..n]) ==> After(s, steps[..n]).held == map[]
  }

  /** The one copy there may be is of the row as stored, and its pass found the row due. */
  ghost predicate Visiting(s: State, row: Row, visits: seq<Visit>) {
    && Legit(row, visits) && s.row == RowAfter(row, visits) && s.failures == FailedUploads(visits)
    && (forall p, q :: p in s.held && q in s.held ==> p == q)
    && (forall p :: p in s.held ==> s.held[p].row == s.row && Due(s.row, s.held[p].now) && BaseOk(s.held[p].base))
  }

  lemma SerialPrefix(s: State, steps: seq<Step>)
    requires Possible(s, steps) && Serial(s, steps) && steps != []
    ensures Serial(s, steps[..|steps| - 1])
    ensures steps[|steps| - 1].Fetch? ==> After(s, steps[..|steps| - 1]).held == map[]
  {
    hide After, Enabled;
    var init := steps[..|steps| - 1];
    forall n | 0 <= n < |init| && init[n].Fetch? && Possible(s, init[..n]) ensures After(s, init[..n]).held == map[] {
      assert init[..n] == steps[..n];
    }
  }

  lemma VisitingStep(s: State, step: Step, row: Row, visits: seq<Visit>) returns (more: seq<Visit>)
    requires Visiting(s, row, visits) && Enabled(s, step) && (step.Fetch? ==> s.held == map[])
    ensures Visiting(Apply(s, step), row, more)
  {
    hide Attempt, RowAfter, Legit;
    if step.Fetch? {
      more := visits;
    } else {
      var c := s.held[step.pass];
      var v := Visit(c.now, c.base, step.ok);
      more := visits + [v];
      LegitPush(row, visits, v);
      assert more[..|visits|] == visits;
    }
  }

  /** A run of passes that do not overlap is a sequence of visits to the row while it was due. */
  lemma {:induction false} SerialRunsVisit(s: State, steps: seq<Step>) returns (visits: seq<Visit>)
    requires Start(s) && Possible(s, steps) && Serial(s, steps)
    ensures Visiting(After(s, steps), s.row, visits)
  {
    hide Visiting, Apply, Enabled, Serial;
    if steps == [] {
      visits := [];
      FirstVisit(s);
    } else {
      SerialPrefix(s, steps);
      visits := SerialRunsVisit(s, steps[..|steps| - 1]);
      visits := VisitingStep(After(s, steps[..|steps| - 1]), steps[|steps| - 1], s.row, visits);
    }
  }

  lemma FirstVisit(s: State)
    requires Start(s)
    ensures Visiting(s, s.row, [])
  {
  }

  /** So without overlap the row counts its failures, they stay within the bound, and a final status is safe. */
  lemma SerialRunsAreSafe(s: State, steps: seq<Step>)
    requires Start(s) && Possible(s, steps) && Serial(s, steps)
    ensures var t := After(s, steps);
            && t.row.retryCount == t.failures && FailuresAtMost(t, Allowed(s.row) + 1) && InOrder(t)
            && (IsFinal(t.row) ==> StatusStays(t))
  {
    hide After, Possible, Serial, RowAfter, Legit, FailuresAtMost, StatusStays, BackoffSeconds;
    var visits := SerialRunsVisit(s, steps);
    var t := After(s, steps);
    RetryAccount(s.row, visits);
    AtMostOneCopy(t.held);
    FailuresAtMostIff(t, Allowed(s.row) + 1);
    forall p | p in t.held ensures DueNext(t.held[p]) > t.row.nextRetryAt {
      AtLeastASecond(t.held[p].base, t.row.retryCount + 1);
    }
    if IsFinal(t.row) {
      assert t.held.Keys == {};
      assert t.held == map[];
      FinalStaysIff(t);
    }
  }

  lemma AtMostOneCopy(held: map<int, Copy>)
    requires forall p, q :: p in held && q in held ==> p == q
    ensures |held| <= 1
  {
    if held.Keys != {} {
      var p := AnElement(held.Keys);
      var others := held.Keys - {p};
      assert others == {} by {
        if others != {} {
          var q := AnElement(others);
        }
      }
      assert held.Keys == {p} + others;
    }
  }

  // ---------------------------------------------------------------- what overlap does

  /** As enqueued, with retries due from 100 on. */
  function NewRow(maxRetries: int): State {
    State(Row(0, maxRetries, 100, Pending), map[], 0)
  }

  /** Two passes, at 100 and at 160, fetch the row and then write back in the given order. */
  function TwoPasses(first: Step, second: Step): seq<Step> {
    [Fetch(1, 100, 30 * SECOND), Fetch(2, 160, 30 * SECOND), first, second]
  }

  function BothFetched(s: State): State {
    s.(held := map[1 := Copy(s.row, 100, 30 * SECOND), 2 := Copy(s.row, 160, 30 * SECOND)])
  }

  lemma TwoPassesPossible(maxRetries: int, first: Step, second: Step)
    requires first.WriteBack? && second.WriteBack? && {first.pass, second.pass} == {1, 2}
    ensures var s, steps := NewRow(maxRetries), TwoPasses(first, second);
            && Start(s) && Possible(s, steps) && Possible(s, steps[..3])
            && Enabled(BothFetched(s), first) && Enabled(Apply(BothFetched(s), first), second)
            && After(s, steps[..3]) == Apply(BothFetched(s), first)
            && After(s, steps) == Apply(Apply(BothFetched(s), first), second)
  {
    hide Outcome;
    var s, steps := NewRow(maxRetries), TwoPasses(first, second);
    assert first.pass in {1, 2} && second.pass in {1, 2} && first.pass != second.pass by {
      assert 1 in {first.pass, second.pass} && 2 in {first.pass, second.pass};
      assert first.pass in {first.pass, second.pass} && second.pass in {first.pass, second.pass};
    }
    Extend(s, [], steps[0]);
    assert [] + [steps[0]] == [steps[0]];
    Extend(s, [steps[0]], steps[1]);
    assert [steps[0]] + [steps[1]] == steps[..2];
    assert After(s, steps[..2]) == BothFetched(s);
    Extend(s, steps[..2], first);
    assert steps[..2] + [first] == steps[..3];
    Extend(s, steps[..3], second);
    assert steps[..3] + [second] == steps;
  }

  /** The status after the first write-back and after the second. */
  ghost predicate Goes(maxRetries: int, first: Step, was: Status, second: Step, becomes: Status) {
    var s, steps := NewRow(maxRetries), TwoPasses(first, second);
    && Start(s) && Possible(s, steps) && Possible(s, steps[..3])
    && After(s, steps[..3]).row.status == was && After(s, steps).row.status == becomes
  }

  /** In whole runs: done goes back to pending, and, without retries, done to given up and given up to done. */
  lemma OverlapLosesFinalStatus()
    ensures Goes(8, WriteBack(1, true), Done, WriteBack(2, false), Pending)
    ensures Goes(0, WriteBack(1, true), Done, WriteBack(2, false), GivenUp)
    ensures Goes(0, WriteBack(1, false), GivenUp, WriteBack(2, true), Done)
  {
    hide After, Possible;
    TwoPassesPossible(8, WriteBack(1, true), WriteBack(2, false));
    TwoPassesPossible(0, WriteBack(1, true), WriteBack(2, false));
    TwoPassesPossible(0, WriteBack(1, false), WriteBack(2, true));
  }

  /** In whole runs: two failed uploads count as one; without retries, two uploads fail where one may. */
  lemma OverlapLosesFailures()
    ensures var s, steps := NewRow(8), TwoPasses(WriteBack(1, false), WriteBack(2, false));
            Start(s) && Possible(s, steps) && After(s, steps).failures == 2 && After(s, steps).row.retryCount == 1
    ensures var s, steps := NewRow(0), TwoPasses(WriteBack(1, false), WriteBack(2, false));
            Start(s) && Possible(s, steps) && After(s, steps).failures > Allowed(s.row) + 1
  {
    hide After, Possible;
    TwoPassesPossible(8, WriteBack(1, false), WriteBack(2, false));
    TwoPassesPossible(0, WriteBack(1, false), WriteBack(2, false));
  }

  /** In a whole run: the pass that fetched first and writes last sets the retry time back. */
  lemma OverlapTurnsTimeBack()
    ensures var s, steps := NewRow(8), TwoPasses(WriteBack(2, false), WriteBack(1, false));
            && Start(s) && Possible(s, steps) && Possible(s, steps[..3])
            && After(s, steps[..3]).row.nextRetryAt == 220
            && After(s, steps).row.status == Pending && After(s, steps).row.nextRetryAt == 160
  {
    assert Pow2(1) == 2 * Pow2(0);
    assert Doubled(30 * SECOND, 1) == 60 * SECOND;
    hide After, Possible;
    TwoPassesPossible(8, WriteBack(2, false), WriteBack(1, false));
  }
}
