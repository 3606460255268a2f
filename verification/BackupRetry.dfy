/** service/backup_core.go and model/backup_retry.go: the backoff and the queue of backup uploads to retry. */
module BackupRetry {
  import opened Sorting

  /** Durations are in nanoseconds, times in seconds. */
  const SECOND: int := 1_000_000_000
  const DAY: int := 24 * 3600 * SECOND

  // ---------------------------------------------------------------- the backoff

  function Pow2(k: nat): nat {
    if k == 0 then 1 else 2 * Pow2(k - 1)
  }

  function Min(a: int, b: int): int {
    if a <= b then a else b
  }

  function Doubled(base: int, k: nat): int {
    base * Pow2(k)
  }

  lemma DoubledNext(base: int, k: nat)
    ensures Doubled(base, k + 1) == 2 * Doubled(base, k) && Doubled(base, 0) == base
  {
  }

  lemma {:induction false} DoubledGrows(base: int, k: nat, l: nat)
    requires base > 0 && k <= l
    ensures base <= Doubled(base, k) <= Doubled(base, l)
  {
    hide Doubled;
    if k < l {
      DoubledGrows(base, k, l - 1);
      DoubledNext(base, l - 1);
    } else if k > 0 {
      DoubledGrows(base, k - 1, k - 1);
      DoubledNext(base, k - 1);
    } else {
      DoubledNext(base, 0);
    }
  }

  function BaseOrDefault(base: int): int {
    if base <= 0 then 30 * SECOND else base
  }

  /** No cap without a retry. */
  function Backoff(base: int, retryCount: int): int {
    if retryCount <= 0 then BaseOrDefault(base) else Min(Doubled(BaseOrDefault(base), retryCount), DAY)
  }

  /** `peak` is the largest product on the way. */
  method RetryBackoff(base: int, retryCount: int) returns (result: int, ghost peak: int)
    ensures result == Backoff(base, retryCount)
    ensures peak >= result && (BaseOrDefault(base) <= DAY ==> peak <= 2 * DAY)
  {
    hide Doubled;
    var start := base;
    if start <= 0 {
      start := 30 * SECOND;
    }
    if retryCount <= 0 {
      return start, start;
    }
    result, peak := start, start;
    DoubledNext(start, 0);
    for i := 0 to retryCount
      invariant result == Doubled(start, i) > 0 && peak >= result
      invariant i > 0 ==> result <= DAY
      invariant start <= DAY ==> peak <= 2 * DAY
    {
      DoubledNext(start, i);
      DoubledGrows(start, i + 1, retryCount);
      result := result * 2;
      peak := if result > peak then result else peak;
      if result > DAY {
        return DAY, peak;
      }
    }
  }

  /** The backoff is the doubled base capped at a day, except for an uncapped base before the first retry. */
  lemma CappedDoublingIff(base: int, retryCount: int)
    requires base > 0
    ensures Backoff(base, retryCount) == Min(Doubled(base, if retryCount > 0 then retryCount else 0), DAY)
       <==> retryCount >= 1 || base <= DAY
  {
    DoubledNext(base, 0);
  }

  /** It never shrinks from one retry to the next. */
  lemma BackoffGrows(base: int, k: int, l: int)
    requires 0 < base <= DAY && k <= l
    ensures base <= Backoff(base, k) <= Backoff(base, l) <= DAY
  {
    hide Doubled;
    DoubledGrows(base, if k > 0 then k else 0, if l > 0 then l else 0);
    DoubledNext(base, 0);
  }

  // ---------------------------------------------------------------- one row

  datatype Status = Pending | Done | GivenUp

  datatype Row = Row(retryCount: int, maxRetries: int, nextRetryAt: int, status: Status)

  /** One pass that got as far as uploading for the row. */
  datatype Visit = Visit(now: int, base: int, ok: bool)

  function BackoffSeconds(base: int, retryCount: int): int {
    Backoff(base, retryCount) / SECOND
  }

  function Attempt(row: Row, v: Visit): Row {
    if v.ok then row.(status := Done)
    else if row.retryCount + 1 > row.maxRetries then row.(retryCount := row.retryCount + 1, status := GivenUp)
    else row.(retryCount := row.retryCount + 1, nextRetryAt := v.now + BackoffSeconds(v.base, row.retryCount + 1))
  }

  predicate Due(row: Row, now: int) {
    row.status == Pending && row.nextRetryAt <= now
  }

  function RowAfter(row: Row, visits: seq<Visit>): Row {
    if visits == [] then row else Attempt(RowAfter(row, visits[..|visits| - 1]), visits[|visits| - 1])
  }

  /** The settings give whole seconds from 1 to 86400. */
  predicate BaseOk(base: int) {
    SECOND <= base <= DAY
  }

  /** As enqueued. */
  predicate Enqueued(row: Row) {
    row.retryCount == 0 && row.status == Pending
  }

  /** A row is visited only when it is due. */
  ghost predicate Legit(row: Row, visits: seq<Visit>) {
    forall i :: 0 <= i < |visits| ==> BaseOk(visits[i].base) && Due(RowAfter(row, visits[..i]), visits[i].now)
  }

  lemma LegitPrefix(row: Row, visits: seq<Visit>, n: nat)
    requires Legit(row, visits) && n <= |visits|
    ensures Legit(row, visits[..n])
  {
    hide RowAfter, Due;
    forall i | 0 <= i < n
      ensures BaseOk(visits[..n][i].base) && Due(RowAfter(row, visits[..n][..i]), visits[..n][i].now)
    {
      assert visits[..n][..i] == visits[..i];
    }
  }

  function FailedUploads(visits: seq<Visit>): nat {
    if visits == [] then 0 else FailedUploads(visits[..|visits| - 1]) + (if visits[|visits| - 1].ok then 0 else 1)
  }

  /** Retries allowed after the first one. */
  function Allowed(row: Row): nat {
    if row.maxRetries > 0 then row.maxRetries else 0
  }

  /** What a row has been through, told by its status. */
  ghost predicate Account(row: Row, visits: seq<Visit>) {
    var r := RowAfter(row, visits);
    && r.maxRetries == row.maxRetries && r.retryCount == FailedUploads(visits)
    && match r.status
       case Pending => FailedUploads(visits) == |visits| <= Allowed(row)
       case Done => visits != [] && visits[|visits| - 1].ok && FailedUploads(visits) == |visits| - 1 <= Allowed(row)
       case GivenUp => FailedUploads(visits) == |visits| == Allowed(row) + 1
  }

  /** Over any run of passes that do not overlap. */
  lemma {:induction false} RetryAccount(row: Row, visits: seq<Visit>)
    requires Enqueued(row) && Legit(row, visits)
    ensures Account(row, visits)
  {
    hide BackoffSeconds;
    if visits != [] {
      LegitPrefix(row, visits, |visits| - 1);
      RetryAccount(row, visits[..|visits| - 1]);
    }
  }

  /**
   * At most the maximum number of retries and one more upload fail, and all of them exactly when the row is given up.
   */
  lemma FailuresBounded(row: Row, visits: seq<Visit>)
    requires Enqueued(row) && Legit(row, visits)
    ensures FailedUploads(visits) <= Allowed(row) + 1
    ensures RowAfter(row, visits).status == GivenUp <==> FailedUploads(visits) == Allowed(row) + 1
    ensures RowAfter(row, visits).status == Done <==> exists v :: v in visits && v.ok
  {
    hide BackoffSeconds;
    RetryAccount(row, visits);
    SomeOkIff(visits);
  }

  lemma {:induction false} SomeOkIff(visits: seq<Visit>)
    ensures FailedUploads(visits) <= |visits|
    ensures FailedUploads(visits) < |visits| <==> exists v :: v in visits && v.ok
  {
    if visits != [] {
      var init, last := visits[..|visits| - 1], visits[|visits| - 1];
      SomeOkIff(init);
      assert visits == init + [last];
      assert last in visits;
      if v :| v in visits && v.ok {
        assert v in init || v == last;
      }
    }
  }

  /** A row that is done or given up is never visited again. */
  lemma FinalIsAbsorbing(row: Row, visits: seq<Visit>, n: nat)
    requires Legit(row, visits) && n <= |visits|
    ensures RowAfter(row, visits[..n]).status != Pending ==>
              n == |visits| && RowAfter(row, visits[..n]) == RowAfter(row, visits)
  {
    hide RowAfter;
    if n < |visits| {
      LegitAt(row, visits, n);
    } else {
      assert visits[..n] == visits;
    }
  }

  lemma AtLeastASecond(base: int, retryCount: int)
    requires BaseOk(base)
    ensures 1 <= BackoffSeconds(base, retryCount) <= 86400
  {
    hide Backoff;
    BackoffGrows(base, retryCount, retryCount);
  }

  lemma Visited(row: Row, visits: seq<Visit>, n: nat)
    requires n < |visits|
    ensures RowAfter(row, visits[..n + 1]) == Attempt(RowAfter(row, visits[..n]), visits[n])
  {
    assert visits[..n + 1][..n] == visits[..n];
  }

  /** While the row is pending its retry time only moves forward, and every visit waits for it. */
  lemma {:induction false} RetryTimeIncreases(row: Row, visits: seq<Visit>, i: nat, j: nat)
    requires Enqueued(row) && Legit(row, visits) && i < j <= |visits| && RowAfter(row, visits[..j]).status == Pending
    ensures RowAfter(row, visits[..i]).nextRetryAt <= visits[i].now < RowAfter(row, visits[..j]).nextRetryAt
  {
    hide BackoffSeconds, RowAfter;
    LegitPrefix(row, visits, j - 1);
    var before := RowAfter(row, visits[..j - 1]);
    assert Due(before, visits[j - 1].now);
    assert Due(RowAfter(row, visits[..i]), visits[i].now);
    Visited(row, visits, j - 1);
    AtLeastASecond(visits[j - 1].base, before.retryCount + 1);
    if i < j - 1 {
      RetryTimeIncreases(row, visits, i, j - 1);
    }
  }

  /** After its n-th failure a row rests for the n-th backoff. */
  lemma VisitsAreSpaced(row: Row, visits: seq<Visit>, n: nat)
    requires Enqueued(row) && Legit(row, visits) && n + 1 < |visits|
    ensures visits[n + 1].now >= visits[n].now + BackoffSeconds(visits[n].base, n + 1)
  {
    hide BackoffSeconds, RowAfter, Legit;
    LegitAt(row, visits, n);
    LegitAt(row, visits, n + 1);
    LegitPrefix(row, visits, n);
    RetryAccount(row, visits[..n]);
    Visited(row, visits, n);
  }

  lemma LegitAt(row: Row, visits: seq<Visit>, i: nat)
    requires Legit(row, visits) && i < |visits|
    ensures Due(RowAfter(row, visits[..i]), visits[i].now)
  {
  }

  // ---------------------------------------------------------------- the queue

  predicate IdLess(a: int, b: int) {
    a < b
  }

  /** A limit that is not positive reads as 20. */
  function LimitOrDefault(limit: int): nat {
    if limit <= 0 then 20 else limit
  }

  /** GetDueBackupUploadRetries: the first due rows by id, up to the limit. */
  ghost predicate IsDueList(rows: map<int, Row>, now: int, limit: nat, due: seq<int>) {
    && StrictlySorted(IdLess, due) && |due| <= limit
    && (forall id :: id in due ==> id in rows && Due(rows[id], now))
    && (forall id :: id in rows && Due(rows[id], now) && id !in due ==>
          |due| == limit && forall d :: d in due ==> d < id)
  }

  /** The columns of a row that no pass changes: its backup run, and the file to upload. */
  datatype Origin = Origin(runId: int, artifact: string)

  datatype Run = Run(status: string, errorMessage: string)

  const SUCCEEDED := Run("success", "")

  /** The rows among these that were uploaded. */
  function Uploaded(ids: seq<int>, upload: int -> bool): set<int> {
    set id | id in ids && upload(id)
  }

  function RunIds(origins: map<int, Origin>, ids: set<int>): set<int> {
    set id | id in ids && id in origins :: origins[id].runId
  }

  function Artifacts(origins: map<int, Origin>, ids: set<int>): set<string> {
    set id | id in ids && id in origins :: origins[id].artifact
  }

  /** The runs whose backup has now been uploaded count as successes; a run that is gone stays gone. */
  function RunsAfter(runs: map<int, Run>, uploaded: set<int>): map<int, Run> {
    map r | r in runs :: if r in uploaded then SUCCEEDED else runs[r]
  }

  lemma UploadedNext(ids: seq<int>, id: int, upload: int -> bool, origins: map<int, Origin>, runs: map<int, Run>,
                     files: set<string>)
    requires id in origins
    ensures var before, more := Uploaded(ids, upload), Uploaded(ids + [id], upload);
            && files - Artifacts(origins, more)
               == files - Artifacts(origins, before) - (if upload(id) then {origins[id].artifact} else {})
            && RunsAfter(runs, RunIds(origins, more))
               == (if upload(id) then RunsAfter(RunsAfter(runs, RunIds(origins, before)), {origins[id].runId})
                   else RunsAfter(runs, RunIds(origins, before)))
  {
    var before, more := Uploaded(ids, upload), Uploaded(ids + [id], upload);
    assert more == before + (if upload(id) then {id} else {});
    assert Artifacts(origins, more) == Artifacts(origins, before) + (if upload(id) then {origins[id].artifact} else {});
    assert RunIds(origins, more) == RunIds(origins, before) + (if upload(id) then {origins[id].runId} else {});
  }

  /** The rows after a pass over these ids, and how their visits grow. */
  function RowsAfter(rows: map<int, Row>, ids: seq<int>, now: int, base: int, upload: int -> bool): map<int, Row> {
    map id | id in rows :: if id in ids then Attempt(rows[id], Visit(now, base, upload(id))) else rows[id]
  }

  function VisitsAfter(visits: map<int, seq<Visit>>, ids: seq<int>, now: int, base: int,
                       upload: int -> bool): map<int, seq<Visit>> {
    map id | id in visits :: if id in ids then visits[id] + [Visit(now, base, upload(id))] else visits[id]
  }

  lemma PassNext(rows: map<int, Row>, visits: map<int, seq<Visit>>, ids: seq<int>, id: int, now: int, base: int,
                 upload: int -> bool)
    requires id in rows && id in visits && id !in ids
    ensures id in RowsAfter(rows, ids, now, base, upload) && RowsAfter(rows, ids, now, base, upload)[id] == rows[id]
    ensures id in VisitsAfter(visits, ids, now, base, upload)
    ensures RowsAfter(rows, ids + [id], now, base, upload)
         == RowsAfter(rows, ids, now, base, upload)[id := Attempt(rows[id], Visit(now, base, upload(id)))]
    ensures var before := VisitsAfter(visits, ids, now, base, upload);
            var v := Visit(now, base, upload(id));
            VisitsAfter(visits, ids + [id], now, base, upload) == before[id := before[id] + [v]]
  {
    hide Attempt;
  }

  /** What a pass changes. */
  datatype Books = Books(rows: map<int, Row>, visits: map<int, seq<Visit>>, runs: map<int, Run>, artifacts: set<string>)

  /** One fetched row uploaded and written back. */
  function Entered(b: Books, origins: map<int, Origin>, id: int, v: Visit): Books
    requires id in b.rows && id in b.visits && id in origins
  {
    Books(b.rows[id := Attempt(b.rows[id], v)],
          b.visits[id := b.visits[id] + [v]],
          if v.ok then RunsAfter(b.runs, {origins[id].runId}) else b.runs,
          b.artifacts - if v.ok then {origins[id].artifact} else {})
  }

  /** A pass over these rows. */
  function PassOver(b: Books, origins: map<int, Origin>, ids: seq<int>, now: int, base: int,
                    upload: int -> bool): Books {
    Books(RowsAfter(b.rows, ids, now, base, upload),
          VisitsAfter(b.visits, ids, now, base, upload),
          RunsAfter(b.runs, RunIds(origins, Uploaded(ids, upload))),
          b.artifacts - Artifacts(origins, Uploaded(ids, upload)))
  }

  lemma PassOverNext(b: Books, origins: map<int, Origin>, ids: seq<int>, id: int, now: int, base: int,
                     upload: int -> bool)
    requires id in b.rows && id in b.visits && id in origins && id !in ids
    ensures var before := PassOver(b, origins, ids, now, base, upload);
            && id in before.rows && before.rows[id] == b.rows[id] && id in before.visits
            && PassOver(b, origins, ids + [id], now, base, upload)
               == Entered(before, origins, id, Visit(now, base, upload(id)))
  {
    hide Attempt, RunsAfter, RunIds, Artifacts, Uploaded, RowsAfter, VisitsAfter;
    PassNext(b.rows, b.visits, ids, id, now, base, upload);
    UploadedNext(ids, id, upload, origins, b.runs, b.artifacts);
  }

  lemma PassOverNone(b: Books, origins: map<int, Origin>, now: int, base: int, upload: int -> bool)
    ensures PassOver(b, origins, [], now, base, upload) == b
  {
    NoneUploaded(upload, origins, b.runs);
    PassStart(b.rows, b.visits, now, base, upload);
  }

  lemma PassStart(rows: map<int, Row>, visits: map<int, seq<Visit>>, now: int, base: int, upload: int -> bool)
    ensures RowsAfter(rows, [], now, base, upload) == rows && VisitsAfter(visits, [], now, base, upload) == visits
  {
  }

  /** A pass changes pending rows only. */
  lemma FinalRowsStay(rows: map<int, Row>, due: seq<int>, limit: nat, now: int, base: int, upload: int -> bool)
    requires IsDueList(rows, now, limit, due)
    ensures forall id :: id in rows && rows[id].status != Pending ==>
              RowsAfter(rows, due, now, base, upload)[id] == rows[id]
  {
    hide Attempt;
  }

  lemma OneRun(runs: map<int, Run>, runId: int)
    ensures RunsAfter(runs, {runId}) == if runId in runs then runs[runId := SUCCEEDED] else runs
  {
  }

  lemma NoneUploaded(upload: int -> bool, origins: map<int, Origin>, runs: map<int, Run>)
    ensures Artifacts(origins, Uploaded([], upload)) == {}
    ensures RunsAfter(runs, RunIds(origins, Uploaded([], upload))) == runs
  {
    assert Uploaded([], upload) == {};
  }

  /** Every row is what its visits have made of it. */
  ghost predicate FromVisits(rows: map<int, Row>, enqueued: map<int, Row>, visits: map<int, seq<Visit>>) {
    && rows.Keys == enqueued.Keys == visits.Keys
    && forall id :: id in rows ==>
                      && Enqueued(enqueued[id]) && Legit(enqueued[id], visits[id])
                      && rows[id] == RowAfter(enqueued[id], visits[id])
  }

  lemma OneVisit(rows: map<int, Row>, enqueued: map<int, Row>, visits: map<int, seq<Visit>>, id: int, v: Visit)
    requires FromVisits(rows, enqueued, visits) && id in rows && Due(rows[id], v.now) && BaseOk(v.base)
    ensures id in visits && FromVisits(rows[id := Attempt(rows[id], v)], enqueued, visits[id := visits[id] + [v]])
  {
    hide Attempt, RowAfter, Legit, Enqueued;
    LegitPush(enqueued[id], visits[id], v);
  }

  class RetryQueue {
    var rows: map<int, Row>
    var origins: map<int, Origin>
    var runs: map<int, Run>
    var artifacts: set<string>
    ghost var enqueued: map<int, Row>
    ghost var visits: map<int, seq<Visit>>

    ghost predicate Valid()
      reads this
    {
      rows.Keys == origins.Keys && FromVisits(rows, enqueued, visits)
    }

    ghost function Now(): Books
      reads this
    {
      Books(rows, visits, runs, artifacts)
    }

    constructor ()
      ensures Valid() && rows == map[] && runs == map[] && artifacts == {}
    {
      rows, origins, runs, artifacts := map[], map[], map[], {};
      enqueued, visits := map[], map[];
    }

    method Enqueue(id: int, origin: Origin, maxRetries: int, now: int, base: int)
      requires Valid() && id !in rows
      modifies this`rows, this`origins, this`enqueued, this`visits
      ensures Valid()
      ensures origins == old(origins)[id := origin]
      ensures rows == old(rows)[id := Row(0, maxRetries, now + base / SECOND, Pending)]
      ensures visits == old(visits)[id := []]
    {
      var row := Row(0, maxRetries, now + base / SECOND, Pending);
      rows, origins, enqueued, visits := rows[id := row], origins[id := origin], enqueued[id := row], visits[id := []];
    }

    method GetDue(now: int, maxRows: int) returns (due: seq<int>)
      ensures IsDueList(rows, now, LimitOrDefault(maxRows), due)
    {
      var limit := maxRows;
      if limit <= 0 {
        limit := 20;
      }
      var keys := AnyOrder(rows.Keys);
      var matching: seq<int> := [];
      for i := 0 to |keys|
        invariant NoDuplicates(matching)
        invariant forall id :: id in matching <==> id in keys[..i] && Due(rows[id], now)
      {
        if rows[keys[i]].status == Pending && rows[keys[i]].nextRetryAt <= now {
          matching := matching + [keys[i]];
        }
      }
      assert keys[..|keys|] == keys;
      var sorted := SortSlice(IdLess, matching);
      SameElements(matching, sorted);
      SortedDistinct(IdLess, sorted);
      due := if |sorted| <= limit then sorted else sorted[..limit];
      PrefixIsSmallest(sorted, if |sorted| <= limit then |sorted| else limit);
    }

    /** Uploads for one fetched row and writes the outcome back. */
    method Revisit(id: int, fetched: Row, v: Visit)
      requires Valid() && id in rows && id in visits && fetched == rows[id] && Due(fetched, v.now) && BaseOk(v.base)
      modifies this`rows, this`runs, this`artifacts, this`visits
      ensures Valid()
      ensures Now() == Entered(old(Now()), origins, id, v)
    {
      hide Attempt, FromVisits, RunsAfter;
      var row := ProcessRow(fetched, v);
      OneVisit(rows, enqueued, visits, id, v);
      OneRun(runs, origins[id].runId);
      rows, visits := rows[id := row], visits[id := visits[id] + [v]];
      if v.ok {
        var runId := origins[id].runId;
        if runId in runs {
          runs := runs[runId := SUCCEEDED];
        }
        artifacts := artifacts - {origins[id].artifact};
      }
    }

    /** One pass; it stops early when retrying is off or the server cannot be set up. */
    method ProcessBackupRetryQueue(now: int, base: int, ready: bool, upload: int -> bool) returns (ghost due: seq<int>)
      requires Valid() && BaseOk(base)
      modifies this`rows, this`runs, this`artifacts, this`visits
      ensures Valid()
      ensures if ready then IsDueList(old(rows), now, 10, due) else due == []
      ensures rows == RowsAfter(old(rows), due, now, base, upload)
      ensures visits == VisitsAfter(old(visits), due, now, base, upload)
      ensures forall id :: id in old(rows) && old(rows)[id].status != Pending ==>
                id in rows && rows[id] == old(rows)[id]
      ensures runs == RunsAfter(old(runs), RunIds(origins, Uploaded(due, upload)))
      ensures artifacts == old(artifacts) - Artifacts(origins, Uploaded(due, upload))
    {
      hide Attempt, RunsAfter, RunIds, Artifacts, Uploaded, FromVisits, RowsAfter, VisitsAfter, StrictlySorted;
      due := [];
      PassOverNone(Now(), origins, now, base, upload);
      if !ready {
        return;
      }
      var list := GetDue(now, 10);
      due := list;
      FinalRowsStay(rows, due, 10, now, base, upload);
      AllDifferent(list);
      VisitAll(list, now, base, upload);
    }

    /** The loop over the rows fetched. */
    method VisitAll(list: seq<int>, now: int, base: int, upload: int -> bool)
      requires Valid() && BaseOk(base) && NoDuplicates(list) && Fetchable(list, rows, now)
      modifies this`rows, this`runs, this`artifacts, this`visits
      ensures Valid()
      ensures Now() == PassOver(old(Now()), origins, list, now, base, upload)
    {
      SameIds(rows, enqueued, visits);
      ghost var start := Now();
      var fetched := rows;
      PassStarts(start, origins, list, now, base, upload);
      PassEnds(start, origins, list, now, base, upload);
      assert AllFetched(list, start, origins, now);
      hide *;
      for i := 0 to |list|
        invariant Valid()
        invariant VisitedUpTo(Now(), start, origins, list, i, now, base, upload)
      {
        VisitNext(start, list, i, fetched, now, base, upload);
      }
    }

    /** One round of the loop. */
    method VisitNext(ghost start: Books, list: seq<int>, i: nat, fetched: map<int, Row>,
                     now: int, base: int, upload: int -> bool)
      requires Valid() && BaseOk(base) && i < |list| && fetched == start.rows
      requires AllFetched(list, start, origins, now)
      requires VisitedUpTo(Now(), start, origins, list, i, now, base, upload)
      modifies this`rows, this`runs, this`artifacts, this`visits
      ensures Valid()
      ensures VisitedUpTo(Now(), start, origins, list, i + 1, now, base, upload)
    {
      hide PassOver, Entered, FromVisits, Due, BaseOk, RetryQueue.Valid, AllFetched;
      var id := list[i];
      NextFetched(list, start, origins, now, i);
      PassOverNext(start, origins, list[..i], id, now, base, upload);
      Revisit(id, fetched[id], Visit(now, base, upload(id)));
      assert list[..i + 1] == list[..i] + [id];
    }
  }

  /** Rows that are there and due. */
  ghost predicate Fetchable(list: seq<int>, rows: map<int, Row>, now: int) {
    forall id :: id in list ==> id in rows && Due(rows[id], now)
  }

  /** As the pass found them: different rows, there and due. */
  ghost predicate AllFetched(list: seq<int>, start: Books, origins: map<int, Origin>, now: int) {
    NoDuplicates(list) && Fetchable(list, start.rows, now) && start.rows.Keys == start.visits.Keys == origins.Keys
  }

  /** The books after the first `i` rows of the pass. */
  ghost predicate VisitedUpTo(books: Books, start: Books, origins: map<int, Origin>, list: seq<int>, i: nat,
                              now: int, base: int, upload: int -> bool) {
    i <= |list| && books == PassOver(start, origins, list[..i], now, base, upload)
  }

  lemma PassStarts(start: Books, origins: map<int, Origin>, list: seq<int>, now: int, base: int, upload: int -> bool)
    ensures VisitedUpTo(start, start, origins, list, 0, now, base, upload)
  {
    PassOverNone(start, origins, now, base, upload);
  }

  lemma PassEnds(start: Books, origins: map<int, Origin>, list: seq<int>, now: int, base: int, upload: int -> bool)
    ensures forall books :: VisitedUpTo(books, start, origins, list, |list|, now, base, upload)
                            ==> books == PassOver(start, origins, list, now, base, upload)
  {
    hide PassOver;
    assert list[..|list|] == list;
  }

  lemma NextFetched(list: seq<int>, start: Books, origins: map<int, Origin>, now: int, i: nat)
    requires AllFetched(list, start, origins, now) && i < |list|
    ensures var id := list[i];
            && id in start.rows && id in start.visits && id in origins && Due(start.rows[id], now)
            && id !in list[..i]
  {
    hide Due;
    assert list[i] in list;
  }

  lemma AllDifferent(list: seq<int>)
    requires StrictlySorted(IdLess, list)
    ensures NoDuplicates(list)
  {
  }

  lemma SameIds(rows: map<int, Row>, enqueued: map<int, Row>, visits: map<int, seq<Visit>>)
    requires FromVisits(rows, enqueued, visits)
    ensures rows.Keys == visits.Keys
  {
  }

  /** The outcome of one upload, written back to the row that was fetched. */
  method ProcessRow(fetched: Row, v: Visit) returns (row: Row)
    ensures row == Attempt(fetched, v)
  {
    row := fetched;
    if v.ok {
      return row.(status := Done);
    }
    row := row.(retryCount := row.retryCount + 1);
    if row.retryCount > row.maxRetries {
      return row.(status := GivenUp);
    }
    var backoff, peak := RetryBackoff(v.base, row.retryCount);
    row := row.(nextRetryAt := v.now + backoff / SECOND);
  }

  lemma LegitPush(row: Row, visits: seq<Visit>, v: Visit)
    requires Legit(row, visits) && BaseOk(v.base) && Due(RowAfter(row, visits), v.now)
    ensures Legit(row, visits + [v]) && RowAfter(row, visits + [v]) == Attempt(RowAfter(row, visits), v)
  {
    var more := visits + [v];
    forall i | 0 <= i < |more| ensures BaseOk(more[i].base) && Due(RowAfter(row, more[..i]), more[i].now) {
      assert more[..i] == visits[..i];
      assert visits[..|visits|] == visits;
    }
    assert more[..|more| - 1] == visits;
  }

  lemma PrefixIsSmallest(sorted: seq<int>, n: nat)
    requires StrictlySorted(IdLess, sorted) && n <= |sorted|
    ensures StrictlySorted(IdLess, sorted[..n])
    ensures forall id, d :: id in sorted && id !in sorted[..n] && d in sorted[..n] ==> d < id
    ensures sorted[..|sorted|] == sorted
  {
    forall id, d | id in sorted && id !in sorted[..n] && d in sorted[..n] ensures d < id {
      var i :| 0 <= i < |sorted| && sorted[i] == id;
      var k :| 0 <= k < n && sorted[k] == d;
      assert i >= n;
    }
  }
}
