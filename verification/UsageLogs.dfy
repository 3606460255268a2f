/** model/usage_log.go: the rows of all attempts, collapsed to one row per request, and their summary. */
module UsageLogs {
  import opened Wrappers
  import opened Text
  import opened Sorting
  import WeightedShuffle
  import Proxy
  import Relay

  datatype Usage = Usage(promptTokens: int, completionTokens: int, cacheTokens: int, costUSD: real, responseTimeMs: int)

  /** A stored row: what logging handed over, and what the insert added. */
  datatype UsageLog = UsageLog(id: int, createdAt: int, row: Proxy.LogRow, usage: Usage)

  predicate IsSuccess(log: UsageLog) {
    log.row.status == 1 && TrimSpace(log.row.errorMessage) == ""
  }

  predicate IsInvalidResponse(log: UsageLog) {
    EqualFold(TrimSpace(log.row.failureCategory), Proxy.INVALID) || TrimSpace(log.row.invalidReason) != ""
  }

  function GroupKey(log: UsageLog): (key: string)
    ensures key != ""
  {
    if TrimSpace(log.row.relayId) != "" then "relay:" + TrimSpace(log.row.relayId)
    else if TrimSpace(log.row.requestId) != "" then "request:" + TrimSpace(log.row.requestId)
    else "id:" + Itoa(log.id)
  }

  function DerivedRelayRequestId(log: UsageLog): string {
    if TrimSpace(log.row.relayId) != "" then TrimSpace(log.row.relayId)
    else if TrimSpace(log.row.requestId) != "" then "legacy-" + TrimSpace(log.row.requestId)
    else "legacy-id-" + Itoa(log.id)
  }

  /** The order of attempts: attempt index, then time, then id. */
  predicate Before(a: UsageLog, b: UsageLog) {
    if a.row.attemptIndex != b.row.attemptIndex then a.row.attemptIndex < b.row.attemptIndex
    else if a.createdAt != b.createdAt then a.createdAt < b.createdAt
    else a.id < b.id
  }

  /** compareUsageLogAttemptOrder. */
  function CompareAttemptOrder(a: UsageLog, b: UsageLog): int {
    if a.row.attemptIndex != b.row.attemptIndex then (if a.row.attemptIndex > b.row.attemptIndex then 1 else -1)
    else if a.createdAt != b.createdAt then (if a.createdAt > b.createdAt then 1 else -1)
    else if a.id > b.id then 1
    else if a.id < b.id then -1
    else 0
  }

  lemma CompareMeaning(a: UsageLog, b: UsageLog)
    ensures CompareAttemptOrder(a, b) > 0 <==> Before(b, a)
    ensures CompareAttemptOrder(a, b) == 0 <==> !Before(a, b) && !Before(b, a)
  {
  }

  /**
   * Which rows are one request: those of one relay id; of those without, the ones of one request id; and a row
   * with neither is a request of its own.
   */
  lemma SameRequestIff(a: UsageLog, b: UsageLog)
    ensures GroupKey(a) == GroupKey(b)
       <==> && TrimSpace(a.row.relayId) == TrimSpace(b.row.relayId)
            && (TrimSpace(a.row.relayId) != "" || TrimSpace(a.row.requestId) == TrimSpace(b.row.requestId))
            && (TrimSpace(a.row.relayId) != "" || TrimSpace(a.row.requestId) != "" || a.id == b.id)
  {
    KeyParts(a);
    KeyParts(b);
    if GroupKey(a) == GroupKey(b) && TrimSpace(a.row.relayId) == "" && TrimSpace(a.row.requestId) == "" {
      assert Itoa(a.id) == GroupKey(a)[3..] == GroupKey(b)[3..];
      ItoaInjective(a.id, b.id);
    }
    hide TrimSpace, Itoa, GroupKey;
  }

  lemma KeyParts(a: UsageLog)
    ensures TrimSpace(a.row.relayId) != "" ==>
              GroupKey(a)[..6] == "relay:" && GroupKey(a)[2] == 'l' && GroupKey(a)[6..] == TrimSpace(a.row.relayId)
    ensures TrimSpace(a.row.relayId) == "" && TrimSpace(a.row.requestId) != "" ==>
              GroupKey(a)[2] == 'q' && GroupKey(a)[8..] == TrimSpace(a.row.requestId)
    ensures TrimSpace(a.row.relayId) == "" && TrimSpace(a.row.requestId) == "" ==>
              |GroupKey(a)| > 3 && GroupKey(a)[2] == ':' && GroupKey(a)[3..] == Itoa(a.id)
  {
    hide TrimSpace, Itoa;
    ItoaSign(a.id);
  }

  ghost predicate DistinctIds(logs: seq<UsageLog>) {
    forall i, j :: 0 <= i < j < |logs| ==> logs[i].id != logs[j].id
  }

  // ---------------------------------------------------------------- the representative of a request

  ghost predicate HasSuccess(group: seq<UsageLog>) {
    exists a :: a in group && IsSuccess(a)
  }

  /** The greatest success, or without one the greatest attempt. */
  ghost predicate IsRepresentative(group: seq<UsageLog>, r: UsageLog) {
    && r in group && (IsSuccess(r) <==> HasSuccess(group))
    && forall a :: a in group && (IsSuccess(a) || !IsSuccess(r)) ==> !Before(r, a)
  }

  function Greater(best: Option<UsageLog>, a: UsageLog): Option<UsageLog> {
    if best.None? || Before(best.value, a) then Some(a) else best
  }

  /** The best success and the best attempt of a group. */
  function Bests(group: seq<UsageLog>): (Option<UsageLog>, Option<UsageLog>) {
    if group == [] then (None, None)
    else
      var before, a := Bests(group[..|group| - 1]), group[|group| - 1];
      (if IsSuccess(a) then Greater(before.0, a) else before.0, Greater(before.1, a))
  }

  function Representative(group: seq<UsageLog>): Option<UsageLog> {
    if Bests(group).0.Some? then Bests(group).0 else Bests(group).1
  }

  method SelectRequestRepresentative(attempts: seq<UsageLog>) returns (selected: Option<UsageLog>)
    ensures selected == Representative(attempts)
    ensures selected.None? <==> attempts == []
    ensures selected.Some? ==> IsRepresentative(attempts, selected.value)
  {
    hide TrimSpace, Before, CompareAttemptOrder;
    var bestSuccess: Option<UsageLog>, bestAny: Option<UsageLog> := None, None;
    for i := 0 to |attempts|
      invariant (bestSuccess, bestAny) == Bests(attempts[..i])
    {
      var attempt := attempts[i];
      assert attempts[..i + 1][..i] == attempts[..i];
      if bestAny.Some? {
        CompareMeaning(attempt, bestAny.value);
      }
      if bestSuccess.Some? {
        CompareMeaning(attempt, bestSuccess.value);
      }
      if bestAny.None? || CompareAttemptOrder(attempt, bestAny.value) > 0 {
        bestAny := Some(attempt);
      }
      var success := attempt.row.status == 1 && TrimSpace(attempt.row.errorMessage) == "";
      if success && (bestSuccess.None? || CompareAttemptOrder(attempt, bestSuccess.value) > 0) {
        bestSuccess := Some(attempt);
      }
    }
    assert attempts[..|attempts|] == attempts;
    RepresentativeMeaning(attempts);
    selected := if bestSuccess.Some? then bestSuccess else bestAny;
  }

  /** No element of the kind is above the best. */
  ghost predicate BestOf(group: seq<UsageLog>, best: Option<UsageLog>, onlySuccess: bool) {
    && (best.None? ==> forall a :: a in group ==> onlySuccess && !IsSuccess(a))
    && (best.Some? ==> best.value in group && (onlySuccess ==> IsSuccess(best.value))
                       && forall a :: a in group && (onlySuccess ==> IsSuccess(a)) ==> !Before(best.value, a))
  }

  lemma BestPush(group: seq<UsageLog>, best: Option<UsageLog>, a: UsageLog, onlySuccess: bool)
    requires BestOf(group, best, onlySuccess)
    ensures BestOf(group + [a], if onlySuccess && !IsSuccess(a) then best else Greater(best, a), onlySuccess)
  {
    hide IsSuccess;
  }

  lemma {:induction false} BestsMeaning(group: seq<UsageLog>)
    ensures BestOf(group, Bests(group).0, true) && BestOf(group, Bests(group).1, false)
  {
    hide BestOf, IsSuccess, Before, Greater;
    if group == [] {
      BestOfNothing();
    } else {
      var init, a := group[..|group| - 1], group[|group| - 1];
      BestsMeaning(init);
      BestPush(init, Bests(init).0, a, true);
      BestPush(init, Bests(init).1, a, false);
      assert group == init + [a];
    }
  }

  lemma BestOfNothing()
    ensures BestOf([], None, true) && BestOf([], None, false)
  {
  }

  lemma RepresentativeMeaning(group: seq<UsageLog>)
    ensures Representative(group).None? <==> group == []
    ensures group != [] ==> IsRepresentative(group, Representative(group).value)
  {
    hide IsSuccess, Before, Bests;
    BestsMeaning(group);
    if group != [] {
      assert group[0] in group;
    }
  }

  lemma BeforeIsTotal(a: UsageLog, b: UsageLog)
    ensures a.id != b.id ==> Before(a, b) || Before(b, a)
    ensures !(Before(a, b) && Before(b, a))
  {
  }

  lemma OneLogPerId(logs: seq<UsageLog>, a: UsageLog, b: UsageLog)
    requires DistinctIds(logs) && a in logs && b in logs && a.id == b.id
    ensures a == b
  {
  }

  /** Groups with the same rows have the same representative, in whatever order the rows come. */
  lemma RepresentativeUnique(g: seq<UsageLog>, h: seq<UsageLog>)
    requires DistinctIds(g) && forall a :: a in g <==> a in h
    ensures Representative(g) == Representative(h)
  {
    hide IsSuccess, Before, Representative;
    RepresentativeMeaning(g);
    RepresentativeMeaning(h);
    assert h != [] ==> h[0] in g;
    if g != [] {
      assert g[0] in h;
      var r, s := Representative(g).value, Representative(h).value;
      SameSuccess(g, h);
      BeforeIsTotal(r, s);
      assert r in h && s in g;
      assert !Before(r, s) && !Before(s, r);
      OneLogPerId(g, r, s);
    }
  }

  lemma SameSuccess(g: seq<UsageLog>, h: seq<UsageLog>)
    requires forall a :: a in g <==> a in h
    ensures HasSuccess(g) == HasSuccess(h)
  {
    hide IsSuccess;
  }

  // ---------------------------------------------------------------- collapsing

  function Group(logs: seq<UsageLog>, key: string): seq<UsageLog> {
    if logs == [] then []
    else
      var init, a := logs[..|logs| - 1], logs[|logs| - 1];
      if GroupKey(a) == key then Group(init, key) + [a] else Group(init, key)
  }

  ghost function Keys(logs: seq<UsageLog>): set<string> {
    set a | a in logs :: GroupKey(a)
  }

  lemma {:induction false} GroupMembers(logs: seq<UsageLog>, key: string, a: UsageLog)
    ensures a in Group(logs, key) <==> a in logs && GroupKey(a) == key
  {
    hide GroupKey;
    if logs != [] {
      var init, last := logs[..|logs| - 1], logs[|logs| - 1];
      GroupMembers(init, key, a);
      assert logs == init + [last];
    }
  }

  lemma {:induction false} GroupDistinct(logs: seq<UsageLog>, key: string)
    requires DistinctIds(logs)
    ensures DistinctIds(Group(logs, key))
  {
    hide GroupKey;
    if logs != [] {
      var init, last := logs[..|logs| - 1], logs[|logs| - 1];
      GroupDistinct(init, key);
      forall b | b in Group(init, key) ensures b.id != last.id {
        GroupMembers(init, key, b);
        var i :| 0 <= i < |init| && init[i] == b;
        assert logs[i].id != logs[|logs| - 1].id;
      }
    }
  }

  lemma GroupOfKey(logs: seq<UsageLog>, key: string)
    ensures Group(logs, key) != [] <==> key in Keys(logs)
    ensures Representative(Group(logs, key)).Some? <==> key in Keys(logs)
  {
    hide GroupKey, Representative;
    RepresentativeMeaning(Group(logs, key));
    if Group(logs, key) != [] {
      var a := Group(logs, key)[0];
      GroupMembers(logs, key, a);
    }
    if a :| a in logs && GroupKey(a) == key {
      GroupMembers(logs, key, a);
    }
  }

  /** The shown copy of a representative. */
  function Shown(log: UsageLog): UsageLog {
    if TrimSpace(log.row.relayId) == "" then log.(row := log.row.(relayId := DerivedRelayRequestId(log))) else log
  }

  lemma ShownKeeps(log: UsageLog)
    ensures Shown(log).id == log.id && IsSuccess(Shown(log)) == IsSuccess(log) && Shown(log).usage == log.usage
  {
  }

  /** Newest first. */
  predicate Newer(a: UsageLog, b: UsageLog) {
    a.id > b.id || (a.id == b.id && a.createdAt > b.createdAt)
  }

  /** The row shown for a key. */
  function RowFor(logs: seq<UsageLog>, key: string): Option<UsageLog> {
    if Representative(Group(logs, key)).Some? then Some(Shown(Representative(Group(logs, key)).value)) else None
  }

  function RowsFor(logs: seq<UsageLog>, order: seq<string>): seq<UsageLog> {
    if order == [] then []
    else
      var init, r := RowsFor(logs, order[..|order| - 1]), RowFor(logs, order[|order| - 1]);
      if r.Some? then init + [r.value] else init
  }

  /** One row per key, newest first. */
  ghost predicate IsCollapse(logs: seq<UsageLog>, collapsed: seq<UsageLog>, order: seq<string>) {
    && NoDuplicates(order) && (forall key :: key in order <==> key in Keys(logs))
    && multiset(collapsed) == multiset(RowsFor(logs, order)) && Sorted(Newer, collapsed)
  }

  /** The groups, and their keys in the order they were first met. */
  method GroupByRequest(attempts: seq<UsageLog>) returns (groups: map<string, seq<UsageLog>>, order: seq<string>)
    ensures NoDuplicates(order) && (forall key :: key in order <==> key in Keys(attempts))
    ensures groups.Keys == Keys(attempts)
    ensures forall key :: key in groups ==> groups[key] == Group(attempts, key)
  {
    hide GroupKey, Representative, Keys;
    groups, order := map[], [];
    NoKeys();
    for i := 0 to |attempts|
      invariant NoDuplicates(order)
      invariant forall key :: key in order <==> key in groups
      invariant groups.Keys == Keys(attempts[..i])
      invariant forall key :: key in groups ==> groups[key] == Group(attempts[..i], key)
    {
      var attempt := attempts[i];
      assert attempts[..i + 1] == attempts[..i] + [attempt] && attempts[..i + 1][..i] == attempts[..i];
      KeysPush(attempts[..i], attempt);
      var key := GroupKey(attempt);
      GroupOfKey(attempts[..i], key);
      if key !in groups {
        order := order + [key];
        groups := groups[key := []];
      }
      groups := groups[key := groups[key] + [attempt]];
    }
    assert attempts[..|attempts|] == attempts;
  }

  lemma NoKeys()
    ensures Keys([]) == {}
  {
  }

  /** A representative without a relay id is shown with one made up from its request id, or from its own. */
  method ShowRow(selected: UsageLog) returns (copyLog: UsageLog)
    ensures copyLog == Shown(selected)
  {
    hide TrimSpace, Itoa;
    copyLog := selected;
    if TrimSpace(copyLog.row.relayId) == "" {
      var derived := "legacy-id-" + Itoa(selected.id);
      var request := TrimSpace(selected.row.requestId);
      if request != "" {
        derived := "legacy-" + request;
      }
      copyLog := copyLog.(row := copyLog.row.(relayId := derived));
    }
  }

  method CollapseUsageLogsByRequest(attempts: seq<UsageLog>) returns (collapsed: seq<UsageLog>, ghost keys: seq<string>)
    ensures IsCollapse(attempts, collapsed, keys)
    ensures |collapsed| == |Keys(attempts)|
    ensures forall i, j :: 0 <= i < j < |collapsed| ==> collapsed[i].id >= collapsed[j].id
    ensures forall x :: x in collapsed <==> exists key :: key in Keys(attempts) && RowFor(attempts, key) == Some(x)
  {
    hide GroupKey, Representative, Shown, IsRepresentative, Keys, Group;
    var groups, order := GroupByRequest(attempts);
    var rows: seq<UsageLog> := [];
    for i := 0 to |order|
      invariant rows == RowsFor(attempts, order[..i])
    {
      assert order[..i + 1][..i] == order[..i] && order[i] in order;
      var selected := SelectRequestRepresentative(groups[order[i]]);
      if selected.Some? {
        var row := ShowRow(selected.value);
        rows := rows + [row];
      }
    }
    assert order[..|order|] == order;
    collapsed := SortSlice(Newer, rows);
    keys := order;
    CollapseMeaning(attempts, collapsed, keys);
  }

  lemma KeysPush(logs: seq<UsageLog>, a: UsageLog)
    ensures Keys(logs + [a]) == Keys(logs) + {GroupKey(a)}
  {
    hide GroupKey;
  }

  lemma {:induction false} RowsForMembers(logs: seq<UsageLog>, order: seq<string>, x: UsageLog)
    ensures x in RowsFor(logs, order) <==> exists key :: key in order && RowFor(logs, key) == Some(x)
  {
    hide RowFor;
    if order != [] {
      var init, last := order[..|order| - 1], order[|order| - 1];
      RowsForMembers(logs, init, x);
      assert order == init + [last];
      assert last in order;
    }
  }

  lemma RowForId(logs: seq<UsageLog>, key: string)
    requires RowFor(logs, key).Some?
    ensures exists a :: a in logs && GroupKey(a) == key && a.id == RowFor(logs, key).value.id
  {
    hide GroupKey, Representative, Shown, IsSuccess, Before;
    var g := Group(logs, key);
    RepresentativeMeaning(g);
    var r := Representative(g).value;
    GroupMembers(logs, key, r);
    ShownKeeps(r);
  }

  lemma RowForKeys(logs: seq<UsageLog>, k: string, l: string)
    requires DistinctIds(logs) && k != l && RowFor(logs, k).Some? && RowFor(logs, l).Some?
    ensures RowFor(logs, k).value.id != RowFor(logs, l).value.id
  {
    hide GroupKey, RowFor;
    RowForId(logs, k);
    RowForId(logs, l);
  }

  lemma {:induction false} RowsForDistinct(logs: seq<UsageLog>, order: seq<string>)
    requires DistinctIds(logs) && NoDuplicates(order)
    ensures DistinctIds(RowsFor(logs, order))
  {
    hide RowFor;
    if order != [] {
      var init, last := order[..|order| - 1], order[|order| - 1];
      RowsForDistinct(logs, init);
      if RowFor(logs, last).Some? {
        forall x | x in RowsFor(logs, init) ensures x.id != RowFor(logs, last).value.id {
          RowsForMembers(logs, init, x);
          var key :| key in init && RowFor(logs, key) == Some(x);
          RowForKeys(logs, key, last);
        }
      }
    }
  }

  lemma {:induction false} RowsForLength(logs: seq<UsageLog>, order: seq<string>)
    requires forall key :: key in order ==> key in Keys(logs)
    ensures |RowsFor(logs, order)| == |order|
  {
    hide GroupKey, Representative, Shown, Keys;
    if order != [] {
      var init, last := order[..|order| - 1], order[|order| - 1];
      assert order == init + [last];
      assert last in order;
      RowsForLength(logs, init);
      GroupOfKey(logs, last);
    }
  }

  /** Exactly one row per key, each the shown representative of its group. */
  lemma OneRowPerRequest(logs: seq<UsageLog>, collapsed: seq<UsageLog>, order: seq<string>, x: UsageLog)
    requires IsCollapse(logs, collapsed, order)
    ensures |collapsed| == |Keys(logs)|
    ensures x in collapsed <==> exists key :: key in Keys(logs) && RowFor(logs, key) == Some(x)
  {
    hide GroupKey, RowFor, Sorted, Keys;
    SameElements(collapsed, RowsFor(logs, order));
    RowsForLength(logs, order);
    RowsForMembers(logs, order, x);
    DistinctCount(order, Keys(logs));
  }

  lemma CollapseMeaning(logs: seq<UsageLog>, collapsed: seq<UsageLog>, order: seq<string>)
    requires IsCollapse(logs, collapsed, order)
    ensures |collapsed| == |Keys(logs)|
    ensures forall x :: x in collapsed <==> exists key :: key in Keys(logs) && RowFor(logs, key) == Some(x)
  {
    hide IsCollapse, RowFor, Keys;
    forall x
      ensures |collapsed| == |Keys(logs)|
      ensures x in collapsed <==> exists key :: key in Keys(logs) && RowFor(logs, key) == Some(x)
    {
      OneRowPerRequest(logs, collapsed, order, x);
    }
    var any: UsageLog :| true;
    OneRowPerRequest(logs, collapsed, order, any);
  }

  lemma {:induction false} DistinctCount(order: seq<string>, keys: set<string>)
    requires NoDuplicates(order) && forall key :: key in order <==> key in keys
    ensures |order| == |keys|
  {
    if order == [] {
      assert keys == {};
    } else {
      var init, last := order[..|order| - 1], order[|order| - 1];
      assert order == init + [last];
      DistinctCount(init, keys - {last});
    }
  }

  /** The rows may arrive in any order. */
  lemma CollapseIgnoresOrder(a: seq<UsageLog>, b: seq<UsageLog>, ca: seq<UsageLog>, cb: seq<UsageLog>, oa: seq<string>,
                             ob: seq<string>)
    requires DistinctIds(a) && DistinctIds(b) && forall x :: x in a <==> x in b
    requires IsCollapse(a, ca, oa) && IsCollapse(b, cb, ob)
    ensures ca == cb
  {
    hide GroupKey, RowFor, Group;
    assert Keys(a) == Keys(b);
    forall key ensures RowFor(a, key) == RowFor(b, key) {
      SameRowFor(a, b, key);
    }
    forall x ensures x in ca <==> x in cb {
      OneRowPerRequest(a, ca, oa, x);
      OneRowPerRequest(b, cb, ob, x);
    }
    CollapseStrict(a, ca, oa);
    CollapseStrict(b, cb, ob);
    StrictlySortedUnique(Newer, ca, cb);
  }

  lemma SameRowFor(a: seq<UsageLog>, b: seq<UsageLog>, key: string)
    requires DistinctIds(a) && forall x :: x in a <==> x in b
    ensures RowFor(a, key) == RowFor(b, key)
  {
    hide GroupKey, Representative, Shown;
    forall x ensures x in Group(a, key) <==> x in Group(b, key) {
      GroupMembers(a, key, x);
      GroupMembers(b, key, x);
    }
    GroupDistinct(a, key);
    RepresentativeUnique(Group(a, key), Group(b, key));
  }

  lemma CollapseStrict(logs: seq<UsageLog>, collapsed: seq<UsageLog>, order: seq<string>)
    requires DistinctIds(logs) && IsCollapse(logs, collapsed, order)
    ensures StrictlySorted(Newer, collapsed)
  {
    hide GroupKey, RowFor, Keys;
    var rows := RowsFor(logs, order);
    RowsForDistinct(logs, order);
    SameElements(rows, collapsed);
    SortedDistinct(Newer, collapsed);
  }

  // ---------------------------------------------------------------- the rows of one relay run

  /** These stored rows are those of a run, in whatever order the inserts landed. */
  ghost predicate Landed(stored: seq<UsageLog>, rows: seq<Proxy.LogRow>) {
    && (forall a :: a in stored ==> a.row in rows)
    && (forall row :: row in rows ==> exists a :: a in stored && a.row == row)
  }

  lemma LastRowWins(group: seq<UsageLog>, r: UsageLog, rows: seq<Proxy.LogRow>)
    requires rows != [] && Landed(group, rows) && IsRepresentative(group, r)
    requires forall k :: 0 <= k < |rows| ==> rows[k].attemptIndex == k + 1
    requires forall k :: 0 <= k < |rows| - 1 ==> rows[k].status == 0
    ensures r.row == rows[|rows| - 1]
  {
    hide HasSuccess;
    var last := rows[|rows| - 1];
    var k :| 0 <= k < |rows| && rows[k] == r.row;
    assert last in rows;
    var a :| a in group && a.row == last;
    assert k < |rows| - 1 ==> !IsSuccess(r);
    assert k < |rows| - 1 ==> Before(r, a);
  }

  /** The key of a run: its id is 16 letters and digits, so never blank. */
  function RunKey(relayId: string): string {
    "relay:" + TrimSpace(relayId)
  }

  /** In the whole log, the rows with the run's id are the rows the run logged. */
  ghost predicate StoredRun(logs: seq<UsageLog>, relayId: string, rows: seq<Proxy.LogRow>) {
    && (forall a :: a in logs && TrimSpace(a.row.relayId) == TrimSpace(relayId) ==> a.row in rows)
    && (forall row :: row in rows ==> exists a :: a in logs && a.row == row)
  }

  lemma RunKeyIff(a: UsageLog, relayId: string)
    requires TrimSpace(relayId) != ""
    ensures GroupKey(a) == RunKey(relayId) <==> TrimSpace(a.row.relayId) == TrimSpace(relayId)
  {
    hide TrimSpace, Itoa;
    var key := RunKey(relayId);
    assert key[2] == 'l' && key[6..] == TrimSpace(relayId);
    if TrimSpace(a.row.relayId) != "" {
      assert GroupKey(a)[6..] == TrimSpace(a.row.relayId);
    } else if TrimSpace(a.row.requestId) != "" {
      assert GroupKey(a)[2] == 'q';
    } else {
      assert GroupKey(a)[0] == 'i';
    }
  }

  /** So the run's rows are one group of the log. */
  lemma RunIsAGroup(relayId: string, flat: seq<WeightedShuffle.Attempt>, world: Relay.World, judges: Proxy.Judges,
                    n: nat, logs: seq<UsageLog>)
    requires n <= |flat| && TrimSpace(relayId) != ""
    requires StoredRun(logs, relayId, Relay.RowsUpTo(relayId, flat, world, judges, n))
    ensures Landed(Group(logs, RunKey(relayId)), Relay.RowsUpTo(relayId, flat, world, judges, n))
  {
    hide TrimSpace, GroupKey, RunKey, Group, Relay.RowsUpTo;
    var rows := Relay.RowsUpTo(relayId, flat, world, judges, n);
    var group := Group(logs, RunKey(relayId));
    Relay.RowsCarryRelayId(relayId, flat, world, judges, n);
    LowerTrim(relayId);
    forall a ensures a in group <==> a in logs && TrimSpace(a.row.relayId) == TrimSpace(relayId) {
      GroupMembers(logs, RunKey(relayId), a);
      RunKeyIff(a, relayId);
    }
    forall row | row in rows ensures exists a :: a in group && a.row == row {
      var a :| a in logs && a.row == row;
      assert a in group;
    }
  }

  /** The request of a relay run is shown as its last logged attempt. */
  lemma RunShowsLastAttempt(relayId: string, requested: string, flat: seq<WeightedShuffle.Attempt>, world: Relay.World,
                            judges: Proxy.Judges,
                            tried: nat, written: seq<Proxy.Written>, rows: seq<Proxy.LogRow>, logs: seq<UsageLog>)
    requires Relay.IsRun(relayId, requested, flat, world, judges, tried, written, rows)
    requires rows != [] && TrimSpace(relayId) != "" && StoredRun(logs, relayId, rows)
    ensures var shown := Representative(Group(logs, RunKey(relayId)));
            && shown.Some? && shown.value.row == rows[|rows| - 1]
            && IsRepresentative(Group(logs, RunKey(relayId)), shown.value)
            && RowFor(logs, RunKey(relayId)) == Some(Shown(shown.value))
  {
    hide Representative, Group, IsRepresentative, Shown, Relay.RowsUpTo, RunKey, TrimSpace, StoredRun,
         Proxy.Succeeds, Relay.ExhaustedMessage, Proxy.ErrorOf;
    RunIsAGroup(relayId, flat, world, judges, tried, logs);
    Relay.RunRowsShape(relayId, requested, flat, world, judges, tried, written, rows);
    assert rows[0] in rows;
    RepresentativeMeaning(Group(logs, RunKey(relayId)));
    LastRowWins(Group(logs, RunKey(relayId)), Representative(Group(logs, RunKey(relayId))).value, rows);
  }

  /** And it is shown as a success exactly when the client was served a whole answer. */
  lemma RunShownAsSuccessIff(relayId: string, requested: string, flat: seq<WeightedShuffle.Attempt>,
                             world: Relay.World, judges: Proxy.Judges,
                             tried: nat, written: seq<Proxy.Written>, rows: seq<Proxy.LogRow>, logs: seq<UsageLog>)
    requires Relay.IsRun(relayId, requested, flat, world, judges, tried, written, rows)
    requires rows != [] && TrimSpace(relayId) != "" && StoredRun(logs, relayId, rows)
    ensures RowFor(logs, RunKey(relayId)).Some?
    ensures IsSuccess(RowFor(logs, RunKey(relayId)).value) <==> Relay.ServedWhole(world, judges, tried)
  {
    hide Representative, Group, IsRepresentative, Shown, StoredRun, RunKey, Relay.IsRun, Relay.ServedWhole;
    RunShowsLastAttempt(relayId, requested, flat, world, judges, tried, written, rows, logs);
    Relay.LastRowTells(relayId, requested, flat, world, judges, tried, written, rows);
    ShownKeeps(Representative(Group(logs, RunKey(relayId))).value);
    BlankIsTrimmed();
  }

  lemma BlankIsTrimmed()
    ensures TrimSpace("") == ""
  {
  }

  // ---------------------------------------------------------------- the summary

  datatype Summary = Summary(
    total: int,
    successCount: int,
    errorCount: int,
    invalidResponseCount: int,
    invalidResponseRate: real,
    inputTokens: int,
    outputTokens: int,
    cacheTokens: int,
    totalCost: real,
    avgLatency: int)

  function CountSuccess(logs: seq<UsageLog>): nat {
    if logs == [] then 0 else CountSuccess(logs[..|logs| - 1]) + (if IsSuccess(logs[|logs| - 1]) then 1 else 0)
  }

  function CountInvalid(logs: seq<UsageLog>): nat {
    if logs == [] then 0 else CountInvalid(logs[..|logs| - 1]) + (if IsInvalidResponse(logs[|logs| - 1]) then 1 else 0)
  }

  function AddUsage(a: Usage, b: Usage): Usage {
    Usage(a.promptTokens + b.promptTokens, a.completionTokens + b.completionTokens, a.cacheTokens + b.cacheTokens,
          a.costUSD + b.costUSD, a.responseTimeMs + b.responseTimeMs)
  }

  function TotalUsage(logs: seq<UsageLog>): Usage {
    if logs == [] then Usage(0, 0, 0, 0.0, 0) else AddUsage(TotalUsage(logs[..|logs| - 1]), logs[|logs| - 1].usage)
  }

  /** `math.Round`: to the nearest integer, halves away from zero. */
  function RoundedMean(sum: int, n: int): int
    requires n > 0
  {
    if sum >= 0 then (2 * sum + n) / (2 * n) else -((-2 * sum + n) / (2 * n))
  }

  /** The mean is off by half a unit at most, and by exactly half only away from zero. */
  lemma RoundedMeanMeaning(sum: int, n: int)
    requires n > 0
    ensures -n <= 2 * (RoundedMean(sum, n) * n - sum) <= n
    ensures 2 * (RoundedMean(sum, n) * n - sum) == n ==> sum >= 0
    ensures 2 * (RoundedMean(sum, n) * n - sum) == -n ==> sum < 0
  {
    var magnitude := if sum >= 0 then sum else -sum;
    NearestMultiple(2 * magnitude + n, n);
  }

  lemma NearestMultiple(x: int, n: int)
    requires n > 0
    ensures 0 <= x - (x / (2 * n)) * n * 2 < 2 * n
  {
    assert x == (x / (2 * n)) * (2 * n) + x % (2 * n);
  }

  function Share(part: nat, whole: nat): real
    requires whole > 0
  {
    (part as real) / (whole as real)
  }

  method SummarizeUsageLogs(logs: seq<UsageLog>) returns (s: Summary)
    ensures s.total == |logs| && s.successCount == CountSuccess(logs) && s.errorCount == |logs| - CountSuccess(logs)
    ensures s.invalidResponseCount == CountInvalid(logs)
    ensures s.inputTokens == TotalUsage(logs).promptTokens && s.outputTokens == TotalUsage(logs).completionTokens
    ensures s.cacheTokens == TotalUsage(logs).cacheTokens && s.totalCost == TotalUsage(logs).costUSD
    ensures logs != [] ==> s.avgLatency == RoundedMean(TotalUsage(logs).responseTimeMs, |logs|)
    ensures logs != [] ==> s.invalidResponseRate == Share(CountInvalid(logs), |logs|)
    ensures logs == [] ==> s == Summary(0, 0, 0, 0, 0.0, 0, 0, 0, 0.0, 0)
  {
    hide TrimSpace, EqualFold, RoundedMean;
    if |logs| == 0 {
      return Summary(0, 0, 0, 0, 0.0, 0, 0, 0, 0.0, 0);
    }
    var successCount, invalidResponseCount := 0, 0;
    var inputTokens, outputTokens, cacheTokens, totalCost, latencySum := 0, 0, 0, 0.0, 0;
    for i := 0 to |logs|
      invariant successCount == CountSuccess(logs[..i]) && invalidResponseCount == CountInvalid(logs[..i])
      invariant Usage(inputTokens, outputTokens, cacheTokens, totalCost, latencySum) == TotalUsage(logs[..i])
    {
      assert logs[..i + 1][..i] == logs[..i];
      var row, usage := logs[i].row, logs[i].usage;
      if row.status == 1 && TrimSpace(row.errorMessage) == "" {
        successCount := successCount + 1;
      }
      if EqualFold(TrimSpace(row.failureCategory), "invalid_response") || TrimSpace(row.invalidReason) != "" {
        invalidResponseCount := invalidResponseCount + 1;
      }
      inputTokens := inputTokens + usage.promptTokens;
      outputTokens := outputTokens + usage.completionTokens;
      cacheTokens := cacheTokens + usage.cacheTokens;
      totalCost := totalCost + usage.costUSD;
      latencySum := latencySum + usage.responseTimeMs;
    }
    assert logs[..|logs|] == logs;
    var total := |logs|;
    var invalidRate := (invalidResponseCount as real) / (total as real);
    s := Summary(total, successCount, total - successCount, invalidResponseCount, invalidRate,
                 inputTokens, outputTokens, cacheTokens, totalCost, RoundedMean(latencySum, total));
  }

  lemma {:induction false} CountSuccessAppend(a: seq<UsageLog>, b: seq<UsageLog>)
    ensures CountSuccess(a + b) == CountSuccess(a) + CountSuccess(b)
  {
    hide IsSuccess;
    if b == [] {
      assert a + b == a;
    } else {
      CountSuccessAppend(a, b[..|b| - 1]);
      assert (a + b)[..|a + b| - 1] == a + b[..|b| - 1];
    }
  }

  lemma CountSuccessWithout(b: seq<UsageLog>, i: nat)
    requires i < |b|
    ensures CountSuccess(b) == CountSuccess(b[..i] + b[i + 1..]) + (if IsSuccess(b[i]) then 1 else 0)
  {
    hide IsSuccess;
    assert b == b[..i] + ([b[i]] + b[i + 1..]);
    CountSuccessAppend(b[..i], [b[i]] + b[i + 1..]);
    CountSuccessAppend([b[i]], b[i + 1..]);
    CountSuccessAppend(b[..i], b[i + 1..]);
    assert [b[i]][..0] == [];
  }

  lemma MultisetWithout(b: seq<UsageLog>, i: nat)
    requires i < |b|
    ensures multiset(b[..i] + b[i + 1..]) == multiset(b) - multiset{b[i]}
  {
    assert b == b[..i] + ([b[i]] + b[i + 1..]);
  }

  lemma {:induction false} CountSuccessPermuted(a: seq<UsageLog>, b: seq<UsageLog>)
    requires multiset(a) == multiset(b)
    ensures CountSuccess(a) == CountSuccess(b)
  {
    hide IsSuccess;
    SameElements(a, b);
    if a != [] {
      var last := |a| - 1;
      assert a[last] in b;
      var i :| 0 <= i < |b| && b[i] == a[last];
      MultisetWithout(a, last);
      MultisetWithout(b, i);
      assert a[..last] + a[last + 1..] == a[..last];
      CountSuccessPermuted(a[..last], b[..i] + b[i + 1..]);
      CountSuccessWithout(b, i);
    }
  }

  /** The keys of the requests that hold a successful attempt. */
  ghost function Succeeded(logs: seq<UsageLog>, keys: set<string>): set<string> {
    set key | key in keys && HasSuccess(Group(logs, key))
  }

  lemma RowForSuccess(logs: seq<UsageLog>, key: string)
    requires key in Keys(logs)
    ensures RowFor(logs, key).Some? && (IsSuccess(RowFor(logs, key).value) <==> HasSuccess(Group(logs, key)))
  {
    hide IsSuccess, Before, GroupKey, Shown, Representative, Group, HasSuccess;
    GroupOfKey(logs, key);
    RepresentativeMeaning(Group(logs, key));
    ShownKeeps(Representative(Group(logs, key)).value);
  }

  lemma SucceededNone(logs: seq<UsageLog>)
    ensures Succeeded(logs, {}) == {}
  {
  }

  lemma SucceededNext(logs: seq<UsageLog>, keys: set<string>, key: string)
    requires key in keys
    ensures |Succeeded(logs, keys)| == |Succeeded(logs, keys - {key})| + (if HasSuccess(Group(logs, key)) then 1 else 0)
  {
    hide HasSuccess, Group;
    var more := Succeeded(logs, keys - {key});
    assert Succeeded(logs, keys) == if HasSuccess(Group(logs, key)) then more + {key} else more;
    assert key !in more;
  }

  lemma {:induction false} CountRowsFor(logs: seq<UsageLog>, order: seq<string>, keys: set<string>)
    requires NoDuplicates(order) && (forall key :: key in order <==> key in keys) && keys <= Keys(logs)
    ensures CountSuccess(RowsFor(logs, order)) == |Succeeded(logs, keys)|
  {
    hide IsSuccess, RowFor, Group, HasSuccess, Keys, Succeeded;
    if order == [] {
      SucceededNone(logs);
      assert keys == {};
    } else {
      var init, last := order[..|order| - 1], order[|order| - 1];
      assert order == init + [last];
      assert last in order;
      CountRowsFor(logs, init, keys - {last});
      RowForSuccess(logs, last);
      SucceededNext(logs, keys, last);
    }
  }

  /** The summary's success count is the number of requests that hold a successful attempt. */
  lemma SuccessCountIsRequests(logs: seq<UsageLog>, collapsed: seq<UsageLog>, order: seq<string>)
    requires IsCollapse(logs, collapsed, order)
    ensures CountSuccess(collapsed) == |Succeeded(logs, Keys(logs))|
  {
    hide IsSuccess, RowFor, Sorted, Keys;
    CountSuccessPermuted(collapsed, RowsFor(logs, order));
    CountRowsFor(logs, order, Keys(logs));
  }
}
