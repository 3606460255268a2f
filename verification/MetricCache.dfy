/** model/model_route_cache.go: the usage and health caches (one class for both), their keys, expiry and eviction. */
module MetricCache {
  import opened Wrappers
  import opened Text
  import opened Sorting

  /** routingRuntimeMetricTTL, in seconds, and routingRuntimeMetricMaxKey. */
  const METRIC_TTL: int := 15
  const MAX_KEYS: nat := 256

  datatype Query = Query(tokens: seq<int>, models: seq<string>, window: int)

  // ---------------------------------------------------------------- keys

  ghost function TokenSet(q: Query): set<int> {
    set t | t in q.tokens
  }

  ghost function NameSet(q: Query): set<string> {
    set m | m in q.models && TrimSpace(m) != "" :: TrimSpace(m)
  }

  ghost predicate SameQuery(a: Query, b: Query) {
    a.window == b.window && TokenSet(a) == TokenSet(b) && NameSet(a) == NameSet(b)
  }

  /** A query without tokens or without named models is not cached. */
  ghost predicate Blank(q: Query) {
    TokenSet(q) == {} || NameSet(q) == {}
  }

  predicate IntLess(a: int, b: int) {
    a < b
  }

  lemma {:induction false} SortedIntsExist(elements: set<int>) returns (r: seq<int>)
    ensures StrictlySorted(IntLess, r) && forall x :: x in r <==> x in elements
  {
    if elements == {} {
      r := [];
    } else {
      var x := AnElement(elements);
      var rest := SortedIntsExist(elements - {x});
      r := Sort(IntLess, [x] + rest);
      SortSorts(IntLess, [x] + rest);
      SameElements([x] + rest, r);
      SortedDistinct(IntLess, r);
    }
  }

  ghost function SortedInts(elements: set<int>): (r: seq<int>)
    ensures StrictlySorted(IntLess, r) && forall x :: x in r <==> x in elements
  {
    assert exists r :: StrictlySorted(IntLess, r) && forall x :: x in r <==> x in elements by {
      var r := SortedIntsExist(elements);
    }
    var r :| StrictlySorted(IntLess, r) && forall x :: x in r <==> x in elements;
    r
  }

  function Numerals(ids: seq<int>): seq<string> {
    seq(|ids|, i requires 0 <= i < |ids| => Itoa(ids[i]))
  }

  function KeyText(window: int, ids: seq<int>, names: seq<string>): string {
    Itoa(window) + ['|'] + (Join(Numerals(ids), ',') + ['|'] + Join(names, ','))
  }

  /** The key of a query: its window and its sorted sets. */
  ghost function MetricKey(q: Query): string {
    if Blank(q) then "" else KeyText(q.window, SortedInts(TokenSet(q)), SortedElements(NameSet(q)))
  }

  method UniqueSortedInts(values: seq<int>) returns (r: seq<int>)
    ensures StrictlySorted(IntLess, r) && forall x :: x in r <==> x in values
  {
    var seen: set<int>, result := {}, [];
    for i := 0 to |values|
      invariant NoDuplicates(result)
      invariant forall x :: x in result <==> x in seen
      invariant forall x :: x in seen <==> x in values[..i]
    {
      if values[i] !in seen {
        seen := seen + {values[i]};
        result := result + [values[i]];
      }
    }
    r := SortSlice(IntLess, result);
    SameElements(result, r);
    SortedDistinct(IntLess, r);
    assert values[..|values|] == values;
  }

  method UniqueSortedStrings(values: seq<string>) returns (r: seq<string>)
    ensures StrictlySorted(Less, r)
    ensures forall x :: x in r <==> x != "" && exists v :: v in values && TrimSpace(v) == x
  {
    hide TrimSpace, Less;
    var seen: set<string>, result := {}, [];
    for i := 0 to |values|
      invariant NoDuplicates(result)
      invariant forall x :: x in result <==> x in seen
      invariant seen == set v | v in values[..i] && TrimSpace(v) != "" :: TrimSpace(v)
    {
      var trimmed := TrimSpace(values[i]);
      assert values[..i + 1] == values[..i] + [values[i]];
      if trimmed != "" && trimmed !in seen {
        seen := seen + {trimmed};
        result := result + [trimmed];
      }
    }
    LessIsTotal();
    r := SortSlice(Less, result);
    SortDistinctStrings(result, r);
    assert values[..|values|] == values;
  }

  lemma KeyTextIs(window: int, ids: seq<int>, names: seq<string>)
    ensures KeyText(window, ids, names)
         == Itoa(window) + ['|'] + (Join(Numerals(ids), ',') + ['|'] + Join(names, ','))
  {
  }

  method BuildRoutingMetricCacheKey(q: Query) returns (key: string)
    ensures key == MetricKey(q)
  {
    hide TrimSpace, Less, Sorted, KeyText, Join, Numerals, Itoa;
    var tokenList := UniqueSortedInts(q.tokens);
    var modelList := UniqueSortedStrings(q.models);
    assert forall x :: x in tokenList <==> x in TokenSet(q);
    assert forall x :: x in modelList <==> x in NameSet(q);
    if |tokenList| == 0 || |modelList| == 0 {
      return "";
    }
    assert tokenList[0] in TokenSet(q) && modelList[0] in NameSet(q);
    StrictlySortedUnique(IntLess, tokenList, SortedInts(TokenSet(q)));
    LessIsTotal();
    StrictlySortedUnique(Less, modelList, SortedElements(NameSet(q)));
    var tokenText := Numerals(tokenList);
    key := Itoa(q.window) + ['|'] + (Join(tokenText, ',') + ['|'] + Join(modelList, ','));
    KeyTextIs(q.window, tokenList, modelList);
  }

  // ---------------------------------------------------------------- what a key tells

  lemma SeparatorInLongerHead(a: string, x: string, b: string, y: string, sep: char)
    requires a + [sep] + x == b + [sep] + y && |a| < |b|
    ensures sep in b
  {
    assert (b + [sep] + y)[|a|] == b[|a|] && (a + [sep] + x)[|a|] == sep;
  }

  /** A text splits in only one way at its first separator. */
  lemma FirstSeparator(a: string, x: string, b: string, y: string, sep: char)
    requires a + [sep] + x == b + [sep] + y && sep !in a && sep !in b
    ensures a == b && x == y
  {
    if |a| < |b| {
      SeparatorInLongerHead(a, x, b, y, sep);
    } else if |b| < |a| {
      SeparatorInLongerHead(b, y, a, x, sep);
    } else {
      var s := a + [sep] + x;
      assert s[..|a|] == a && s[|a| + 1..] == x;
      assert (b + [sep] + y)[..|b|] == b && (b + [sep] + y)[|b| + 1..] == y;
    }
  }

  lemma {:induction false} JoinCharacters(parts: seq<string>, sep: char, c: char)
    requires c in Join(parts, sep)
    ensures c == sep || exists p :: p in parts && c in p
  {
    if |parts| > 1 {
      if c in Join(parts[1..], sep) {
        JoinCharacters(parts[1..], sep, c);
      }
    }
  }

  lemma NumeralsPlain(ids: seq<int>)
    ensures '|' !in Join(Numerals(ids), ',')
    ensures forall p, c | p in Numerals(ids) && c in p :: c != ','
  {
    forall i | 0 <= i < |ids| ensures '|' !in Numerals(ids)[i] && ',' !in Numerals(ids)[i] {
      ItoaSign(ids[i]);
    }
    if '|' in Join(Numerals(ids), ',') {
      JoinCharacters(Numerals(ids), ',', '|');
    }
  }

  ghost predicate CommaFree(names: seq<string>) {
    forall n :: n in names ==> ',' !in n
  }

  /** For every name list: the key tells the window, the tokens and the joined names apart. */
  lemma KeyTextParts(w: int, ids: seq<int>, names: seq<string>, w': int, ids': seq<int>, names': seq<string>)
    requires ids != [] && ids' != [] && KeyText(w, ids, names) == KeyText(w', ids', names')
    ensures w == w' && ids == ids' && Join(names, ',') == Join(names', ',')
  {
    hide Join, Itoa;
    ItoaSign(w);
    ItoaSign(w');
    NumeralsPlain(ids);
    NumeralsPlain(ids');
    var a, b := Join(Numerals(ids), ','), Join(Numerals(ids'), ',');
    FirstSeparator(Itoa(w), a + ['|'] + Join(names, ','), Itoa(w'), b + ['|'] + Join(names', ','), '|');
    FirstSeparator(a, Join(names, ','), b, Join(names', ','), '|');
    ItoaInjective(w, w');
    SplitJoin(Numerals(ids), ',', {','});
    SplitJoin(Numerals(ids'), ',', {','});
    assert Numerals(ids) == Numerals(ids');
    assert |Numerals(ids)| == |Numerals(ids')|;
    forall i | 0 <= i < |ids| ensures ids[i] == ids'[i] {
      assert Numerals(ids)[i] == Numerals(ids')[i];
      ItoaInjective(ids[i], ids'[i]);
    }
  }

  lemma JoinInjective(names: seq<string>, names': seq<string>)
    requires CommaFree(names) && CommaFree(names') && names != [] && names' != []
    requires Join(names, ',') == Join(names', ',')
    ensures names == names'
  {
    SplitJoin(names, ',', {','});
    SplitJoin(names', ',', {','});
  }

  lemma NotBlankLists(q: Query)
    requires !Blank(q)
    ensures SortedInts(TokenSet(q)) != [] && SortedElements(NameSet(q)) != []
    ensures forall x :: x in SortedInts(TokenSet(q)) <==> x in TokenSet(q)
    ensures forall x :: x in SortedElements(NameSet(q)) <==> x in NameSet(q)
  {
    var t := AnElement(TokenSet(q));
    var n := AnElement(NameSet(q));
    assert t in SortedInts(TokenSet(q)) && n in SortedElements(NameSet(q));
  }

  /** For every pair of queries: equal keys mean the same window, the same tokens and the same joined names. */
  lemma KeyMeaning(a: Query, b: Query)
    ensures MetricKey(a) == MetricKey(b) <==>
            if Blank(a) || Blank(b) then Blank(a) && Blank(b)
            else a.window == b.window && TokenSet(a) == TokenSet(b)
                 && Join(SortedElements(NameSet(a)), ',') == Join(SortedElements(NameSet(b)), ',')
  {
    hide Join, Itoa, TokenSet, NameSet, TrimSpace, Numerals, StrictlySorted;
    if !Blank(a) && !Blank(b) && MetricKey(a) == MetricKey(b) {
      NotBlankLists(a);
      NotBlankLists(b);
      KeyTextParts(a.window, SortedInts(TokenSet(a)), SortedElements(NameSet(a)),
                   b.window, SortedInts(TokenSet(b)), SortedElements(NameSet(b)));
      assert TokenSet(a) == TokenSet(b);
    }
  }

  ghost predicate PlainNames(q: Query) {
    forall m :: m in q.models ==> ',' !in m
  }

  lemma PlainNamesSorted(q: Query)
    requires PlainNames(q)
    ensures CommaFree(SortedElements(NameSet(q)))
  {
    hide TrimSpace;
    forall n | n in SortedElements(NameSet(q)) ensures ',' !in n {
      var m :| m in q.models && TrimSpace(m) == n;
      TrimSpacePart(m);
    }
  }

  /** Names without commas: equal keys exactly for the same query, whatever the order and the repetitions. */
  lemma KeyIdentifiesQuery(a: Query, b: Query)
    requires PlainNames(a) && PlainNames(b) && !Blank(a)
    ensures MetricKey(a) == MetricKey(b) <==> SameQuery(a, b)
  {
    hide Join, TokenSet, NameSet, PlainNames;
    KeyMeaning(a, b);
    if !Blank(b) && MetricKey(a) == MetricKey(b) {
      NotBlankLists(a);
      NotBlankLists(b);
      PlainNamesSorted(a);
      PlainNamesSorted(b);
      JoinInjective(SortedElements(NameSet(a)), SortedElements(NameSet(b)));
      assert NameSet(a) == NameSet(b);
    }
  }

  lemma TrimmedNames(q: Query)
    requires forall m :: m in q.models ==> m != "" && Trimmed(m)
    ensures NameSet(q) == set m | m in q.models
  {
    hide TrimSpace, Trimmed;
    forall m | m in q.models ensures TrimSpace(m) == m {
      TrimSpaceTrimmed(m);
    }
  }

  lemma SortedPair()
    ensures SortedElements({"a,b"}) == ["a,b"] && SortedElements({"a", "b"}) == ["a", "b"]
  {
    LessIsTotal();
    assert Less("a", "b");
    hide Less;
    StrictlySortedUnique(Less, SortedElements({"a,b"}), ["a,b"]);
    StrictlySortedUnique(Less, SortedElements({"a", "b"}), ["a", "b"]);
  }

  lemma CommaSets(a: Query, b: Query)
    requires a == Query([1], ["a,b"], 24) && b == Query([1], ["a", "b"], 24)
    ensures NameSet(a) == {"a,b"} && NameSet(b) == {"a", "b"} && TokenSet(a) == TokenSet(b) == {1}
    ensures NameSet(a) != NameSet(b)
  {
    hide NameSet;
    TrimmedNames(a);
    TrimmedNames(b);
    assert "a" in NameSet(b) && "a" !in NameSet(a);
  }

  lemma JoinPair()
    ensures Join(["a", "b"], ',') == Join(["a,b"], ',')
  {
    assert Join(["a", "b"], ',') == "a" + [','] + Join(["b"], ',');
  }

  lemma CommaCollision(a: Query, b: Query)
    requires a == Query([1], ["a,b"], 24) && b == Query([1], ["a", "b"], 24)
    ensures MetricKey(a) == MetricKey(b) && !SameQuery(a, b)
  {
    CommaSets(a, b);
    hide Join, TokenSet, NameSet, Less, StrictlySorted, TrimSpace, Itoa;
    assert 1 in TokenSet(a) && "a,b" in NameSet(a) && "a" in NameSet(b);
    SortedPair();
    JoinPair();
  }

  /** A name with a comma can share its key with the names around the comma. */
  lemma CommaNamesCollide()
    ensures var a, b := Query([1], ["a,b"], 24), Query([1], ["a", "b"], 24);
            MetricKey(a) == MetricKey(b) && !SameQuery(a, b)
  {
    hide *;
    CommaCollision(Query([1], ["a,b"], 24), Query([1], ["a", "b"], 24));
  }

  // ---------------------------------------------------------------- the cache

  datatype Entry<T> = Entry(expiresAt: int, data: T)

  datatype Event<T> =
    | Stored(query: Query, data: T, at: int)
    | Deleted(query: Query)
    | Invalidated

  /** The last value stored under a key that nothing has deleted or invalidated since. */
  ghost function LastStored<T>(log: seq<Event<T>>, key: string): Option<Entry<T>> {
    if log == [] then None
    else
      match log[|log| - 1]
      case Stored(q, data, at) =>
        if MetricKey(q) == key then Some(Entry(at + METRIC_TTL, data)) else LastStored(log[..|log| - 1], key)
      case Deleted(q) => if MetricKey(q) == key then None else LastStored(log[..|log| - 1], key)
      case Invalidated => None
  }

  lemma LastStoredPush<T>(log: seq<Event<T>>, e: Event<T>, key: string)
    ensures LastStored(log + [e], key) ==
              match e
              case Stored(q, data, at) =>
                if MetricKey(q) == key then Some(Entry(at + METRIC_TTL, data)) else LastStored(log, key)
              case Deleted(q) => if MetricKey(q) == key then None else LastStored(log, key)
              case Invalidated => None
  {
    hide MetricKey;
    assert (log + [e])[..|log + [e]| - 1] == log;
  }

  /** The entries after the sweeper has looked at these keys. */
  function Swept<T>(entries: map<string, Entry<T>>, done: seq<string>, now: int): map<string, Entry<T>> {
    map k | k in entries && !(k in done && Expired(entries[k], now)) :: entries[k]
  }

  lemma SweptNext<T>(entries: map<string, Entry<T>>, done: seq<string>, key: string, now: int)
    requires key in entries && key !in done
    ensures key in Swept(entries, done, now) && Swept(entries, done, now)[key] == entries[key]
    ensures Swept(entries, done + [key], now)
         == if Expired(entries[key], now) then Swept(entries, done, now) - {key} else Swept(entries, done, now)
  {
    hide Expired;
  }

  predicate Expired<T>(e: Entry<T>, now: int) {
    now > e.expiresAt
  }

  class Cache<T(!new, ==)> {
    var entries: map<string, Entry<T>>
    ghost var log: seq<Event<T>>

    /** Eviction may lose entries, but what is there is the last value stored. */
    ghost predicate Valid()
      reads this
    {
      && |entries| <= MAX_KEYS && "" !in entries
      && forall key :: key in entries ==> LastStored(log, key) == Some(entries[key])
    }

    constructor ()
      ensures Valid() && entries == map[] && log == []
    {
      entries, log := map[], [];
    }

    /** The read-locked half of a get; `stale` asks for the other half. */
    method Peek(query: Query, now: int) returns (hit: Option<T>, stale: bool)
      requires Valid()
      ensures var key := MetricKey(query);
              && (hit.Some? <==> key in entries && !Expired(entries[key], now))
              && (hit.Some? ==> hit.value == entries[key].data)
              && (stale <==> key in entries && Expired(entries[key], now))
    {
      var key := BuildRoutingMetricCacheKey(query);
      if key == "" || key !in entries {
        return None, false;
      }
      if now > entries[key].expiresAt {
        return None, true;
      }
      return Some(entries[key].data), false;
    }

    /** The write-locked half of a get that found a stale entry; a newer one may have come in between. */
    method DeleteStale(query: Query)
      requires Valid()
      modifies this
      ensures Valid() && log == old(log) + [Deleted(query)]
      ensures entries == old(entries) - {MetricKey(query)}
    {
      hide MetricKey, LastStored;
      var key := BuildRoutingMetricCacheKey(query);
      entries := entries - {key};
      log := log + [Deleted(query)];
      forall k | k in entries ensures LastStored(log, k) == Some(entries[k]) {
        LastStoredPush(old(log), Deleted(query), k);
      }
    }

    method Set(query: Query, data: T, now: int)
      requires Valid()
      modifies this
      ensures Valid()
      ensures Blank(query) ==> entries == old(entries) && log == old(log)
      ensures !Blank(query) ==>
        && log == old(log) + [Stored(query, data, now)]
        && MetricKey(query) in entries && entries[MetricKey(query)] == Entry(now + 15, data)
        && (forall k :: k in entries && k != MetricKey(query) ==>
              k in old(entries) && entries[k] == old(entries)[k] && !Expired(entries[k], now))
        && (forall k :: k in old(entries) && !Expired(old(entries)[k], now) && k !in entries ==>
              |entries| >= 255)
      ensures |entries| <= 256
    {
      hide MetricKey, Blank, LastStored;
      var key := BuildRoutingMetricCacheKey(query);
      KeyBlank(query);
      if key == "" {
        return;
      }
      CleanupExpired(now);
      ghost var live := entries;
      EvictIfNeeded();
      ghost var kept := entries;
      entries := entries[key := Entry(now + METRIC_TTL, data)];
      InsertedSize(kept, key, Entry(now + METRIC_TTL, data));
      log := log + [Stored(query, data, now)];
      forall k | k in entries ensures LastStored(log, k) == Some(entries[k]) {
        LastStoredPush(old(log), Stored(query, data, now), k);
      }
    }

    /** Makes room for one more entry; any entry may go, but none goes while there is room. */
    method EvictIfNeeded()
      modifies this`entries
      ensures |entries| < MAX_KEYS && entries.Keys <= old(entries).Keys
      ensures forall k :: k in entries ==> entries[k] == old(entries)[k]
      ensures entries == old(entries) || |entries| == MAX_KEYS - 1
    {
      while |entries| >= MAX_KEYS
        invariant entries.Keys <= old(entries).Keys
        invariant forall k :: k in entries ==> entries[k] == old(entries)[k]
        invariant entries == old(entries) || |entries| >= MAX_KEYS - 1
        decreases |entries|
      {
        var victim :| victim in entries.Keys;
        RemovedSize(entries, victim);
        entries := entries - {victim};
      }
    }

    method CleanupExpired(now: int)
      modifies this`entries
      ensures entries == map k | k in old(entries) && !Expired(old(entries)[k], now) :: old(entries)[k]
      ensures |entries| <= |old(entries)|
    {
      var keys := AnyOrder(entries.Keys);
      assert entries == Swept(entries, keys[..0], now);
      for i := 0 to |keys|
        invariant entries == Swept(old(entries), keys[..i], now)
      {
        assert keys[i] in keys && keys[i] !in keys[..i];
        SweptNext(old(entries), keys[..i], keys[i], now);
        assert keys[..i + 1] == keys[..i] + [keys[i]];
        if now > entries[keys[i]].expiresAt {
          entries := entries - {keys[i]};
        }
      }
      assert keys[..|keys|] == keys;
      CardinalityGrows(entries.Keys, old(entries).Keys);
    }

    method Invalidate()
      requires Valid()
      modifies this
      ensures Valid() && entries == map[] && log == old(log) + [Invalidated]
    {
      entries := map[];
      log := log + [Invalidated];
    }
  }

  lemma KeyBlank(q: Query)
    ensures MetricKey(q) == "" <==> Blank(q)
  {
  }

  lemma InsertedSize<K, V>(m: map<K, V>, k: K, v: V)
    ensures |m| <= |m[k := v]| <= |m| + 1
  {
    assert m[k := v].Keys == m.Keys + {k};
    assert |m.Keys + {k}| <= |m.Keys| + 1;
    CardinalityGrows(m.Keys, m.Keys + {k});
  }

  lemma RemovedSize<K, V>(m: map<K, V>, k: K)
    requires k in m
    ensures |m - {k}| == |m| - 1
  {
    assert (m - {k}).Keys == m.Keys - {k};
  }

  lemma CardinalityGrows<T>(a: set<T>, b: set<T>)
    requires a <= b
    ensures |a| <= |b|
  {
    assert b == a + (b - a);
  }

  // ---------------------------------------------------------------- what a hit is

  /** The same window, the same tokens and the same names once sorted and joined. */
  ghost predicate SameJoined(a: Query, b: Query) {
    && !Blank(a) && !Blank(b) && a.window == b.window && TokenSet(a) == TokenSet(b)
    && Join(SortedElements(NameSet(a)), ',') == Join(SortedElements(NameSet(b)), ',')
  }

  /** Entry `i` of the log stored this under such a query, and nothing later stored, deleted or invalidated it. */
  ghost predicate StoredAt<T(!new)>(log: seq<Event<T>>, i: nat, query: Query, data: T, at: int) {
    && i < |log| && log[i].Stored? && SameJoined(log[i].query, query) && log[i].data == data && log[i].at == at
    && forall j :: i < j < |log| ==> !log[j].Invalidated? && !SameJoined(log[j].query, query)
  }

  lemma SameJoinedIsSameKey(a: Query, b: Query)
    requires !Blank(a)
    ensures MetricKey(a) == MetricKey(b) <==> SameJoined(a, b)
    ensures SameJoined(a, b) <==> SameJoined(b, a)
  {
    hide MetricKey, TokenSet, NameSet, Join, SortedElements;
    KeyMeaning(a, b);
  }

  lemma {:induction false} LastStoredMeaning<T(!new)>(log: seq<Event<T>>, query: Query) returns (i: nat)
    requires !Blank(query) && LastStored(log, MetricKey(query)).Some?
    ensures var e := LastStored(log, MetricKey(query)).value; StoredAt(log, i, query, e.data, e.expiresAt - METRIC_TTL)
  {
    hide MetricKey, SameJoined, Blank;
    var init, last := log[..|log| - 1], log[|log| - 1];
    if !last.Invalidated? {
      SameJoinedIsSameKey(query, last.query);
    }
    if last.Stored? && MetricKey(last.query) == MetricKey(query) {
      i := |log| - 1;
    } else {
      i := LastStoredMeaning(init, query);
    }
  }

  /**
   * For all names: a hit is the value last stored for a query of the same window, tokens and joined names, at most the
   * time to live ago, and still standing.
   */
  lemma HitIsLastStored<T(!new)>(cache: Cache<T>, query: Query, now: int) returns (i: nat)
    requires cache.Valid() && MetricKey(query) in cache.entries && !Expired(cache.entries[MetricKey(query)], now)
    ensures i < |cache.log| && cache.log[i].Stored? && now - cache.log[i].at <= 15
    ensures StoredAt(cache.log, i, query, cache.entries[MetricKey(query)].data, cache.log[i].at)
  {
    hide MetricKey, SameJoined, Blank, LastStored;
    KeyBlank(query);
    i := LastStoredMeaning(cache.log, query);
  }

  /** The same for this very query. */
  ghost predicate StoredForQuery<T(!new)>(log: seq<Event<T>>, i: nat, query: Query, data: T, at: int) {
    && i < |log| && log[i].Stored? && SameQuery(log[i].query, query) && log[i].data == data && log[i].at == at
    && forall j :: i < j < |log| ==> !log[j].Invalidated? && !SameQuery(log[j].query, query)
  }

  ghost predicate PlainLog<T(!new)>(log: seq<Event<T>>) {
    forall e :: e in log && !e.Invalidated? ==> PlainNames(e.query)
  }

  lemma PlainSameJoined(a: Query, b: Query)
    requires PlainNames(a) && PlainNames(b) && !Blank(b)
    ensures SameJoined(a, b) <==> SameQuery(a, b)
  {
    hide MetricKey, SameJoined, SameQuery, Blank, PlainNames;
    KeyIdentifiesQuery(b, a);
    SameJoinedIsSameKey(b, a);
    SameQuerySymmetric(a, b);
  }

  lemma SameQuerySymmetric(a: Query, b: Query)
    ensures SameQuery(a, b) == SameQuery(b, a)
  {
  }

  /** For names without commas: a hit is the value last stored for that very query. */
  lemma HitIsFresh<T(!new)>(cache: Cache<T>, query: Query, now: int) returns (i: nat)
    requires cache.Valid() && PlainLog(cache.log) && PlainNames(query)
    requires MetricKey(query) in cache.entries && !Expired(cache.entries[MetricKey(query)], now)
    ensures i < |cache.log| && cache.log[i].Stored? && now - cache.log[i].at <= 15
    ensures StoredForQuery(cache.log, i, query, cache.entries[MetricKey(query)].data, cache.log[i].at)
  {
    hide MetricKey, SameJoined, SameQuery, PlainNames, Blank, LastStored;
    KeyBlank(query);
    i := HitIsLastStored(cache, query, now);
    forall j | i <= j < |cache.log| && !cache.log[j].Invalidated?
      ensures SameJoined(cache.log[j].query, query) <==> SameQuery(cache.log[j].query, query)
    {
      assert cache.log[j] in cache.log;
      PlainSameJoined(cache.log[j].query, query);
    }
  }
}
